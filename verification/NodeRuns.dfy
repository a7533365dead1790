/** What every run of ticks keeps: who leads, when the node is safe, what the log replays to, what the cache holds. */
module NodeRuns {
  import opened Wrappers
  import opened Bytes
  import opened Protocol
  import opened Gossip
  import opened StdRun
  import opened Vm
  import opened Wal
  import opened Scores
  import opened NodeSpec

  /** A new node, with an empty table of `size` places. */
  function New<S>(id: Mac, size: nat, initial: S, wal: Option<Bytes>, motor: seq<byte>, sent: seq<Message>): Node<S> {
    Node(id, initial, seq(size, _ => None), wal, false, None, None, false, [], motor, sent)
  }

  function Run<S>(env: Env<S>, n: Node<S>, inputs: seq<Input>): Node<S>
    decreases |inputs|
  {
    if inputs == [] then n else Run(env, Tick(env, n, inputs[0]), inputs[1..])
  }

  // ---------- one tick, part by part ----------

  /** The message that gets as far as being dispatched. */
  function Accepted<S>(env: Env<S>, n: Node<S>, inp: Input): Option<Incoming> {
    var aged := Age(env, n, inp.now);
    if inp.msg.Some? && aged.disqualified != Some(inp.msg.value.sender) && !DoubleSign(aged, inp.msg.value)
    then inp.msg else None
  }

  predicate FallsSafe<S>(env: Env<S>, n: Node<S>, inp: Input) {
    n.leaderActive && Leader(Decay(n.scores)).None?
  }

  predicate CatchesDoubleSign<S>(env: Env<S>, n: Node<S>, inp: Input) {
    var aged := Age(env, n, inp.now);
    inp.msg.Some? && aged.disqualified != Some(inp.msg.value.sender) && DoubleSign(aged, inp.msg.value)
  }

  function HeartbeatOf<S>(env: Env<S>, n: Node<S>, inp: Input): Option<Mac> {
    match Accepted(env, n, inp)
    case Some(msg) => if msg.opcode == Heartbeat then Some(msg.sender) else None
    case None => None
  }

  function AssertionOf<S>(env: Env<S>, n: Node<S>, inp: Input): Option<Assertion> {
    match Accepted(env, n, inp)
    case Some(msg) => if msg.opcode == SpatialGossip then ParseAssertion(msg.payload) else None
    case None => None
  }

  /** Running a program drives the motor and sends messages, and touches nothing else. */
  lemma ProgramsOnlyDrive<S>(env: Env<S>, n: Node<S>, payload: Bytes, inp: Input)
    ensures var m := RunStdOn(n, payload, inp); m == n.(motor := m.motor, sent := m.sent)
    ensures var m := RunScriptOn(env, n, payload, inp); m == n.(motor := m.motor, sent := m.sent)
  {
    hide Exec, ExecStd;
  }

  /** What dispatching a message does to the table, the cache and the memory of commands. */
  lemma DispatchFields<S>(env: Env<S>, n: Node<S>, msg: Incoming, inp: Input)
    ensures var m := Settle(Dispatch(env, n, msg, inp));
            && m.scores == (if msg.opcode == Heartbeat then Update(n.scores, msg.sender, FULL_SCORE) else n.scores)
            && m.gossip == (if msg.opcode == SpatialGossip && ParseAssertion(msg.payload).Some?
                            then Heard(n.gossip, ParseAssertion(msg.payload).value) else n.gossip)
            && m.disqualified == n.disqualified && m.lastLeaderMsg == n.lastLeaderMsg && m.id == n.id
  {
    hide RunStdOn, RunScriptOn, Update, Leader, Heard, ParseAssertion, Appended;
    ProgramsOnlyDrive(env, n, msg.payload, inp);
  }

  lemma TickScores<S>(env: Env<S>, n: Node<S>, inp: Input)
    ensures Tick(env, n, inp).scores ==
            match HeartbeatOf(env, n, inp)
            case Some(sender) => Update(Decay(n.scores), sender, FULL_SCORE)
            case None => Decay(n.scores)
  {
    hide Dispatch, Settle, Update, Decay, Leader, Pruned, Appended;
    match Accepted(env, n, inp)
    case Some(msg) => DispatchFields(env, Remember(Age(env, n, inp.now), msg), msg, inp);
    case None => SettleFields(Age(env, n, inp.now));
  }

  lemma TickGossip<S>(env: Env<S>, n: Node<S>, inp: Input)
    ensures Tick(env, n, inp).gossip ==
            match AssertionOf(env, n, inp)
            case Some(a) => Heard(Pruned(n.gossip, inp.now), a)
            case None => Pruned(n.gossip, inp.now)
  {
    hide Dispatch, Settle, Decay, Leader, Heard, ParseAssertion, Pruned, Appended;
    match Accepted(env, n, inp)
    case Some(msg) => DispatchFields(env, Remember(Age(env, n, inp.now), msg), msg, inp);
    case None => SettleFields(Age(env, n, inp.now));
  }

  lemma SettleFields<S>(n: Node<S>)
    ensures Settle(n) == n.(leaderActive := n.leaderActive || Leader(n.scores).Some?)
  {}

  // ---------- the table, the leader, safe mode ----------

  /** The observer's clock and record of stored heartbeats after a tick. */
  function TrackAfter<S>(env: Env<S>, n: Node<S>, inp: Input, track: Track): Track {
    var later := NextTick(track);
    match HeartbeatOf(env, n, inp)
    case Some(sender) =>
      if PlaceFor(Decay(n.scores), sender).Some? then later.(stored := later.stored[sender := later.now]) else later
    case None => later
  }

  predicate Stopped(motor: seq<byte>) {
    motor != [] && motor[|motor| - 1] == 0
  }

  /** Leadership is known, safe mode means standstill, and outside safe mode the disqualified sender does not lead. */
  ghost predicate LeadOk<S>(n: Node<S>) {
    && (n.leaderActive <==> Leader(n.scores).Some?)
    && (n.safeMode ==> Stopped(n.motor))
    && (!n.safeMode && n.disqualified.Some? ==> Leader(n.scores) != n.disqualified)
  }

  ghost predicate NodeOk<S>(n: Node<S>, track: Track) {
    Tracks(n.scores, track) && LeadOk(n) && CacheOk(n.gossip)
  }

  lemma TracksStep<S>(env: Env<S>, n: Node<S>, inp: Input, track: Track)
    requires Tracks(n.scores, track)
    ensures Tracks(Tick(env, n, inp).scores, TrackAfter(env, n, inp, track))
  {
    hide Tick, Decay;
    TickScores(env, n, inp);
    DecayTracks(n.scores, track);
    match HeartbeatOf(env, n, inp)
    case Some(sender) =>
      if PlaceFor(Decay(n.scores), sender).Some? {
        HeartbeatTracks(Decay(n.scores), NextTick(track), sender);
      }
    case None =>
  }

  /** After an accepted heartbeat the leader is its sender, or nobody new. */
  lemma HeartbeatLeads(table: Table, track: Track, sender: Mac)
    requires Tracks(table, track)
    requires forall m | m in track.stored :: track.stored[m] < track.now
    ensures Leader(Update(table, sender, FULL_SCORE)) in {Some(sender), Leader(table)}
    ensures Leader(table).Some? ==> Leader(Update(table, sender, FULL_SCORE)).Some?
  {
    if PlaceFor(table, sender).Some? {
      var later := track.(stored := track.stored[sender := track.now]);
      HeartbeatTracks(table, track, sender);
      LeaderIsMostRecent(Update(table, sender, FULL_SCORE), later);
      assert Fresh(later, sender);
    }
  }

  lemma AgeKeeps<S>(env: Env<S>, n: Node<S>, now: U64, track: Track)
    requires Tracks(n.scores, track) && LeadOk(n)
    ensures LeadOk(Age(env, n, now))
    ensures Age(env, n, now).disqualified == n.disqualified && Age(env, n, now).scores == Decay(n.scores)
  {
    hide Decay, Leader, Pruned, Record;
    DecayKeepsLeader(n.scores, track);
  }

  lemma DispatchKeeps<S>(env: Env<S>, n: Node<S>, msg: Incoming, inp: Input, track: Track)
    requires Tracks(n.scores, track) && LeadOk(n)
    requires forall m | m in track.stored :: track.stored[m] < track.now
    requires n.disqualified != Some(msg.sender)
    ensures LeadOk(Settle(Dispatch(env, n, msg, inp)))
  {
    hide Exec, ExecStd, Update, Leader, Heard, Record;
    HeartbeatLeads(n.scores, track, msg.sender);
  }

  lemma ReceiveKeeps<S>(env: Env<S>, n: Node<S>, msg: Incoming, inp: Input, track: Track)
    requires Tracks(n.scores, track) && LeadOk(n)
    requires forall m | m in track.stored :: track.stored[m] < track.now
    ensures LeadOk(Receive(env, n, msg, inp))
  {
    hide Dispatch, Leader, Record;
    if n.disqualified != Some(msg.sender) && !DoubleSign(n, msg) {
      DispatchKeeps(env, Remember(n, msg), msg, inp, track);
    }
  }

  lemma LeadStep<S>(env: Env<S>, n: Node<S>, inp: Input, track: Track)
    requires Tracks(n.scores, track) && LeadOk(n)
    ensures LeadOk(Tick(env, n, inp))
  {
    hide Age, Receive, Leader, Tracks;
    var aged := Age(env, n, inp.now);
    AgeKeeps(env, n, inp.now, track);
    DecayTracks(n.scores, track);
    match inp.msg
    case Some(msg) => ReceiveKeeps(env, aged, msg, inp, NextTick(track));
    case None =>
  }

  lemma CacheOkStep<S>(env: Env<S>, n: Node<S>, inp: Input)
    requires CacheOk(n.gossip)
    ensures CacheOk(Tick(env, n, inp).gossip)
  {
    hide Tick, Pruned, Heard, Distinct;
    TickGossip(env, n, inp);
    PrunedDistinct(n.gossip, inp.now);
    match AssertionOf(env, n, inp)
    case Some(a) => HeardOk(Pruned(n.gossip, inp.now), a);
    case None =>
  }

  /** Every tick keeps all of this. */
  lemma NodeStep<S>(env: Env<S>, n: Node<S>, inp: Input, track: Track)
    requires NodeOk(n, track)
    ensures NodeOk(Tick(env, n, inp), TrackAfter(env, n, inp, track))
  {
    hide Tick, TrackAfter, Tracks, LeadOk, CacheOk;
    TracksStep(env, n, inp, track);
    LeadStep(env, n, inp, track);
    CacheOkStep(env, n, inp);
  }

  function RunTrack<S>(env: Env<S>, n: Node<S>, inputs: seq<Input>, track: Track): Track
    decreases |inputs|
  {
    if inputs == [] then track
    else RunTrack(env, Tick(env, n, inputs[0]), inputs[1..], TrackAfter(env, n, inputs[0], track))
  }

  lemma {:induction false} RunKeeps<S>(env: Env<S>, n: Node<S>, inputs: seq<Input>, track: Track)
    requires NodeOk(n, track)
    ensures NodeOk(Run(env, n, inputs), RunTrack(env, n, inputs, track))
    decreases |inputs|
  {
    hide Tick, TrackAfter, NodeOk;
    if inputs != [] {
      NodeStep(env, n, inputs[0], track);
      RunKeeps(env, Tick(env, n, inputs[0]), inputs[1..], TrackAfter(env, n, inputs[0], track));
    }
  }

  const START := Track(0, map[])

  lemma NewIsOk<S>(id: Mac, size: nat, initial: S, wal: Option<Bytes>, motor: seq<byte>, sent: seq<Message>)
    ensures NodeOk(New(id, size, initial, wal, motor, sent), START)
  {
    BestIsMaximum(New(id, size, initial, wal, motor, sent).scores);
  }

  /** Every state a node can reach from new, whatever it is sent and whatever it senses. */
  lemma ReachableOk<S>(env: Env<S>, id: Mac, size: nat, initial: S, wal: Option<Bytes>, motor: seq<byte>,
                       sent: seq<Message>, inputs: seq<Input>)
    ensures var start := New(id, size, initial, wal, motor, sent);
            NodeOk(Run(env, start, inputs), RunTrack(env, start, inputs, START))
  {
    NewIsOk(id, size, initial, wal, motor, sent);
    RunKeeps(env, New(id, size, initial, wal, motor, sent), inputs, START);
  }
}
