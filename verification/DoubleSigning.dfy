/** Double-sign detection over runs: who is caught, who is caught unjustly, and when the charge is always just. */
module DoubleSigning {
  import opened Wrappers
  import opened Bytes
  import opened Protocol
  import opened Gossip
  import opened Scores
  import opened NodeSpec
  import opened NodeRuns
  import opened SafeMode
  import opened NodeActions

  /** The command that a tick remembers as the leader's last. */
  function Remembered<S>(env: Env<S>, n: Node<S>, inp: Input): Option<Incoming> {
    var aged := Age(env, n, inp.now);
    match Accepted(env, n, inp)
    case Some(msg) => if Leader(aged.scores) == Some(msg.sender) && Commands(msg.opcode) then Some(msg) else None
    case None => None
  }

  /** The sender of the remembered command, as an observer knows it; the node itself does not record it. */
  function AuthorAfter<S>(env: Env<S>, n: Node<S>, inp: Input, author: Option<Incoming>): Option<Incoming> {
    if Remembered(env, n, inp).Some? then Remembered(env, n, inp) else author
  }

  function RunAuthor<S>(env: Env<S>, n: Node<S>, inputs: seq<Input>, author: Option<Incoming>): Option<Incoming>
    decreases |inputs|
  {
    if inputs == [] then author
    else RunAuthor(env, Tick(env, n, inputs[0]), inputs[1..], AuthorAfter(env, n, inputs[0], author))
  }

  /** What the node keeps of the remembered command: kind and payload, not the sender. */
  ghost predicate Authored<S>(n: Node<S>, author: Option<Incoming>) {
    n.lastLeaderMsg == match author case Some(m) => Some((m.opcode, m.payload)) case None => None
  }

  lemma AuthoredStep<S>(env: Env<S>, n: Node<S>, inp: Input, author: Option<Incoming>)
    requires Authored(n, author)
    ensures Authored(Tick(env, n, inp), AuthorAfter(env, n, inp, author))
  {
    hide Dispatch, Settle, Leader, Decay, Pruned, Appended;
    match Accepted(env, n, inp)
    case Some(msg) => DispatchFields(env, Remember(Age(env, n, inp.now), msg), msg, inp);
    case None => SettleFields(Age(env, n, inp.now));
  }

  lemma {:induction false} AuthoredRun<S>(env: Env<S>, n: Node<S>, inputs: seq<Input>, author: Option<Incoming>)
    requires Authored(n, author)
    ensures Authored(Run(env, n, inputs), RunAuthor(env, n, inputs, author))
    decreases |inputs|
  {
    hide Tick, AuthorAfter, Authored;
    if inputs != [] {
      AuthoredStep(env, n, inputs[0], author);
      AuthoredRun(env, Tick(env, n, inputs[0]), inputs[1..], AuthorAfter(env, n, inputs[0], author));
    }
  }

  /** A command that contradicts another: the same kind, another payload. */
  predicate Contradicts(a: Incoming, b: Incoming) {
    a.opcode == b.opcode && a.payload != b.payload
  }

  /**
   * In any run, the leader's next message is caught exactly when it is of one of the three kinds and contradicts the command
   * remembered last, whoever sent that; the tick then ends with that leader disqualified, in safe mode and at standstill.
   */
  lemma CaughtIff<S>(env: Env<S>, n: Node<S>, inp: Input, author: Option<Incoming>)
    requires Authored(n, author) && inp.msg.Some?
    requires n.disqualified != Some(inp.msg.value.sender) && Leader(Decay(n.scores)) == Some(inp.msg.value.sender)
    ensures var msg := inp.msg.value;
            CatchesDoubleSign(env, n, inp) <==>
              && (msg.opcode == StateUpdate || msg.opcode == VmScriptDispatch || msg.opcode == TaskDispatch)
              && author.Some? && author.value.opcode == msg.opcode && author.value.payload != msg.payload
    ensures CatchesDoubleSign(env, n, inp) ==>
              var m := Tick(env, n, inp);
              m.disqualified == Some(inp.msg.value.sender) && m.safeMode && Stopped(m.motor)
  {
    hide Dispatch, Settle, Leader, Decay, Pruned, Appended;
  }

  lemma ContradictingTick<S>(env: Env<S>, n: Node<S>, inp: Input, l: Mac, op: OpCode, p: Bytes, q: Bytes)
    requires n.disqualified != Some(l) && Leader(Decay(n.scores)) == Some(l)
    requires n.lastLeaderMsg == Some((op, p)) && inp.msg == Some(Incoming(l, op, q)) && p != q
    requires op == StateUpdate || op == VmScriptDispatch || op == TaskDispatch
    ensures var m := Tick(env, n, inp); m.disqualified == Some(l) && m.safeMode && Stopped(m.motor)
  {
    hide Dispatch, Settle, Leader, Decay, Pruned, Appended;
  }

  /**
   * A leader that sends two payloads of the same kind, of any of the three, ends disqualified, in safe mode and at
   * standstill.
   */
  lemma ContradictionIsCaught<S>(env: Env<S>, n: Node<S>, first: Input, second: Input, l: Mac, op: OpCode, p: Bytes,
                                 q: Bytes, track: Track)
    requires NodeOk(n, track) && n.disqualified != Some(l)
    requires Leader(Decay(n.scores)) == Leader(Decay(Decay(n.scores))) == Some(l)
    requires first.msg == Some(Incoming(l, op, p)) && second.msg == Some(Incoming(l, op, q)) && p != q
    requires op == StateUpdate || op == VmScriptDispatch || op == TaskDispatch
    ensures var m := Tick(env, Tick(env, n, first), second);
            m.disqualified == Some(l) && m.safeMode && Stopped(m.motor)
  {
    hide Tick, Leader, Decay, CatchesDoubleSign, Accepted;
    var n1 := Tick(env, n, first);
    var n2 := Tick(env, n1, second);
    AcceptedIff(env, n, first, first.msg.value);
    AcceptedIff(env, n1, second, second.msg.value);
    TickScores(env, n, first);
    NodeStep(env, n, first, track);
    NodeStep(env, n1, second, TrackAfter(env, n, first, track));
    RememberedIff(env, n, first);
    OnlyCatchesDisqualify(env, n, first);
    OnlyCatchesDisqualify(env, n1, second);
    SafeModeIff(env, n, first);
    SafeModeIff(env, n1, second);
    CaughtIsNotAccepted(env, n, first);
    CaughtIsNotAccepted(env, n1, second);
    if !CatchesDoubleSign(env, n, first) {
      ContradictingTick(env, n1, second, l, op, p, q);
    }
  }

  lemma CaughtIsNotAccepted<S>(env: Env<S>, n: Node<S>, inp: Input)
    requires inp.msg.Some?
    ensures CatchesDoubleSign(env, n, inp) <==> Accepted(env, n, inp).None? && n.disqualified != Some(inp.msg.value.sender)
    ensures inp.msg.value.opcode != Heartbeat ==> HeartbeatOf(env, n, inp).None?
    ensures Accepted(env, n, inp) in {None, inp.msg}
  {
    hide Leader, Decay, Pruned, Appended;
  }

  /** No other kind is ever caught or remembered, whoever sends it. */
  lemma OtherKindsPass<S>(env: Env<S>, n: Node<S>, inp: Input)
    requires inp.msg.Some?
    requires inp.msg.value.opcode !in {StateUpdate, VmScriptDispatch, TaskDispatch}
    ensures !CatchesDoubleSign(env, n, inp)
    ensures Tick(env, n, inp).lastLeaderMsg == n.lastLeaderMsg && Tick(env, n, inp).disqualified == n.disqualified
  {
    hide Tick, Leader, Decay, CatchesDoubleSign, Accepted;
    AcceptedIff(env, n, inp, inp.msg.value);
    CaughtIsNotAccepted(env, n, inp);
    RememberedIff(env, n, inp);
    OnlyCatchesDisqualify(env, n, inp);
  }

  /** The leader after every tick of the run is `l`. */
  predicate LedBy<S>(env: Env<S>, n: Node<S>, inputs: seq<Input>, l: Mac)
    decreases |inputs|
  {
    Leader(n.scores) == Some(l) && (inputs == [] || LedBy(env, Tick(env, n, inputs[0]), inputs[1..], l))
  }

  lemma RememberedLeads<S>(env: Env<S>, n: Node<S>, inp: Input, track: Track)
    requires NodeOk(n, track)
    ensures Remembered(env, n, inp).Some? ==> Leader(n.scores) == Some(Remembered(env, n, inp).value.sender)
  {
    hide Decay, Leader, Pruned, Appended, DoubleSign;
    DecayKeepsLeader(n.scores, track);
  }

  /** Every command that a tick of the run remembers is one of `l`. */
  predicate RemembersOnly<S>(env: Env<S>, n: Node<S>, inputs: seq<Input>, l: Mac)
    decreases |inputs|
  {
    inputs == [] ||
    (var msg := Remembered(env, n, inputs[0]);
     (msg.Some? ==> msg.value.sender == l) && RemembersOnly(env, Tick(env, n, inputs[0]), inputs[1..], l))
  }

  lemma {:induction false} SameAuthor<S>(env: Env<S>, n: Node<S>, inputs: seq<Input>, author: Option<Incoming>, l: Mac)
    requires RemembersOnly(env, n, inputs, l) && author.Some? && author.value.sender == l
    ensures var a := RunAuthor(env, n, inputs, author); a.Some? && a.value.sender == l
    decreases |inputs|
  {
    hide Tick, Remembered;
    if inputs != [] {
      SameAuthor(env, Tick(env, n, inputs[0]), inputs[1..], AuthorAfter(env, n, inputs[0], author), l);
    }
  }

  /**
   * A charge is just when no other sender's command was remembered since one of the culprit's own, also if it has lost and
   * regained the lead in between: it has contradicted itself.
   */
  lemma {:induction false} OwnCommandsConvict<S>(env: Env<S>, n: Node<S>, inputs: seq<Input>, last: Input, own: Incoming)
    requires Authored(n, Some(own)) && RemembersOnly(env, n, inputs, own.sender)
    requires CatchesDoubleSign(env, Run(env, n, inputs), last) && last.msg.value.sender == own.sender
    ensures var first := RunAuthor(env, n, inputs, Some(own));
            first.Some? && first.value.sender == own.sender && Contradicts(first.value, last.msg.value)
  {
    hide Tick, Run, RunAuthor, CatchesDoubleSign;
    AuthoredRun(env, n, inputs, Some(own));
    SameAuthor(env, n, inputs, Some(own), own.sender);
    Contradiction(env, Run(env, n, inputs), last, RunAuthor(env, n, inputs, Some(own)));
  }

  lemma {:induction false} LedRemembersOnly<S>(env: Env<S>, n: Node<S>, inputs: seq<Input>, l: Mac, track: Track)
    requires NodeOk(n, track) && LedBy(env, n, inputs, l)
    ensures RemembersOnly(env, n, inputs, l)
    decreases |inputs|
  {
    hide Tick, Remembered, NodeOk;
    if inputs != [] {
      RememberedLeads(env, n, inputs[0], track);
      NodeStep(env, n, inputs[0], track);
      LedRemembersOnly(env, Tick(env, n, inputs[0]), inputs[1..], l, TrackAfter(env, n, inputs[0], track));
    }
  }

  /** So whoever is caught after a lead without interruption is that leader, and has contradicted itself. */
  lemma {:induction false} SteadyLeaderIsGuilty<S>(env: Env<S>, n: Node<S>, inputs: seq<Input>, last: Input, own: Incoming,
                                                   track: Track)
    requires NodeOk(n, track) && Authored(n, Some(own)) && LedBy(env, n, inputs, own.sender)
    requires CatchesDoubleSign(env, Run(env, n, inputs), last)
    ensures var first := RunAuthor(env, n, inputs, Some(own));
            && first.Some? && Contradicts(first.value, last.msg.value)
            && first.value.sender == last.msg.value.sender == own.sender
  {
    hide Tick, Run, RunAuthor, CatchesDoubleSign, LedBy, RemembersOnly, NodeOk;
    RunKeeps(env, n, inputs, track);
    LedAtEnd(env, n, inputs, own.sender);
    CatchIsOfLeader(env, Run(env, n, inputs), last, RunTrack(env, n, inputs, track));
    LedRemembersOnly(env, n, inputs, own.sender, track);
    OwnCommandsConvict(env, n, inputs, last, own);
  }

  lemma {:induction false} LedAtEnd<S>(env: Env<S>, n: Node<S>, inputs: seq<Input>, l: Mac)
    requires LedBy(env, n, inputs, l)
    ensures Leader(Run(env, n, inputs).scores) == Some(l)
    decreases |inputs|
  {
    hide Tick;
    if inputs != [] {
      LedAtEnd(env, Tick(env, n, inputs[0]), inputs[1..], l);
    }
  }

  lemma CatchIsOfLeader<S>(env: Env<S>, n: Node<S>, inp: Input, track: Track)
    requires NodeOk(n, track) && CatchesDoubleSign(env, n, inp)
    ensures Leader(n.scores) == Some(inp.msg.value.sender)
  {
    hide Decay, Leader, Pruned, Appended;
    DecayKeepsLeader(n.scores, track);
  }

  lemma Contradiction<S>(env: Env<S>, n: Node<S>, inp: Input, author: Option<Incoming>)
    requires Authored(n, author) && CatchesDoubleSign(env, n, inp)
    ensures author.Some? && Contradicts(author.value, inp.msg.value)
  {
    hide Decay, Leader, Pruned, Appended;
  }

  // ---------- after a catch ----------

  /** The sender caught last in the run. */
  function LastCaught<S>(env: Env<S>, n: Node<S>, inputs: seq<Input>): Option<Mac>
    decreases |inputs|
  {
    if inputs == [] then None
    else
      var later := LastCaught(env, Tick(env, n, inputs[0]), inputs[1..]);
      if later.Some? then later
      else if CatchesDoubleSign(env, n, inputs[0]) then Some(inputs[0].msg.value.sender)
      else None
  }

  /** The sender disqualified is the one caught last. */
  lemma {:induction false} LastIsDisqualified<S>(env: Env<S>, n: Node<S>, inputs: seq<Input>)
    ensures Run(env, n, inputs).disqualified ==
            match LastCaught(env, n, inputs) case Some(c) => Some(c) case None => n.disqualified
    decreases |inputs|
  {
    hide Tick, CatchesDoubleSign;
    if inputs != [] {
      OnlyCatchesDisqualify(env, n, inputs[0]);
      LastIsDisqualified(env, Tick(env, n, inputs[0]), inputs[1..]);
    }
  }

  /** While nobody else is caught, a disqualified sender does not lead outside safe mode. */
  lemma CulpritStaysOut<S>(env: Env<S>, n: Node<S>, inputs: seq<Input>, l: Mac, track: Track)
    requires NodeOk(n, track) && n.disqualified == Some(l)
    requires LastCaught(env, n, inputs) in {None, Some(l)}
    ensures var m := Run(env, n, inputs);
            m.disqualified == Some(l) && (Leader(m.scores) == Some(l) ==> m.safeMode)
  {
    hide Run, LastCaught;
    LastIsDisqualified(env, n, inputs);
    RunKeeps(env, n, inputs, track);
  }

  /**
   * After any run from a state in which it is disqualified, a sender's heartbeat makes it lead again outside safe mode
   * exactly when the run has caught somebody, another was the last caught, and the table has a place for it.
   */
  lemma CulpritReturnsIff<S>(env: Env<S>, n: Node<S>, inputs: seq<Input>, inp: Input, l: Mac, track: Track)
    requires NodeOk(n, track) && n.disqualified == Some(l)
    requires inp.msg.Some? && inp.msg.value.sender == l && inp.msg.value.opcode == Heartbeat
    ensures var m := Run(env, n, inputs); var after, caught := Tick(env, m, inp), LastCaught(env, n, inputs);
            Leader(after.scores) == Some(l) && !after.safeMode
            <==> caught.Some? && caught != Some(l) && PlaceFor(Decay(m.scores), l).Some?
  {
    hide Run, RunTrack, Tick, LastCaught, Leader, Decay, PlaceFor;
    LastIsDisqualified(env, n, inputs);
    RunKeeps(env, n, inputs, track);
    HealIff(env, Run(env, n, inputs), inp, RunTrack(env, n, inputs, track), l);
  }

  // ---------- an unjust charge ----------

  /**
   * Two heartbeats and one command from each of two senders: the second sender has contradicted nobody but the
   * first.
   */
  function Takeover(base: Input, a: Mac, b: Mac): seq<Input> {
    [base.(msg := Some(Incoming(a, Heartbeat, []))),
     base.(msg := Some(Incoming(a, TaskDispatch, [1]))),
     base.(msg := Some(Incoming(b, Heartbeat, []))),
     base.(msg := Some(Incoming(b, TaskDispatch, [2])))]
  }

  lemma {:induction false} RunStep<S>(env: Env<S>, n: Node<S>, i: seq<Input>, k: nat)
    requires k < |i|
    ensures Run(env, n, i[..k + 1]) == Tick(env, Run(env, n, i[..k]), i[k])
    decreases k
  {
    hide Tick;
    if k == 0 {
      assert i[..1][1..] == [];
    } else {
      RunStep(env, Tick(env, n, i[0]), i[1..], k - 1);
      assert i[..k + 1][1..] == i[1..][..k] && i[..k][1..] == i[1..][..k - 1];
    }
  }

  /** What the examples follow: the table, who is disqualified, what is remembered. */
  ghost predicate At<S>(n: Node<S>, scores: Table, disqualified: Option<Mac>, remembered: Option<(OpCode, Bytes)>) {
    n.scores == scores && n.disqualified == disqualified && n.lastLeaderMsg == remembered
  }

  lemma HeartbeatAt<S>(env: Env<S>, n: Node<S>, inp: Input, sender: Mac, scores: Table, culprit: Option<Mac>,
                       remembered: Option<(OpCode, Bytes)>)
    requires At(n, scores, culprit, remembered) && inp.msg == Some(Incoming(sender, Heartbeat, []))
    requires culprit != Some(sender)
    ensures var next := Update(Decay(scores), sender, 100);
            && At(Tick(env, n, inp), next, culprit, remembered)
            && (Leader(next).Some? && Leader(next) != culprit ==> !Tick(env, n, inp).safeMode)
  {
    hide Update, Decay, Leader, Pruned, Appended, RunStdOn, RunScriptOn, OnStateUpdate, ParseAssertion, Heard;
  }

  lemma CommandAt<S>(env: Env<S>, n: Node<S>, inp: Input, sender: Mac, payload: Bytes, scores: Table)
    requires At(n, scores, None, None) && inp.msg == Some(Incoming(sender, TaskDispatch, payload))
    requires Leader(Decay(scores)) == Some(sender)
    ensures At(Tick(env, n, inp), Decay(scores), None, Some((TaskDispatch, payload)))
  {
    hide Decay, Leader, Pruned, Appended;
  }

  lemma CatchAt<S>(env: Env<S>, n: Node<S>, inp: Input, sender: Mac, payload: Bytes, other: Bytes, scores: Table,
                   culprit: Option<Mac>)
    requires At(n, scores, culprit, Some((TaskDispatch, other))) && inp.msg == Some(Incoming(sender, TaskDispatch, payload))
    requires Leader(Decay(scores)) == Some(sender) && payload != other && culprit != Some(sender)
    ensures At(Tick(env, n, inp), Decay(scores), Some(sender), Some((TaskDispatch, other)))
  {
    hide Decay, Leader, Pruned, Appended;
  }

  /** The sender that takes over the lead is disqualified for a command that differs from its predecessor's. */
  lemma TakeoverIsPunished<S>(env: Env<S>, id: Mac, initial: S, wal: Option<Bytes>, motor: seq<byte>, base: Input,
                              a: Mac, b: Mac)
    requires a != b
    ensures Run(env, New(id, 2, initial, wal, motor, []), Takeover(base, a, b)).disqualified == Some(b)
  {
    hide Tick, Run, Decay, Update, Leader;
    var n, i := New(id, 2, initial, wal, motor, []), Takeover(base, a, b);
    NothingRun(env, n, i);
    RunStep(env, n, i, 0);
    RunStep(env, n, i, 1);
    RunStep(env, n, i, 2);
    RunStep(env, n, i, 3);
    assert i[..4] == i;
    FirstLead(a);
    SecondLead(a, b, 98);
    assert n.scores == [None, None];
    HeartbeatAt(env, n, i[0], a, [None, None], None, None);
    CommandAt(env, Run(env, n, i[..1]), i[1], a, [1], Alone(a, 100));
    HeartbeatAt(env, Run(env, n, i[..2]), i[2], b, Alone(a, 99), None, Some((TaskDispatch, [1])));
    CatchAt(env, Run(env, n, i[..3]), i[3], b, [2], [1], Both(a, 98, b, 100), None);
  }

  lemma NothingRun<S>(env: Env<S>, n: Node<S>, i: seq<Input>)
    ensures Run(env, n, i[..0]) == n
  {}

  // ---------- a former culprit ----------

  /** The first sender contradicts itself and is caught; so is the second, for contradicting the first; the first returns. */
  function Comeback(base: Input, a: Mac, b: Mac): seq<Input> {
    [base.(msg := Some(Incoming(a, Heartbeat, []))),
     base.(msg := Some(Incoming(a, TaskDispatch, [1]))),
     base.(msg := Some(Incoming(a, TaskDispatch, [2]))),
     base.(msg := Some(Incoming(b, Heartbeat, []))),
     base.(msg := Some(Incoming(b, TaskDispatch, [2]))),
     base.(msg := Some(Incoming(a, Heartbeat, [])))]
  }

  /** A sender that was caught leads again, outside safe mode, once another has been caught after it. */
  lemma FormerCulpritLeads<S>(env: Env<S>, id: Mac, initial: S, wal: Option<Bytes>, motor: seq<byte>, base: Input,
                              a: Mac, b: Mac)
    requires a != b
    ensures var n, i := New(id, 2, initial, wal, motor, []), Comeback(base, a, b);
            && Run(env, n, i[..3]).disqualified == Some(a)
            && Run(env, n, i).disqualified == Some(b)
            && Leader(Run(env, n, i).scores) == Some(a) && !Run(env, n, i).safeMode
  {
    hide Tick, Run, Decay, Update, Leader;
    var n, i := New(id, 2, initial, wal, motor, []), Comeback(base, a, b);
    NothingRun(env, n, i);
    RunStep(env, n, i, 0);
    RunStep(env, n, i, 1);
    RunStep(env, n, i, 2);
    RunStep(env, n, i, 3);
    RunStep(env, n, i, 4);
    RunStep(env, n, i, 5);
    assert i[..6] == i;
    FirstLead(a);
    SecondLead(a, b, 97);
    Return(a, b);
    assert n.scores == [None, None];
    HeartbeatAt(env, n, i[0], a, [None, None], None, None);
    CommandAt(env, Run(env, n, i[..1]), i[1], a, [1], Alone(a, 100));
    CatchAt(env, Run(env, n, i[..2]), i[2], a, [2], [1], Alone(a, 99), None);
    HeartbeatAt(env, Run(env, n, i[..3]), i[3], b, Alone(a, 98), Some(a), Some((TaskDispatch, [1])));
    CatchAt(env, Run(env, n, i[..4]), i[4], b, [2], [1], Both(a, 97, b, 100), Some(a));
    HeartbeatAt(env, Run(env, n, i[..5]), i[5], a, Both(a, 96, b, 99), Some(b), Some((TaskDispatch, [1])));
  }

  // ---------- the tables of the examples ----------

  lemma BestOfTwo(x: Option<Entry>, y: Option<Entry>)
    ensures Best([x, y]) == if y.None? || (x.Some? && x.value.score > y.value.score) then x else y
  {
    assert [x, y][..1] == [x] && [x][..0] == [];
    assert Best([]) == None;
    assert Best([x]) == x;
  }

  function Alone(a: Mac, score: byte): Table {
    [Some(Entry(a, score)), None]
  }

  function Both(a: Mac, p: byte, b: Mac, q: byte): Table {
    [Some(Entry(a, p)), Some(Entry(b, q))]
  }

  lemma LeaderAlone(a: Mac, score: byte)
    ensures Leader(Alone(a, score)) == Some(a)
    ensures score > 1 ==> Decay(Alone(a, score)) == Alone(a, score - 1)
  {
    BestOfTwo(Some(Entry(a, score)), None);
  }

  lemma LeaderOfBoth(a: Mac, p: byte, b: Mac, q: byte)
    ensures Leader(Both(a, p, b, q)) == Some(if p > q then a else b)
    ensures p > 1 && q > 1 ==> Decay(Both(a, p, b, q)) == Both(a, p - 1, b, q - 1)
  {
    BestOfTwo(Some(Entry(a, p)), Some(Entry(b, q)));
  }

  lemma FirstLead(a: Mac)
    ensures Update(Decay([None, None]), a, 100) == Alone(a, 100)
    ensures Decay(Alone(a, 100)) == Alone(a, 99) && Decay(Alone(a, 99)) == Alone(a, 98)
    ensures Leader(Alone(a, 99)) == Leader(Alone(a, 98)) == Some(a)
  {
    assert Decay([None, None]) == [None, None];
    LeaderAlone(a, 100);
    LeaderAlone(a, 99);
    LeaderAlone(a, 98);
  }

  lemma SecondLead(a: Mac, b: Mac, score: byte)
    requires a != b && 1 < score < 99
    ensures Update(Decay(Alone(a, score + 1)), b, 100) == Both(a, score, b, 100)
    ensures Decay(Both(a, score, b, 100)) == Both(a, score - 1, b, 99)
    ensures Leader(Both(a, score, b, 100)) == Leader(Both(a, score - 1, b, 99)) == Some(b)
  {
    LeaderAlone(a, score + 1);
    LeaderOfBoth(a, score, b, 100);
    LeaderOfBoth(a, score - 1, b, 99);
  }

  lemma Return(a: Mac, b: Mac)
    requires a != b
    ensures Update(Decay(Both(a, 96, b, 99)), a, 100) == Both(a, 100, b, 98)
    ensures Leader(Both(a, 100, b, 98)) == Some(a)
  {
    LeaderOfBoth(a, 96, b, 99);
    LeaderOfBoth(a, 100, b, 98);
  }
}
