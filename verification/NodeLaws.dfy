/** The laws of reachable nodes: the dead-man timer, standstill on errors, crash-safe replay, the cache, consensus. */
module NodeLaws {
  import opened Wrappers
  import opened Bytes
  import opened Protocol
  import opened VmTypes
  import opened Gossip
  import opened StdStep
  import opened StdRun
  import opened Vm
  import opened Wal
  import opened Scores
  import opened NodeSpec
  import opened NodeRuns
  import opened Verifier

  // ---------- leadership ----------

  /**
   * Outside safe mode the disqualified sender does not lead; leaderActive says whether anybody leads; somebody leads
   * exactly while some sender is fresh; and the leader is the sender whose stored heartbeat is the most recent.
   */
  ghost predicate LeaderIsLatest<S>(n: Node<S>, track: Track) {
    && (n.disqualified.Some? && !n.safeMode ==> Leader(n.scores) != n.disqualified)
    && (n.leaderActive <==> Leader(n.scores).Some?)
    && (n.leaderActive <==> exists id :: Fresh(track, id))
    && (forall l | Leader(n.scores) == Some(l) ::
          Fresh(track, l) && forall id | id in track.stored && id != l :: track.stored[id] < track.stored[l])
  }

  /** So it is in every state that a new node reaches, whatever it is sent and senses. */
  lemma LeaderLaw<S>(env: Env<S>, id: Mac, size: nat, initial: S, wal: Option<Bytes>, motor: seq<byte>,
                     sent: seq<Message>, inputs: seq<Input>)
    ensures var start := New(id, size, initial, wal, motor, sent);
            LeaderIsLatest(Run(env, start, inputs), RunTrack(env, start, inputs, START))
  {
    hide Run, RunTrack;
    var start := New(id, size, initial, wal, motor, sent);
    ReachableOk(env, id, size, initial, wal, motor, sent, inputs);
    LeaderIsMostRecent(Run(env, start, inputs).scores, RunTrack(env, start, inputs, START));
  }

  // ---------- the dead-man timer ----------

  /** No heartbeat is processed during the inputs. */
  predicate Quiet<S>(env: Env<S>, n: Node<S>, inputs: seq<Input>)
    decreases |inputs|
  {
    inputs == [] || (HeartbeatOf(env, n, inputs[0]).None? && Quiet(env, Tick(env, n, inputs[0]), inputs[1..]))
  }

  /** Score of the leader: the ticks it has left. */
  function TicksLeft<S>(n: Node<S>): nat {
    match Best(n.scores)
    case Some(e) => e.score
    case None => 0
  }

  lemma LeaderHasTicks<S>(n: Node<S>, track: Track)
    requires NodeOk(n, track)
    ensures TicksLeft(n) == 0 <==> Leader(n.scores).None?
    ensures TicksLeft(n) <= FULL_SCORE
  {
    BestIsMaximum(n.scores);
    if Best(n.scores).Some? {
      assert Best(n.scores) in n.scores;
    }
  }

  lemma SafeStays<S>(env: Env<S>, n: Node<S>, inp: Input)
    requires HeartbeatOf(env, n, inp).None?
    ensures n.safeMode ==> Tick(env, n, inp).safeMode
    ensures n.leaderActive && Leader(Decay(n.scores)).None? ==> Tick(env, n, inp).safeMode
  {
    hide Exec, ExecStd, Leader, Heard, Pruned, Decay, Record;
  }

  lemma QuietTick<S>(env: Env<S>, n: Node<S>, inp: Input, track: Track)
    requires NodeOk(n, track) && HeartbeatOf(env, n, inp).None?
    ensures var m := Tick(env, n, inp);
            && TicksLeft(m) == (if TicksLeft(n) > 0 then TicksLeft(n) - 1 else 0)
            && (TicksLeft(n) > 1 ==> Leader(m.scores) == Leader(n.scores))
            && (TicksLeft(n) == 1 || n.safeMode ==> m.safeMode)
  {
    hide Tick, Decay;
    TickScores(env, n, inp);
    DecayTracks(n.scores, track);
    DecayKeepsLeader(n.scores, track);
    BestIsMaximum(n.scores);
    SafeStays(env, n, inp);
    if Best(n.scores).Some? {
      assert Best(n.scores) in n.scores;
    }
  }

  /**
   * With no heartbeat processed, the leader stays for exactly the ticks its score gives it; from then on the node has no
   * leader, is in safe mode, and stands still.
   */
  lemma {:induction false} DeadMan<S>(env: Env<S>, n: Node<S>, inputs: seq<Input>, track: Track)
    requires NodeOk(n, track) && Quiet(env, n, inputs)
    requires TicksLeft(n) > 0 || n.safeMode
    ensures var m := Run(env, n, inputs);
            if |inputs| < TicksLeft(n)
            then Leader(m.scores) == Leader(n.scores) && Leader(m.scores).Some?
            else Leader(m.scores).None? && m.safeMode && Stopped(m.motor)
    decreases |inputs|
  {
    LeaderHasTicks(n, track);
    if inputs != [] {
      hide Tick, HeartbeatOf;
      var m := Tick(env, n, inputs[0]);
      QuietTick(env, n, inputs[0], track);
      NodeStep(env, n, inputs[0], track);
      DeadMan(env, m, inputs[1..], TrackAfter(env, n, inputs[0], track));
    }
  }

  /** So a hundred silent ticks always end a lead and stop the motor. */
  lemma HundredSilentTicks<S>(env: Env<S>, n: Node<S>, inputs: seq<Input>, track: Track)
    requires NodeOk(n, track) && Leader(n.scores).Some? && Quiet(env, n, inputs) && |inputs| >= 100
    ensures var m := Run(env, n, inputs); Leader(m.scores).None? && m.safeMode && Stopped(m.motor)
  {
    LeaderHasTicks(n, track);
    DeadMan(env, n, inputs, track);
  }

  // ---------- errors stop the motor ----------

  ghost predicate Reports(msgs: seq<Message>) {
    exists m | m in msgs :: m.opcode == Exception
  }

  lemma ReportsConcat(a: seq<Message>, b: seq<Message>)
    ensures Reports(a + b) <==> Reports(a) || Reports(b)
  {
    forall m | m in a || m in b
      ensures m in a + b
    {}
  }

  lemma {:induction false} StdRunsOnlyGossip(bytecode: Bytes, k: nat, fuel: nat, sense: Sense, ctx: Option<Context>)
    ensures !Reports(ExecStd(bytecode, k, fuel, sense, ctx).sent)
    decreases |bytecode| - 8 * k
  {
    hide InstrResult;
    StdUnfolds(bytecode, k, fuel, sense, ctx);
    if 8 * k + 8 <= |bytecode| && fuel > 0 {
      StepsOnlyGossip(bytecode, k, sense, ctx);
      StdRunsOnlyGossip(bytecode, k + 1, fuel - 1, sense, ctx);
      ReportsConcat(InstrResult(bytecode, k, sense, ctx).sent, ExecStd(bytecode, k + 1, fuel - 1, sense, ctx).sent);
    }
  }

  lemma StepsOnlyGossip(bytecode: Bytes, k: nat, sense: Sense, ctx: Option<Context>)
    requires 8 * k + 8 <= |bytecode|
    ensures !Reports(InstrResult(bytecode, k, sense, ctx).sent)
  {
    hide DecodeAt;
  }

  predicate StdTraps<S>(n: Node<S>, payload: Bytes, inp: Input) {
    ExecStd(payload, 0, NODE_FUEL, inp.sense, Some(ContextOf(n, inp))).error.Some?
  }

  predicate ScriptTraps<S>(env: Env<S>, n: Node<S>, payload: Bytes, inp: Input) {
    var o := Exec(env.viewer(payload), 0, NODE_FUEL, inp.pins);
    o.error.Some? && (o.error.value == BufferOverflow ==> StdTraps(n, payload, inp))
  }

  /** A program is dispatched this tick and ends in an error; a script without a step is tried as bytecode first. */
  predicate ProgramTraps<S>(env: Env<S>, n: Node<S>, inp: Input) {
    var aged := Age(env, n, inp.now);
    match Accepted(env, n, inp)
    case Some(msg) =>
      MessageTraps(env, aged, msg, inp)
    case None => false
  }

  lemma ProgramReports<S>(env: Env<S>, n: Node<S>, payload: Bytes, inp: Input)
    ensures var m := RunStdOn(n, payload, inp);
            && n.sent <= m.sent
            && (Reports(m.sent[|n.sent|..]) <==> StdTraps(n, payload, inp))
            && (StdTraps(n, payload, inp) ==> Stopped(m.motor))
    ensures var m := RunScriptOn(env, n, payload, inp);
            && n.sent <= m.sent
            && (Reports(m.sent[|n.sent|..]) <==> ScriptTraps(env, n, payload, inp))
            && (ScriptTraps(env, n, payload, inp) ==> Stopped(m.motor))
  {
    hide ExecStd, Exec;
    var o := ExecStd(payload, 0, NODE_FUEL, inp.sense, Some(ContextOf(n, inp)));
    StdRunsOnlyGossip(payload, 0, NODE_FUEL, inp.sense, Some(ContextOf(n, inp)));
    StdReports(n, payload, inp);
    var e := Exec(env.viewer(payload), 0, NODE_FUEL, inp.pins);
    if e.error == Some(BufferOverflow) {
      StdReports(n.(motor := n.motor + e.speeds), payload, inp);
    } else if e.error.Some? {
      var m := RunScriptOn(env, n, payload, inp);
      assert m.sent[|n.sent|..] == [Message(Exception, ScriptErrorReport(e.error.value))];
      assert m.sent[|n.sent|..][0].opcode == Exception;
    }
  }

  lemma StdReports<S>(n: Node<S>, payload: Bytes, inp: Input)
    ensures var m := RunStdOn(n, payload, inp);
            && n.sent <= m.sent
            && (Reports(m.sent[|n.sent|..]) <==> StdTraps(n, payload, inp))
            && (StdTraps(n, payload, inp) ==> Stopped(m.motor))
  {
    hide ExecStd;
    var o := ExecStd(payload, 0, NODE_FUEL, inp.sense, Some(ContextOf(n, inp)));
    var m := RunStdOn(n, payload, inp);
    StdRunsOnlyGossip(payload, 0, NODE_FUEL, inp.sense, Some(ContextOf(n, inp)));
    match o.error
    case None => assert m.sent[|n.sent|..] == o.sent;
    case Some(e) =>
      assert m.sent[|n.sent|..] == o.sent + [Message(Exception, StdErrorReport(e))];
      assert m.sent[|n.sent|..][|o.sent|].opcode == Exception;
  }

  /** The messages that `m` has sent since `n`. */
  function Since<S>(n: Node<S>, m: Node<S>): seq<Message>
    requires n.sent <= m.sent
  {
    m.sent[|n.sent|..]
  }

  predicate MessageTraps<S>(env: Env<S>, n: Node<S>, msg: Incoming, inp: Input) {
    && !n.safeMode
    && ((msg.opcode == VmScriptDispatch && ScriptTraps(env, n, msg.payload, inp))
        || (msg.opcode == StdBytecodeDispatch && StdTraps(n, msg.payload, inp)))
  }

  lemma DispatchReports<S>(env: Env<S>, n: Node<S>, msg: Incoming, inp: Input)
    ensures var m := Settle(Dispatch(env, n, msg, inp));
            && n.sent <= m.sent
            && (Reports(Since(n, m)) <==> MessageTraps(env, n, msg, inp))
            && (MessageTraps(env, n, msg, inp) ==> Stopped(m.motor))
  {
    hide RunStdOn, RunScriptOn, StdTraps, ScriptTraps, Leader, Update, Heard, Record;
    ProgramReports(env, n, msg.payload, inp);
    assert n.sent[|n.sent|..] == [];
  }

  /**
   * A tick broadcasts an exception exactly when the program it dispatched trapped, and then it ends with the motor
   * stopped.
   */
  lemma ExceptionIffTrap<S>(env: Env<S>, n: Node<S>, inp: Input)
    ensures var m := Tick(env, n, inp);
            && n.sent <= m.sent
            && (Reports(Since(n, m)) <==> ProgramTraps(env, n, inp))
            && (ProgramTraps(env, n, inp) ==> Stopped(m.motor))
  {
    hide Dispatch, Leader, Decay, Pruned, Record, StdTraps, ScriptTraps;
    var aged := Age(env, n, inp.now);
    assert n.sent[|n.sent|..] == [];
    match Accepted(env, n, inp)
    case Some(msg) =>
      var known := Remember(aged, msg);
      SameTraps(env, aged, known, msg.payload, inp);
      DispatchReports(env, known, msg, inp);
    case None =>
  }

  lemma SameTraps<S>(env: Env<S>, a: Node<S>, b: Node<S>, payload: Bytes, inp: Input)
    requires a.id == b.id && a.gossip == b.gossip
    ensures StdTraps(a, payload, inp) <==> StdTraps(b, payload, inp)
    ensures ScriptTraps(env, a, payload, inp) <==> ScriptTraps(env, b, payload, inp)
  {}

  // ---------- the log ----------

  /** The commands one tick logs. */
  function TickCommands<S>(env: Env<S>, n: Node<S>, inp: Input): seq<Command> {
    (if FallsSafe(env, n, inp) then [JuryCommand(HEARTBEAT_LOST)] else []) +
    (if CatchesDoubleSign(env, n, inp) then [JuryCommand(DOUBLE_SIGN)] else []) +
    TickDelta(env, n, inp)
  }

  /** The delta one tick applies, as a command. */
  function TickDelta<S>(env: Env<S>, n: Node<S>, inp: Input): seq<Command> {
    match Accepted(env, n, inp)
    case Some(msg) =>
      if msg.opcode == StateUpdate && !Age(env, n, inp.now).safeMode && msg.payload != []
      then [DeltaCommand(msg.payload[0])] else []
    case None => []
  }

  /** The node's log is the commands logged so far, and its state is their replay. */
  ghost predicate LogOk<S>(env: Env<S>, n: Node<S>, initial: S, cmds: seq<Command>) {
    && n.wal == Some(Log(env.codec, cmds))
    && n.state == Replay(env.apply, initial, DeltasOf(cmds))
  }

  lemma {:induction false} LogSnoc(codec: CommandCodec, cmds: seq<Command>, c: Command)
    ensures Log(codec, cmds + [c]) == Log(codec, cmds) + Record(codec, c)
  {
    hide Record;
    if cmds == [] {
      assert (cmds + [c])[1..] == [];
    } else {
      assert (cmds + [c])[1..] == cmds[1..] + [c];
      LogSnoc(codec, cmds[1..], c);
    }
  }

  lemma AppendKeeps<S>(env: Env<S>, initial: S, cmds: seq<Command>, c: Command)
    ensures Appended(env.codec, Some(Log(env.codec, cmds)), c) == Some(Log(env.codec, cmds + [c]))
    ensures Replay(env.apply, initial, DeltasOf(cmds + [c]))
         == Replay(env.apply, Replay(env.apply, initial, DeltasOf(cmds)), DeltaOf(Some(c)))
  {
    hide Record;
    LogSnoc(env.codec, cmds, c);
    DeltasOfConcat(cmds, [c]);
    assert DeltasOf([c]) == DeltaOf(Some(c)) by {
      assert [c][1..] == [];
    }
    ReplayConcat(env.apply, initial, DeltasOf(cmds), DeltaOf(Some(c)));
  }

  /** At most one command is logged in a tick, and none of them is a delta while the node is in safe mode. */
  lemma OneCommandPerTick<S>(env: Env<S>, n: Node<S>, inp: Input)
    ensures |TickCommands(env, n, inp)| <= 1
    ensures forall c | c in TickCommands(env, n, inp) :: c.Insert?
    ensures n.safeMode || Tick(env, n, inp).safeMode ==> TickDelta(env, n, inp) == []
    ensures n.safeMode || Tick(env, n, inp).safeMode ==> Tick(env, n, inp).state == n.state
  {
    hide RunStdOn, RunScriptOn, Update, Leader, Heard, ParseAssertion, Decay, Pruned, Appended;
    match Accepted(env, n, inp)
    case Some(msg) => ProgramsOnlyDrive(env, Remember(Age(env, n, inp.now), msg), msg.payload, inp);
    case None =>
  }

  /** The effect of logging at most one command, and of applying its delta. */
  ghost predicate Effect<S>(env: Env<S>, n: Node<S>, m: Node<S>, cmds: seq<Command>) {
    if cmds == [] then m.wal == n.wal && m.state == n.state
    else
      && m.wal == Appended(env.codec, n.wal, cmds[0])
      && m.state == match cmds[0]
                    case Insert(_, _, Some(d)) => env.apply(n.state, d % 256)
                    case _ => n.state
  }

  lemma DispatchEffect<S>(env: Env<S>, n: Node<S>, msg: Incoming, inp: Input)
    ensures Effect(env, n, Settle(Dispatch(env, n, msg, inp)),
                   if msg.opcode == StateUpdate && !n.safeMode && msg.payload != [] then [DeltaCommand(msg.payload[0])] else [])
  {
    hide Exec, ExecStd, Update, Leader, Heard, Appended;
  }

  lemma TickEffects<S>(env: Env<S>, n: Node<S>, inp: Input)
    ensures Effect(env, n, Tick(env, n, inp), TickCommands(env, n, inp))
  {
    hide Dispatch, Leader, Decay, Pruned, Appended;
    OneCommandPerTick(env, n, inp);
    var aged := Age(env, n, inp.now);
    match Accepted(env, n, inp)
    case Some(msg) => DispatchEffect(env, Remember(aged, msg), msg, inp);
    case None =>
  }

  lemma LogStep<S>(env: Env<S>, n: Node<S>, inp: Input, initial: S, cmds: seq<Command>)
    requires LogOk(env, n, initial, cmds)
    ensures LogOk(env, Tick(env, n, inp), initial, cmds + TickCommands(env, n, inp))
  {
    hide Tick, TickCommands, Log, Record;
    TickEffects(env, n, inp);
    OneCommandPerTick(env, n, inp);
    var logged := TickCommands(env, n, inp);
    if logged == [] {
      assert cmds + logged == cmds;
    } else {
      assert logged == [logged[0]];
      AppendKeeps(env, initial, cmds, logged[0]);
      OneReplay(env.apply, n.state, logged[0]);
    }
  }

  lemma OneReplay<S>(apply: (S, byte) -> S, s: S, c: Command)
    ensures Replay(apply, s, DeltaOf(Some(c))) ==
            if c.Insert? && c.delta.Some? then apply(s, c.delta.value % 256) else s
  {
    if c.Insert? && c.delta.Some? {
      assert [c.delta.value % 256][1..] == [];
    }
  }

  function RunCommands<S>(env: Env<S>, n: Node<S>, inputs: seq<Input>): seq<Command>
    decreases |inputs|
  {
    if inputs == [] then [] else TickCommands(env, n, inputs[0]) + RunCommands(env, Tick(env, n, inputs[0]), inputs[1..])
  }

  lemma {:induction false} LogRun<S>(env: Env<S>, n: Node<S>, inputs: seq<Input>, initial: S, cmds: seq<Command>)
    requires LogOk(env, n, initial, cmds)
    ensures LogOk(env, Run(env, n, inputs), initial, cmds + RunCommands(env, n, inputs))
    decreases |inputs|
  {
    hide Tick, TickCommands, LogOk;
    if inputs == [] {
      assert cmds + [] == cmds;
    } else {
      var logged := TickCommands(env, n, inputs[0]);
      var rest := RunCommands(env, Tick(env, n, inputs[0]), inputs[1..]);
      LogStep(env, n, inputs[0], initial, cmds);
      LogRun(env, Tick(env, n, inputs[0]), inputs[1..], initial, cmds + logged);
      assert cmds + logged + rest == cmds + (logged + rest);
    }
  }

  /** A node writes nothing but deltas and its two conflict reports. */
  lemma {:induction false} RunWrites<S>(env: Env<S>, n: Node<S>, inputs: seq<Input>)
    ensures forall c | c in RunCommands(env, n, inputs) :: Written(c)
    decreases |inputs|
  {
    hide Tick, Accepted, FallsSafe, CatchesDoubleSign;
    if inputs != [] {
      RunWrites(env, Tick(env, n, inputs[0]), inputs[1..]);
    }
  }

  /** So behind a log that reads back, the log of any run does. */
  lemma RunReadsBack<S>(env: Env<S>, n: Node<S>, inputs: seq<Input>, cmds: seq<Command>)
    requires ReadsWritten(env.codec) && Faithful(env.codec, cmds)
    ensures Faithful(env.codec, cmds + RunCommands(env, n, inputs))
  {
    hide RunCommands, Written, Reads;
    RunWrites(env, n, inputs);
  }

  /**
   * Crash-safe replay: start a node whose state is the replay of its log, let it run, and cut its log at any byte.
   * Recovery from the initial state applies exactly the deltas whose records survived whole; uncut, it gives the state.
   */
  lemma CrashSafe<S>(env: Env<S>, n: Node<S>, inputs: seq<Input>, initial: S, cmds: seq<Command>, part: Bytes)
    requires ReadsWritten(env.codec) && Faithful(env.codec, cmds) && LogOk(env, n, initial, cmds)
    ensures var m := Run(env, n, inputs); var all := cmds + RunCommands(env, n, inputs);
            && m.wal == Some(Log(env.codec, all))
            && (part <= m.wal.value ==> Recovered(env.codec, part) == DeltasOf(all[..Survivors(env.codec, all, |part|)]))
            && Replay(env.apply, initial, Recovered(env.codec, m.wal.value)) == m.state
  {
    hide Recovered, Log, Run, RunCommands, Survivors, ReadsWritten, Faithful;
    LogRun(env, n, inputs, initial, cmds);
    RunReadsBack(env, n, inputs, cmds);
    var all := cmds + RunCommands(env, n, inputs);
    if part <= Log(env.codec, all) {
      CutRecovers(env.codec, all, part);
    }
    WholeIsRecovered(env.codec, all);
  }

  /** How many ticks it takes to log the first `k` commands of a run. */
  function TicksFor<S>(env: Env<S>, n: Node<S>, inputs: seq<Input>, k: nat): (j: nat)
    ensures j <= |inputs|
    decreases |inputs|
  {
    if inputs == [] || k < |TickCommands(env, n, inputs[0])| || k == 0 then 0
    else 1 + TicksFor(env, Tick(env, n, inputs[0]), inputs[1..], k - |TickCommands(env, n, inputs[0])|)
  }

  lemma {:induction false} FirstCommands<S>(env: Env<S>, n: Node<S>, inputs: seq<Input>, k: nat)
    requires k <= |RunCommands(env, n, inputs)|
    ensures RunCommands(env, n, inputs[..TicksFor(env, n, inputs, k)]) == RunCommands(env, n, inputs)[..k]
    decreases |inputs|
  {
    hide Tick, TickCommands;
    if inputs != [] && k > 0 {
      OneCommandPerTick(env, n, inputs[0]);
      var m, logged := Tick(env, n, inputs[0]), TickCommands(env, n, inputs[0]);
      var j := TicksFor(env, m, inputs[1..], k - |logged|);
      FirstCommands(env, m, inputs[1..], k - |logged|);
      assert inputs[..1 + j][0] == inputs[0] && inputs[..1 + j][1..] == inputs[1..][..j];
    }
  }

  /** The log of an earlier state survives, and what survives recovers that state. */
  ghost predicate Recalls<S>(env: Env<S>, past: Node<S>, initial: S, part: Bytes) {
    && past.wal.Some? && past.wal.value <= part
    && Replay(env.apply, initial, Recovered(env.codec, part)) == past.state
  }

  /** A log cut short recovers a state that the node had: the one it was in when all that survives had been written. */
  lemma CrashGoesBack<S>(env: Env<S>, n: Node<S>, inputs: seq<Input>, initial: S, cmds: seq<Command>, part: Bytes)
    requires ReadsWritten(env.codec) && Faithful(env.codec, cmds) && LogOk(env, n, initial, cmds)
    requires var m := Run(env, n, inputs); m.wal.Some? && part <= m.wal.value
    requires |part| >= |n.wal.value|
    ensures exists j | 0 <= j <= |inputs| :: Recalls(env, Run(env, n, inputs[..j]), initial, part)
  {
    hide Run, RunCommands, Log, Recovered, Survivors, TicksFor, DeltasOf, ReadsWritten, Faithful, LogOk, Replay;
    var more := RunCommands(env, n, inputs);
    InStep(env, n, initial, cmds);
    CrashSafe(env, n, inputs, initial, cmds, part);
    SurvivorsReach(env.codec, cmds, more, |part|);
    SurvivorsAreWhole(env.codec, cmds + more, part);
    var k := Survivors(env.codec, cmds + more, |part|) - |cmds|;
    PastState(env, n, inputs, initial, cmds, k);
    assert cmds + more[..k] == (cmds + more)[..|cmds| + k];
    var j := TicksFor(env, n, inputs, k);
    assert Recalls(env, Run(env, n, inputs[..j]), initial, part);
  }

  lemma PastState<S>(env: Env<S>, n: Node<S>, inputs: seq<Input>, initial: S, cmds: seq<Command>, k: nat)
    requires LogOk(env, n, initial, cmds) && k <= |RunCommands(env, n, inputs)|
    ensures var past, logged := Run(env, n, inputs[..TicksFor(env, n, inputs, k)]), cmds + RunCommands(env, n, inputs)[..k];
            past.wal == Some(Log(env.codec, logged)) && past.state == Replay(env.apply, initial, DeltasOf(logged))
  {
    hide Run, RunCommands, Log, TicksFor, DeltasOf, LogOk, Replay;
    var j := TicksFor(env, n, inputs, k);
    FirstCommands(env, n, inputs, k);
    LogRun(env, n, inputs[..j], initial, cmds);
    InStep(env, Run(env, n, inputs[..j]), initial, cmds + RunCommands(env, n, inputs)[..k]);
  }

  lemma InStep<S>(env: Env<S>, n: Node<S>, initial: S, cmds: seq<Command>)
    requires LogOk(env, n, initial, cmds)
    ensures n.wal == Some(Log(env.codec, cmds)) && n.state == Replay(env.apply, initial, DeltasOf(cmds))
  {}


  /** From a new node on an empty log: any run, cut at any byte, recovers a state that the node had. */
  lemma CrashSafeFromNew<S>(env: Env<S>, id: Mac, size: nat, initial: S, motor: seq<byte>, inputs: seq<Input>, part: Bytes)
    requires ReadsWritten(env.codec)
    ensures var start := New(id, size, initial, Some([]), motor, []);
            var m := Run(env, start, inputs);
            && m.wal == Some(Log(env.codec, RunCommands(env, start, inputs)))
            && Replay(env.apply, initial, Recovered(env.codec, m.wal.value)) == m.state
            && (part <= m.wal.value ==>
                  exists j | 0 <= j <= |inputs| :: Recalls(env, Run(env, start, inputs[..j]), initial, part))
  {
    hide Run, RunCommands, Recovered;
    var start := New(id, size, initial, Some([]), motor, []);
    assert [] + RunCommands(env, start, inputs) == RunCommands(env, start, inputs);
    CrashSafe(env, start, inputs, initial, [], part);
    if part <= Run(env, start, inputs).wal.value {
      CrashGoesBack(env, start, inputs, initial, [], part);
    }
  }

  /**
   * A crash within a tick lands just before or just after its update: the new record is either whole or recovers
   * nothing.
   */
  lemma CrashWithinTick<S>(env: Env<S>, n: Node<S>, inp: Input, initial: S, cmds: seq<Command>, part: Bytes)
    requires ReadsWritten(env.codec) && Faithful(env.codec, cmds) && LogOk(env, n, initial, cmds)
    ensures var m := Tick(env, n, inp);
            && m.wal.Some?
            && (n.wal.value <= part <= m.wal.value ==>
                  Replay(env.apply, initial, Recovered(env.codec, part)) == if part == m.wal.value then m.state else n.state)
  {
    hide Tick, TickCommands, Recovered, Log;
    var m := Tick(env, n, inp);
    assert RunCommands(env, n, [inp]) == TickCommands(env, n, inp) && Run(env, n, [inp]) == m by {
      assert [inp][1..] == [];
    }
    CrashSafe(env, n, [inp], initial, cmds, part);
    assert [inp][..0] == [] && [inp][..1] == [inp];
    if n.wal.value <= part <= m.wal.value {
      CrashGoesBack(env, n, [inp], initial, cmds, part);
    }
  }

  /**
   * A node built on an empty log, and one rebuilt by recovery from a whole log, both start out in step with their
   * log.
   */
  lemma RestartIsInStep<S>(env: Env<S>, id: Mac, size: nat, initial: S, cmds: seq<Command>, motor: seq<byte>)
    requires Faithful(env.codec, cmds)
    ensures LogOk(env, New(id, size, initial, Some([]), motor, []), initial, [])
    ensures var log := Log(env.codec, cmds);
            var state := Replay(env.apply, initial, Recovered(env.codec, log));
            LogOk(env, New(id, size, state, Some(log), motor, []), initial, cmds)
  {
    hide Recovered, Faithful;
    WholeIsRecovered(env.codec, cmds);
  }

  // ---------- the cache ----------

  /** The unbounded observer's ledger after a tick. */
  function LedgerAfter<S>(env: Env<S>, n: Node<S>, inp: Input, ledger: Ledger): Ledger {
    match AssertionOf(env, n, inp)
    case Some(a) => Observe(ledger, Pruned(n.gossip, inp.now), a)
    case None => ledger
  }

  function RunLedger<S>(env: Env<S>, n: Node<S>, inputs: seq<Input>, ledger: Ledger): Ledger
    decreases |inputs|
  {
    if inputs == [] then ledger
    else RunLedger(env, Tick(env, n, inputs[0]), inputs[1..], LedgerAfter(env, n, inputs[0], ledger))
  }

  /** The clock readings do not go back. */
  predicate Monotone(since: nat, inputs: seq<Input>)
    decreases |inputs|
  {
    inputs == [] || (since <= inputs[0].now && Monotone(inputs[0].now, inputs[1..]))
  }

  function LastClock(since: nat, inputs: seq<Input>): nat {
    if inputs == [] then since else inputs[|inputs| - 1].now
  }

  lemma CacheStep<S>(env: Env<S>, n: Node<S>, inp: Input, ledger: Ledger, since: nat)
    requires Refines(n.gossip, ledger, since) && since <= inp.now
    ensures Refines(Tick(env, n, inp).gossip, LedgerAfter(env, n, inp, ledger), inp.now)
  {
    hide Tick, Refines, Pruned, Heard;
    TickGossip(env, n, inp);
    PruneRefines(n.gossip, ledger, since, inp.now);
    match AssertionOf(env, n, inp)
    case Some(a) => HeardRefines(Pruned(n.gossip, inp.now), ledger, inp.now, a);
    case None =>
  }

  /**
   * Under a clock that does not go back, the cache stays the last frame of each sender, less the expired and those
   * without room.
   */
  lemma {:induction false} CacheRun<S>(env: Env<S>, n: Node<S>, inputs: seq<Input>, ledger: Ledger, since: nat)
    requires Refines(n.gossip, ledger, since) && Monotone(since, inputs)
    ensures Refines(Run(env, n, inputs).gossip, RunLedger(env, n, inputs, ledger), LastClock(since, inputs))
    decreases |inputs|
  {
    hide Tick, Refines, LedgerAfter;
    if inputs != [] {
      CacheStep(env, n, inputs[0], ledger, since);
      CacheRun(env, Tick(env, n, inputs[0]), inputs[1..], LedgerAfter(env, n, inputs[0], ledger), inputs[0].now);
      assert LastClock(since, inputs) == LastClock(inputs[0].now, inputs[1..]);
    }
  }

  /** From a new node: the next pruning leaves exactly the live last frames that were not turned away. */
  lemma CacheLaw<S>(env: Env<S>, id: Mac, size: nat, initial: S, wal: Option<Bytes>, motor: seq<byte>, sent: seq<Message>,
                    inputs: seq<Input>, now: U64)
    requires Monotone(0, inputs) && LastClock(0, inputs) <= now
    ensures var start := New(id, size, initial, wal, motor, sent);
            var ledger := RunLedger(env, start, inputs, Ledger(map[], {}));
            var cache := Pruned(Run(env, start, inputs).gossip, now);
            && Distinct(cache)
            && forall a ::
                 a in cache <==> a.mac in ledger.last && ledger.last[a.mac] == a && Live(a, now) && a.mac !in ledger.lost
  {
    hide Run, RunLedger;
    var start := New(id, size, initial, wal, motor, sent);
    var ledger := RunLedger(env, start, inputs, Ledger(map[], {}));
    CacheRun(env, start, inputs, Ledger(map[], {}), 0);
    PruneRefines(Run(env, start, inputs).gossip, ledger, LastClock(0, inputs), now);
    forall a
      ensures a in Pruned(Run(env, start, inputs).gossip, now) ==> Live(a, now)
    {
      PrunedMembers(Run(env, start, inputs).gossip, now, a);
    }
  }

  // ---------- consensus ----------

  /** What the programs of a tick see of the node: its cache as just pruned. */
  function ContextIn<S>(env: Env<S>, n: Node<S>, inp: Input): Context {
    Context(n.id, Pruned(n.gossip, inp.now), inp.execNow)
  }

  lemma ProgramsSee<S>(env: Env<S>, n: Node<S>, inp: Input)
    ensures match Accepted(env, n, inp)
            case Some(msg) => ContextOf(Remember(Age(env, n, inp.now), msg), inp) == ContextIn(env, n, inp)
            case None => true
  {
    hide Leader, Decay, Pruned, Appended;
  }

  lemma {:induction false} RunKeepsId<S>(env: Env<S>, n: Node<S>, inputs: seq<Input>)
    ensures Run(env, n, inputs).id == n.id
    decreases |inputs|
  {
    hide Tick;
    if inputs != [] {
      TickKeepsId(env, n, inputs[0]);
      RunKeepsId(env, Tick(env, n, inputs[0]), inputs[1..]);
    }
  }

  lemma TickKeepsId<S>(env: Env<S>, n: Node<S>, inp: Input)
    ensures Tick(env, n, inp).id == n.id
  {
    hide Dispatch, Settle, Leader, Decay, Pruned, Appended;
    match Accepted(env, n, inp)
    case Some(msg) => DispatchFields(env, Remember(Age(env, n, inp.now), msg), msg, inp);
    case None => SettleFields(Age(env, n, inp.now));
  }

  /** Those whose last frame confirms the hazard of instruction `ins`, less those whose last frame was turned away. */
  function Supporters(ins: Instr, ledger: Ledger, me: Mac, now: nat): set<Mac> {
    LedgerConfirming(ledger, me, now, Byte2(ins.b) * 1000, LowHalf(ins.b)) - ledger.lost
  }

  /**
   * After any run of a new node under a clock that does not go back, the assertion 0x87 decides on all the frames ever heard:
   * it raises its hazard exactly when local energy exceeds the threshold and the last frames of at least `K` others confirm,
   * of those that found room. Neither the expiry of the cache nor the list of 8 costs it one.
   */
  lemma ConsensusOverRun<S>(env: Env<S>, id: Mac, size: nat, initial: S, wal: Option<Bytes>, motor: seq<byte>,
                            sent: seq<Message>, inputs: seq<Input>, inp: Input, ins: Instr, s: Sensing)
    requires Monotone(0, inputs) && LastClock(0, inputs) <= inp.now <= inp.execNow
    requires ins.opcode == 0x87
    ensures var start := New(id, size, initial, wal, motor, sent);
            var ledger := RunLedger(env, start, inputs, Ledger(map[], {}));
            StepSpec(ins, s, Some(ContextIn(env, Run(env, start, inputs), inp))).error == Some(MultiBandSpectrumHazard)
            <==> LocalHazard(s) > ins.a && |Supporters(ins, ledger, id, inp.execNow)| >= Byte3(ins.b)
  {
    hide Run, RunLedger, Pruned, Refines, StepSpec, Byte2, Byte3, LowHalf, LedgerConfirming, Confirming, LocalHazard;
    var start := New(id, size, initial, wal, motor, sent);
    var ledger := RunLedger(env, start, inputs, Ledger(map[], {}));
    var n := Run(env, start, inputs);
    NewRefines(id, size, initial, wal, motor, sent);
    CacheRun(env, start, inputs, Ledger(map[], {}), 0);
    PruneRefines(n.gossip, ledger, LastClock(0, inputs), inp.now);
    RunKeepsId(env, start, inputs);
    var ctx := ContextIn(env, n, inp);
    CacheConfirms(ctx.recent, ledger, inp.now, id, inp.execNow, Byte2(ins.b) * 1000, LowHalf(ins.b));
    CacheFits(ctx.recent, ledger, inp.now);
    DecidesByCount(ins, s, ctx);
  }

  lemma NewRefines<S>(id: Mac, size: nat, initial: S, wal: Option<Bytes>, motor: seq<byte>, sent: seq<Message>)
    ensures Refines(New(id, size, initial, wal, motor, sent).gossip, Ledger(map[], {}), 0)
  {}

  lemma CacheFits(cache: Cache, ledger: Ledger, since: nat)
    requires Refines(cache, ledger, since)
    ensures |cache| <= CAPACITY
  {}

  lemma DecidesByCount(ins: Instr, s: Sensing, ctx: Context)
    requires ins.opcode == 0x87 && |ctx.recent| <= CAPACITY
    ensures StepSpec(ins, s, Some(ctx)).error == Some(MultiBandSpectrumHazard)
            <==> LocalHazard(s) > ins.a
                 && |Confirming(ctx, Byte2(ins.b) * 1000, LowHalf(ins.b), |ctx.recent|)| >= Byte3(ins.b)
  {
    hide Confirming, StepSpec;
    ConsensusIff(ins, s, ctx);
  }

  // ---------- without a clock ----------

  /** A build without the clock reads 0 whenever it asks for the time. */
  predicate Clockless(inputs: seq<Input>) {
    forall i | 0 <= i < |inputs| :: inputs[i].now == inputs[i].execNow == 0
  }

  /** There nothing expires: once a node has heard eight neighbours, no run of it ever hears another. */
  lemma {:induction false} ClocklessCacheIsClosed<S>(env: Env<S>, n: Node<S>, inputs: seq<Input>)
    requires Clockless(inputs) && |n.gossip| == 8
    ensures Senders(Run(env, n, inputs).gossip) == Senders(n.gossip)
    decreases |inputs|
  {
    hide Tick, Pruned, Heard, AssertionOf;
    if inputs != [] {
      var m := Tick(env, n, inputs[0]);
      TickGossip(env, n, inputs[0]);
      NothingExpires(n.gossip);
      match AssertionOf(env, n, inputs[0]) {
        case Some(a) => FullCacheIsClosed(n.gossip, a);
        case None =>
      }
      assert |m.gossip| == |Senders(m.gossip)|;
      ClocklessCacheIsClosed(env, m, inputs[1..]);
    }
  }

  /** And 0x87 counts frames of any age: its window makes no difference. */
  lemma ClocklessWindowIsDead(ledger: Ledger, me: Mac, ins: Instr, other: Instr)
    requires LowHalf(ins.b) == LowHalf(other.b)
    ensures Supporters(ins, ledger, me, 0) == Supporters(other, ledger, me, 0)
  {}

  // ---------- verified programs on the node ----------

  const FRAME_CAPACITY := 256

  lemma {:induction false} EstimateFits(bytecode: Bytes, k: nat)
    requires 8 * k <= |bytecode|
    ensures EstimatedTotal(bytecode, k) <= 255 * k
  {
    hide DecodeAt;
    if k > 0 {
      EstimateFits(bytecode, k - 1);
    }
  }

  /** The instruction is a clock opcode whose wait timed out. */
  predicate TimedOut(bytecode: Bytes, k: nat, sense: Sense) {
    && 8 * k + 8 <= |bytecode|
    && var ins := DecodeAt(bytecode, k);
       ins.opcode in {0x86, 0x8B} && sense(k, ins.pin).clock.Late?
  }

  lemma VerifiedRun(payload: Bytes, sense: Sense, ctx: Option<Context>, limit: U32)
    requires |payload| <= FRAME_CAPACITY && Safe(payload, limit)
    ensures var o := ExecStd(payload, 0, NODE_FUEL, sense, ctx);
            && o.error != Some(UnauthorizedAccess)
            && (o.error == Some(OutOfFuel) ==> TimedOut(payload, o.stop, sense))
            && Total(o.speeds) <= limit
  {
    hide ExecStd, DecodeAt, EstimatedTotal, EstimatedPeak, InBounds, AllAtMost, Total;
    EstimateFits(payload, |payload| / 8);
    CurrentIsBounded(payload, limit, NODE_FUEL, sense, ctx);
    VerifiedRunsAuthorized(payload, limit, NODE_FUEL, sense, ctx);
    InstructionCountSuffices(payload, 0, NODE_FUEL, sense, ctx);
  }

  /**
   * Frames hold at most 256 bytes, so on the node a safe verdict is unconditional: the sum cannot have wrapped, the fuel
   * suffices, the run is never refused for access, and its speeds total at most the limit.
   */
  lemma VerifiedBytecodeOnNode<S>(n: Node<S>, payload: Bytes, inp: Input, limit: U32)
    requires |payload| <= FRAME_CAPACITY && Safe(payload, limit)
    ensures var o := ExecStd(payload, 0, NODE_FUEL, inp.sense, Some(ContextOf(n, inp)));
            var m := RunStdOn(n, payload, inp);
            && o.error != Some(UnauthorizedAccess)
            && (o.error == Some(OutOfFuel) ==> TimedOut(payload, o.stop, inp.sense))
            && n.motor <= m.motor && Total(m.motor[|n.motor|..]) <= limit
  {
    hide ExecStd, DecodeAt, Safe, RunStdOn;
    var ctx := Some(ContextOf(n, inp));
    var o := ExecStd(payload, 0, NODE_FUEL, inp.sense, ctx);
    var m := RunStdOn(n, payload, inp);
    VerifiedRun(payload, inp.sense, ctx, limit);
    StdCommands(n, payload, inp);
    var stop: seq<byte> := if o.error.Some? then [0] else [];
    assert m.motor[|n.motor|..] == o.speeds + stop;
    TotalConcat(o.speeds, stop);
    StopIsFree();
  }

  lemma StdCommands<S>(n: Node<S>, payload: Bytes, inp: Input)
    ensures var o := ExecStd(payload, 0, NODE_FUEL, inp.sense, Some(ContextOf(n, inp)));
            RunStdOn(n, payload, inp).motor == n.motor + (o.speeds + if o.error.Some? then [0] else [])
  {
    hide ExecStd;
  }

  lemma StopIsFree()
    ensures Total([0]) == 0 && Total([]) == 0
  {
    assert [0][1..] == [];
  }
}
