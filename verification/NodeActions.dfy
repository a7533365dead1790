/** One tick, message kind by message kind, with its numbers written out. */
module NodeActions {
  import opened Wrappers
  import opened Bytes
  import opened Protocol
  import opened VmTypes
  import opened Gossip
  import opened StdRun
  import opened Vm
  import opened Wal
  import opened Scores
  import opened NodeSpec
  import opened NodeRuns
  import opened SafeMode
  import opened NodeLaws

  // ---------- before the message ----------

  /** Every tick first lets the scores decay and the cache expire; if that ends the last lead, the node stops and says why. */
  lemma AgeLaw<S>(env: Env<S>, n: Node<S>, now: U64)
    ensures var expired := n.leaderActive && Leader(Decay(n.scores)).None?;
            Age(env, n, now) ==
            n.(scores := Decay(n.scores),
               gossip := Pruned(n.gossip, now),
               leaderActive := n.leaderActive && !expired,
               safeMode := n.safeMode || expired,
               motor := n.motor + if expired then [0] else [],
               wal := if expired && n.wal.Some?
                      then Some(n.wal.value + Record(env.codec, Insert(999, Some("heartbeat_decay"), None))) else n.wal)
  {
    hide Decay, Leader, Pruned, Record;
    assert n.motor + [] == n.motor;
  }

  /**
   * A message is acted on unless its sender is disqualified, or leads and sends another payload than the last remembered
   * under the same kind, of the three kinds that are remembered.
   */
  lemma AcceptedIff<S>(env: Env<S>, n: Node<S>, inp: Input, msg: Incoming)
    requires inp.msg == Some(msg)
    ensures Accepted(env, n, inp) in {None, Some(msg)}
    ensures Accepted(env, n, inp) == Some(msg) <==>
              n.disqualified != Some(msg.sender)
              && !(Leader(Decay(n.scores)) == Some(msg.sender)
                   && (msg.opcode == StateUpdate || msg.opcode == VmScriptDispatch || msg.opcode == TaskDispatch)
                   && n.lastLeaderMsg.Some?
                   && n.lastLeaderMsg.value.0 == msg.opcode && n.lastLeaderMsg.value.1 != msg.payload)
  {
    hide Decay, Leader, Pruned, Record;
  }

  /** Only those three kinds, from the leader, are remembered. */
  lemma RememberedIff<S>(env: Env<S>, n: Node<S>, inp: Input)
    ensures Tick(env, n, inp).lastLeaderMsg ==
            match Accepted(env, n, inp)
            case None => n.lastLeaderMsg
            case Some(msg) =>
              if Leader(Decay(n.scores)) == Some(msg.sender)
                 && (msg.opcode == StateUpdate || msg.opcode == VmScriptDispatch || msg.opcode == TaskDispatch)
              then Some((msg.opcode, msg.payload)) else n.lastLeaderMsg
  {
    hide Dispatch, Settle, Decay, Leader, Pruned, Appended;
    match Accepted(env, n, inp)
    case Some(msg) => DispatchFields(env, Remember(Age(env, n, inp.now), msg), msg, inp);
    case None => SettleFields(Age(env, n, inp.now));
  }

  // ---------- no action ----------

  /** Nothing more happens without a message, or with one of a disqualified sender; a contradiction is punished. */
  lemma InactionLaw<S>(env: Env<S>, n: Node<S>, inp: Input)
    requires Accepted(env, n, inp).None?
    ensures var aged, m := Age(env, n, inp.now), Tick(env, n, inp);
            if inp.msg.None? then m == aged.(leaderActive := aged.leaderActive || Leader(aged.scores).Some?)
            else if n.disqualified == Some(inp.msg.value.sender) then m == aged
            else m == aged.(disqualified := Some(inp.msg.value.sender), safeMode := true, motor := aged.motor + [0],
                            wal := if aged.wal.Some?
                                   then Some(aged.wal.value + Record(env.codec, Insert(999, Some("double_sign"), None)))
                                   else None)
  {
    hide Decay, Leader, Pruned, Record;
  }

  // ---------- actions ----------

  /** A task runs the motor at full speed, a state update applies and logs its first byte; neither in safe mode. */
  lemma ActionLaw<S>(env: Env<S>, n: Node<S>, inp: Input, msg: Incoming)
    requires Accepted(env, n, inp) == Some(msg)
    ensures var aged, m := Age(env, n, inp.now), Tick(env, n, inp);
            && (msg.opcode == TaskDispatch ==>
                  && m.motor == aged.motor + (if aged.safeMode then [] else [255])
                  && m.state == aged.state && m.wal == aged.wal && m.sent == aged.sent)
            && (msg.opcode == StateUpdate ==>
                  && m.motor == aged.motor && m.sent == aged.sent
                  && if aged.safeMode || msg.payload == [] then m.state == aged.state && m.wal == aged.wal
                     else
                       && m.state == env.apply(aged.state, msg.payload[0])
                       && m.wal == if aged.wal.Some?
                                   then Some(aged.wal.value + Record(env.codec, Insert(1, None, Some(msg.payload[0])))) else None)
            && (msg.opcode == Heartbeat || msg.opcode == SpatialGossip || msg.opcode == TaskAchieved
                || msg.opcode == TaskFailed || msg.opcode == Exception ==>
                  m.motor == aged.motor && m.state == aged.state && m.wal == aged.wal && m.sent == aged.sent)
  {
    hide RunStdOn, RunScriptOn, Update, Leader, Heard, ParseAssertion, Decay, Pruned, Record;
    assert Age(env, n, inp.now).motor + [] == Age(env, n, inp.now).motor;
  }

  /** Tables: an accepted heartbeat stores 100 for its sender, an accepted assertion goes to the cache; nothing else does. */
  lemma TableLaw<S>(env: Env<S>, n: Node<S>, inp: Input, msg: Incoming)
    requires Accepted(env, n, inp) == Some(msg)
    ensures var m := Tick(env, n, inp);
            && m.scores == (if msg.opcode == Heartbeat then Update(Decay(n.scores), msg.sender, 100) else Decay(n.scores))
            && m.gossip == (if msg.opcode == SpatialGossip && |msg.payload| >= 16
                            then Heard(Pruned(n.gossip, inp.now), ParseAssertion(msg.payload).value)
                            else Pruned(n.gossip, inp.now))
  {
    hide Tick, Update, Heard, Decay, Pruned;
    TickScores(env, n, inp);
    TickGossip(env, n, inp);
  }

  // ---------- programs ----------

  /** Which program a tick runs, and on what: the node as aged. */
  lemma ProgramTick<S>(env: Env<S>, n: Node<S>, inp: Input, msg: Incoming)
    requires Accepted(env, n, inp) == Some(msg)
    requires msg.opcode == StdBytecodeDispatch || msg.opcode == VmScriptDispatch
    ensures var aged, m := Age(env, n, inp.now), Tick(env, n, inp);
            && ContextOf(aged, inp) == ContextIn(env, n, inp)
            && m.motor == (if aged.safeMode then aged
                           else if msg.opcode == StdBytecodeDispatch then RunStdOn(aged, msg.payload, inp)
                           else RunScriptOn(env, aged, msg.payload, inp)).motor
            && m.sent == (if aged.safeMode then aged
                          else if msg.opcode == StdBytecodeDispatch then RunStdOn(aged, msg.payload, inp)
                          else RunScriptOn(env, aged, msg.payload, inp)).sent
  {
    hide ExecStd, Exec, Leader, Decay, Pruned, Record;
  }

  /** An error stops the motor and is broadcast under its code. */
  lemma BytecodeOutcome<S>(n: Node<S>, payload: Bytes, inp: Input)
    ensures var o, m := ExecStd(payload, 0, 100, inp.sense, Some(ContextOf(n, inp))), RunStdOn(n, payload, inp);
            && m.motor == n.motor + o.speeds + (if o.error.Some? then [0] else [])
            && m.sent == n.sent + o.sent +
               if o.error.None? then []
               else
                 var e := o.error.value;
                 [Message(Exception, [255, if e.OutOfFuel? then 1 else if e.VibrationHazard? then 2
                                           else if e.MultiBandSpectrumHazard? then 3
                                           else if e.AcousticFailureDetected? then 4
                                           else if e.UnauthorizedAccess? then 5 else 153, 0, 0, 0])]
  {
    hide ExecStd;
    var o := ExecStd(payload, 0, 100, inp.sense, Some(ContextOf(n, inp)));
    assert n.motor + o.speeds + [] == n.motor + o.speeds;
    assert n.sent + o.sent + [] == n.sent + o.sent;
  }

  /** Dispatched bytecode runs with 100 units of fuel, on what the node has cached. */
  lemma BytecodeLaw<S>(env: Env<S>, n: Node<S>, inp: Input, msg: Incoming)
    requires Accepted(env, n, inp) == Some(msg) && msg.opcode == StdBytecodeDispatch
    ensures var aged, m := Age(env, n, inp.now), Tick(env, n, inp);
            var o := ExecStd(msg.payload, 0, 100, inp.sense, Some(ContextIn(env, n, inp)));
            if aged.safeMode then m.motor == aged.motor && m.sent == aged.sent
            else
              && m.motor == aged.motor + o.speeds + (if o.error.Some? then [0] else [])
              && m.sent == aged.sent + o.sent +
                 if o.error.None? then []
                 else
                   var e := o.error.value;
                   [Message(Exception, [255, if e.OutOfFuel? then 1 else if e.VibrationHazard? then 2
                                             else if e.MultiBandSpectrumHazard? then 3
                                             else if e.AcousticFailureDetected? then 4
                                             else if e.UnauthorizedAccess? then 5 else 153, 0, 0, 0])]
  {
    hide ExecStd, Tick, Age, Accepted, RunStdOn, RunScriptOn;
    ProgramTick(env, n, inp, msg);
    BytecodeOutcome(Age(env, n, inp.now), msg.payload, inp);
  }

  lemma ScriptOutcome<S>(env: Env<S>, n: Node<S>, payload: Bytes, inp: Input)
    ensures var o, m := Exec(env.viewer(payload), 0, 100, inp.pins), RunScriptOn(env, n, payload, inp);
            if o.error == None then m.motor == n.motor + o.speeds && m.sent == n.sent
            else if o.error == Some(BufferOverflow) then m == RunStdOn(n.(motor := n.motor + o.speeds), payload, inp)
            else
              var e := o.error.value;
              && m.motor == n.motor + o.speeds + [0]
              && m.sent == n.sent + [Message(Exception,
                   if e.OutOfFuel? then [255, 1, 0, 0, 0]
                   else if e.AssertionFailed? then [255, 2, e.pin, e.expected, e.actual]
                   else [255, 3, 0, 0, 0])]
  {
    hide Exec, RunStdOn;
  }

  /**
   * A script runs with 100 units of fuel. An error stops the motor and is broadcast, a failed assertion with pin, expected and
   * actual value; but a missing step hands the same payload to the bytecode executor, with fresh fuel.
   */
  lemma ScriptLaw<S>(env: Env<S>, n: Node<S>, inp: Input, msg: Incoming)
    requires Accepted(env, n, inp) == Some(msg) && msg.opcode == VmScriptDispatch
    ensures var aged, m := Age(env, n, inp.now), Tick(env, n, inp);
            var o := Exec(env.viewer(msg.payload), 0, 100, inp.pins);
            var b := ExecStd(msg.payload, 0, 100, inp.sense, Some(ContextIn(env, n, inp)));
            if aged.safeMode then m.motor == aged.motor && m.sent == aged.sent
            else if o.error == None then m.motor == aged.motor + o.speeds && m.sent == aged.sent
            else if o.error == Some(BufferOverflow) then
              && m.motor == aged.motor + o.speeds + b.speeds + (if b.error.Some? then [0] else [])
              && m.sent == RunStdOn(aged, msg.payload, inp).sent
            else
              var e := o.error.value;
              && m.motor == aged.motor + o.speeds + [0]
              && m.sent == aged.sent + [Message(Exception,
                   if e.OutOfFuel? then [255, 1, 0, 0, 0]
                   else if e.AssertionFailed? then [255, 2, e.pin, e.expected, e.actual]
                   else [255, 3, 0, 0, 0])]
  {
    hide Exec, ExecStd, Tick, Age, Accepted, RunStdOn, RunScriptOn;
    var aged := Age(env, n, inp.now);
    var o := Exec(env.viewer(msg.payload), 0, 100, inp.pins);
    ProgramTick(env, n, inp, msg);
    ScriptOutcome(env, aged, msg.payload, inp);
    BytecodeOutcome(aged, msg.payload, inp);
    BytecodeOutcome(aged.(motor := aged.motor + o.speeds), msg.payload, inp);
  }

  // ---------- how long a heartbeat lasts ----------

  /** A heartbeat that finds a place leads for exactly 100 ticks of silence; the hundredth stops the node. */
  lemma LeadLastsHundred<S>(env: Env<S>, n: Node<S>, inp: Input, inputs: seq<Input>, l: Mac, track: Track)
    requires NodeOk(n, track) && n.disqualified != Some(l) && PlaceFor(Decay(n.scores), l).Some?
    requires inp.msg.Some? && inp.msg.value.sender == l && inp.msg.value.opcode == Heartbeat
    requires Quiet(env, Tick(env, n, inp), inputs)
    ensures var m := Run(env, Tick(env, n, inp), inputs);
            if |inputs| < 100 then Leader(m.scores) == Some(l)
            else Leader(m.scores) == None && m.safeMode && Stopped(m.motor)
  {
    hide Tick, Quiet, Run, Decay, Update, PlaceFor, Leader;
    var start, after := Tick(env, n, inp), TrackAfter(env, n, inp, track);
    HealIff(env, n, inp, track, l);
    NodeStep(env, n, inp, track);
    HeartbeatAccepted(env, n, inp, l);
    FreshScore(start, after, l);
    DeadMan(env, start, inputs, after);
  }

  /** A leader heard this very tick has all its ticks left. */
  lemma FreshScore<S>(n: Node<S>, track: Track, l: Mac)
    requires NodeOk(n, track) && Leader(n.scores) == Some(l)
    requires l in track.stored && track.stored[l] == track.now
    ensures TicksLeft(n) == 100
  {
    BestIsMaximum(n.scores);
    assert Best(n.scores) in n.scores;
  }
}
