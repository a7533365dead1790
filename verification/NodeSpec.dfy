/** One tick of the node as a function of its state. */
module NodeSpec {
  import opened Wrappers
  import opened Bytes
  import opened Protocol
  import opened VmTypes
  import opened Gossip
  import opened StdRun
  import opened Vm
  import opened Wal
  import opened Scores

  /**
   * What the node is built with: how its state takes a delta, how commands are encoded, and how the viewer reads the
   * bytes of a script.
   */
  datatype Env<!S> = Env(apply: (S, byte) -> S, codec: CommandCodec, viewer: Bytes -> Script)

  datatype Node<S> = Node(
    id: Mac,
    state: S,
    scores: Table,
    wal: Option<Bytes>,
    safeMode: bool,
    disqualified: Option<Mac>,
    lastLeaderMsg: Option<(OpCode, Bytes)>,
    leaderActive: bool,
    gossip: Cache,
    motor: seq<byte>,
    sent: seq<Message>)

  /** One tick's environment: the clock when it starts and when it runs bytecode, at most one message, the sensors. */
  datatype Input = Input(now: U64, execNow: U64, msg: Option<Incoming>, pins: Pins, sense: Sense)

  const NODE_FUEL := 100

  function Appended(codec: CommandCodec, wal: Option<Bytes>, c: Command): Option<Bytes> {
    match wal
    case Some(log) => Some(log + Record(codec, c))
    case None => None
  }

  function EnterSafeMode<S>(env: Env<S>, n: Node<S>, reason: string): Node<S> {
    n.(safeMode := true, motor := n.motor + [0], wal := Appended(env.codec, n.wal, JuryCommand(reason)))
  }

  // ---------- messages ----------

  predicate Commands(op: OpCode) {
    op == StateUpdate || op == VmScriptDispatch || op == TaskDispatch
  }

  /** The leader's last command had the same kind and another payload. */
  predicate DoubleSign<S>(n: Node<S>, msg: Incoming) {
    && Leader(n.scores) == Some(msg.sender)
    && Commands(msg.opcode)
    && n.lastLeaderMsg.Some?
    && n.lastLeaderMsg.value.0 == msg.opcode
    && n.lastLeaderMsg.value.1 != msg.payload
  }

  function Remember<S>(n: Node<S>, msg: Incoming): Node<S> {
    if Leader(n.scores) == Some(msg.sender) && Commands(msg.opcode)
    then n.(lastLeaderMsg := Some((msg.opcode, msg.payload)))
    else n
  }

  function ScriptErrorReport(e: VmError): Bytes {
    match e
    case OutOfFuel => [0xFF, 0x01, 0, 0, 0]
    case AssertionFailed(pin, expected, actual) => [0xFF, 0x02, pin, expected, actual]
    case _ => [0xFF, 0x03, 0, 0, 0]
  }

  function StdErrorReport(e: VmError): Bytes {
    var code: byte := match e
      case OutOfFuel => 0x01
      case UnauthorizedAccess => 0x05
      case VibrationHazard(_, _) => 0x02
      case MultiBandSpectrumHazard => 0x03
      case AcousticFailureDetected => 0x04
      case _ => 0x99;
    [0xFF, code, 0, 0, 0]
  }

  function ContextOf<S>(n: Node<S>, inp: Input): Context {
    Context(n.id, n.gossip, inp.execNow)
  }

  function RunStdOn<S>(n: Node<S>, payload: Bytes, inp: Input): Node<S> {
    var o := ExecStd(payload, 0, NODE_FUEL, inp.sense, Some(ContextOf(n, inp)));
    match o.error
    case None => n.(motor := n.motor + o.speeds, sent := n.sent + o.sent)
    case Some(e) =>
      n.(motor := n.motor + o.speeds + [0], sent := n.sent + o.sent + [Message(Exception, StdErrorReport(e))])
  }

  /** A script the viewer cannot follow to the end is run again, as standard-library bytecode. */
  function RunScriptOn<S>(env: Env<S>, n: Node<S>, payload: Bytes, inp: Input): Node<S> {
    var o := Exec(env.viewer(payload), 0, NODE_FUEL, inp.pins);
    match o.error
    case None => n.(motor := n.motor + o.speeds)
    case Some(BufferOverflow) => RunStdOn(n.(motor := n.motor + o.speeds), payload, inp)
    case Some(e) =>
      n.(motor := n.motor + o.speeds + [0], sent := n.sent + [Message(Exception, ScriptErrorReport(e))])
  }

  function OnHeartbeat<S>(n: Node<S>, sender: Mac): Node<S> {
    var m := n.(scores := Update(n.scores, sender, FULL_SCORE));
    if m.safeMode && Leader(m.scores).Some? && m.disqualified != Leader(m.scores) then m.(safeMode := false) else m
  }

  function OnStateUpdate<S>(env: Env<S>, n: Node<S>, payload: Bytes): Node<S> {
    if payload == [] then n
    else n.(wal := Appended(env.codec, n.wal, DeltaCommand(payload[0])), state := env.apply(n.state, payload[0]))
  }

  function Dispatch<S>(env: Env<S>, n: Node<S>, msg: Incoming, inp: Input): Node<S> {
    match msg.opcode
    case Heartbeat => OnHeartbeat(n, msg.sender)
    case SpatialGossip =>
      (match ParseAssertion(msg.payload)
       case Some(a) => n.(gossip := Heard(n.gossip, a))
       case None => n)
    case TaskDispatch => if n.safeMode then n else n.(motor := n.motor + [255])
    case StateUpdate => if n.safeMode then n else OnStateUpdate(env, n, msg.payload)
    case VmScriptDispatch => if n.safeMode then n else RunScriptOn(env, n, msg.payload, inp)
    case StdBytecodeDispatch => if n.safeMode then n else RunStdOn(n, msg.payload, inp)
    case _ => n
  }

  // ---------- the tick ----------

  /** Decay and pruning, and the fall into safe mode when the last leader has just expired. */
  function Age<S>(env: Env<S>, n: Node<S>, now: U64): Node<S> {
    var m := n.(scores := Decay(n.scores), gossip := Pruned(n.gossip, now));
    if m.leaderActive && Leader(m.scores).None?
    then EnterSafeMode(env, m.(leaderActive := false), HEARTBEAT_LOST)
    else m
  }

  function Settle<S>(n: Node<S>): Node<S> {
    if Leader(n.scores).Some? then n.(leaderActive := true) else n
  }

  /** Messages of the disqualified sender, and a double sign, end the tick early. */
  function Receive<S>(env: Env<S>, n: Node<S>, msg: Incoming, inp: Input): Node<S> {
    if n.disqualified == Some(msg.sender) then n
    else if DoubleSign(n, msg) then EnterSafeMode(env, n.(disqualified := Some(msg.sender)), DOUBLE_SIGN)
    else Settle(Dispatch(env, Remember(n, msg), msg, inp))
  }

  function Tick<S>(env: Env<S>, n: Node<S>, inp: Input): Node<S> {
    var aged := Age(env, n, inp.now);
    match inp.msg
    case None => Settle(aged)
    case Some(msg) => Receive(env, aged, msg, inp)
  }
}
