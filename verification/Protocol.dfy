/** Message kinds on the node network and their wire bytes. */
module Protocol {
  import opened Bytes

  datatype OpCode =
    | Heartbeat
    | SpatialGossip
    | TaskDispatch
    | TaskAchieved
    | TaskFailed
    | StateUpdate
    | VmScriptDispatch
    | StdBytecodeDispatch
    | Exception

  function ToByte(op: OpCode): byte {
    match op
    case Heartbeat => 0x04
    case SpatialGossip => 0x05
    case TaskDispatch => 0x20
    case TaskAchieved => 0x21
    case TaskFailed => 0x22
    case StateUpdate => 0x30
    case VmScriptDispatch => 0x40
    case StdBytecodeDispatch => 0x41
    case Exception => 0xFF
  }

  /** Unknown bytes read as heartbeats. */
  function FromByte(b: byte): OpCode {
    match b
    case 0x05 => SpatialGossip
    case 0x20 => TaskDispatch
    case 0x21 => TaskAchieved
    case 0x22 => TaskFailed
    case 0x30 => StateUpdate
    case 0x40 => VmScriptDispatch
    case 0x41 => StdBytecodeDispatch
    case 0xFF => Exception
    case _ => Heartbeat
  }

  /** A message as broadcast. */
  datatype Message = Message(opcode: OpCode, payload: Bytes)

  /** A message as received. */
  datatype Incoming = Incoming(sender: Mac, opcode: OpCode, payload: Bytes)

  /** Bytes and message kinds correspond, but for the bytes without a kind, which count as heartbeats. */
  lemma WireBytes(b: byte, op: OpCode)
    ensures FromByte(ToByte(op)) == op
    ensures FromByte(b) == Heartbeat <==> b !in {0x05, 0x20, 0x21, 0x22, 0x30, 0x40, 0x41, 0xFF}
    ensures b == ToByte(FromByte(b)) <==> b in {0x04, 0x05, 0x20, 0x21, 0x22, 0x30, 0x40, 0x41, 0xFF}
    ensures ToByte(Heartbeat) == 4 && ToByte(SpatialGossip) == 5 && ToByte(Exception) == 255
    ensures ToByte(TaskDispatch) == 32 && ToByte(TaskAchieved) == 33 && ToByte(TaskFailed) == 34
    ensures ToByte(StateUpdate) == 48 && ToByte(VmScriptDispatch) == 64 && ToByte(StdBytecodeDispatch) == 65
  {}
}
