/**
 * The serial bridge: the byte-by-byte frame parser, the frame writer, and the listening loop of the verification
 * tool.
 */
module Gateway {
  import opened Wrappers
  import opened Bytes
  import opened Protocol
  import opened Framing

  datatype GatewayFrame = GatewayFrame(mac: Mac, payload: Bytes)

  /** The archiver lies outside the model: it serialises frames, and checks bytes before reading them back. */
  datatype Codec = Codec(archive: GatewayFrame -> Option<Bytes>, check: Bytes -> Option<GatewayFrame>)

  /** What a received frame body is forwarded as, if it is a well-formed frame with a payload. */
  function Forward(codec: Codec, body: Bytes): seq<Message> {
    match codec.check(body)
    case Some(frame) => if frame.payload == [] then [] else [Message(FromByte(frame.payload[0]), frame.payload[1..])]
    case None => []
  }

  function ForwardAll(codec: Codec, bodies: seq<Bytes>): seq<Message> {
    if bodies == [] then [] else Forward(codec, bodies[0]) + ForwardAll(codec, bodies[1..])
  }

  lemma {:induction false} ForwardAllConcat(codec: Codec, a: seq<Bytes>, b: seq<Bytes>)
    ensures ForwardAll(codec, a + b) == ForwardAll(codec, a) + ForwardAll(codec, b)
  {
    if a == [] {
      assert a + b == b;
    } else {
      assert (a + b)[1..] == a[1..] + b;
      ForwardAllConcat(codec, a[1..], b);
    }
  }

  function FrameOf(msg: Incoming): GatewayFrame {
    GatewayFrame(msg.sender, [ToByte(msg.opcode)] + msg.payload)
  }

  /** The serial bytes written for one network message. */
  function Packet(codec: Codec, msg: Incoming): Bytes {
    match codec.archive(FrameOf(msg))
    case Some(body) => Encode(body)
    case None => []
  }

  // ---------- the parser on values ----------

  datatype Parser = Parser(buf: Bytes, sent: seq<Message>)

  /** The parser after the bytes `s`, as one scan. */
  function Absorb(codec: Codec, p: Parser, s: Bytes): Parser {
    var r := Scan(p.buf + s);
    Parser(r.rest, p.sent + ForwardAll(codec, r.frames))
  }

  lemma AbsorbAppend(codec: Codec, p: Parser, a: Bytes, b: Bytes)
    ensures Absorb(codec, p, a + b) == Absorb(codec, Absorb(codec, p, a), b)
  {
    hide Scan, ForwardAll;
    var first := Scan(p.buf + a);
    ScanAppend(p.buf + a, b);
    assert p.buf + (a + b) == p.buf + a + b;
    ForwardAllConcat(codec, first.frames, Scan(first.rest + b).frames);
  }

  lemma AbsorbStable(codec: Codec, p: Parser, s: Bytes)
    ensures Stable(Absorb(codec, p, s).buf)
  {
    ScanLeavesStable(p.buf + s);
  }

  lemma AbsorbNothing(codec: Codec, p: Parser)
    requires Stable(p.buf)
    ensures Absorb(codec, p, []) == p
  {
    assert p.buf + [] == p.buf;
  }

  class GatewayBridge {
    const codec: Codec
    var rxBuf: Bytes
    var sent: seq<Message>
    var written: Bytes

    ghost predicate Valid()
      reads this
    {
      Stable(rxBuf)
    }

    ghost function View(): Parser
      reads this
    {
      Parser(rxBuf, sent)
    }

    constructor (codec: Codec)
      ensures Valid() && this.codec == codec && View() == Parser([], []) && written == []
    {
      this.codec := codec;
      rxBuf, sent, written := [], [], [];
    }

    /** The body of the read loop: push one byte, then emit a completed frame or drop one byte. */
    method Feed(b: byte)
      requires Valid()
      modifies this`rxBuf, this`sent
      ensures Valid() && View() == Absorb(codec, old(View()), [b])
    {
      ScanOneByte(rxBuf, b);
      AbsorbStable(codec, View(), [b]);
      rxBuf := rxBuf + [b];
      if |rxBuf| >= 4 {
        if rxBuf[0] == 0xDE && rxBuf[1] == 0xAD {
          var len := Be16(rxBuf[2], rxBuf[3]);
          if |rxBuf| >= 4 + len {
            var body := rxBuf[4..4 + len];
            assert body == rxBuf[4..] && rxBuf[4 + len..] == [];
            assert ForwardAll(codec, [body]) == Forward(codec, body);
            match codec.check(body) {
              case Some(frame) =>
                if frame.payload != [] {
                  sent := sent + [Message(FromByte(frame.payload[0]), frame.payload[1..])];
                }
              case None =>
            }
            rxBuf := rxBuf[4 + len..];
          }
        } else {
          rxBuf := rxBuf[1..];
        }
      }
    }

    /** Reads every waiting serial byte, then writes at most one network message to the serial side. */
    method Tick(uart: Bytes, incoming: Option<Incoming>)
      requires Valid()
      modifies this
      ensures Valid() && View() == Absorb(codec, old(View()), uart)
      ensures written == old(written) + if incoming.Some? then Packet(codec, incoming.value) else []
    {
      hide Absorb, Packet, Stable;
      ghost var start := View();
      AbsorbNothing(codec, start);
      for i := 0 to |uart|
        invariant Valid() && written == old(written)
        invariant View() == Absorb(codec, start, uart[..i])
      {
        AbsorbAppend(codec, start, uart[..i], [uart[i]]);
        assert uart[..i + 1] == uart[..i] + [uart[i]];
        Feed(uart[i]);
      }
      assert uart[..|uart|] == uart;
      if incoming.Some? {
        WritePacket(incoming.value);
      }
    }

    /** Header, then body; a frame the archiver refuses is not written. */
    method WritePacket(msg: Incoming)
      modifies this`written
      ensures written == old(written) + Packet(codec, msg)
    {
      hide ToBe16, FrameOf;
      match codec.archive(FrameOf(msg)) {
        case Some(body) =>
          var header := [MAGIC0, MAGIC1] + ToBe16(|body|);
          assert header + body == Encode(body);
          assert written + header + body == written + (header + body);
          written := written + header;
          written := written + body;
        case None =>
      }
    }
  }

  // ---------- whole runs ----------

  /** The state a bridge reaches by a run of ticks, by the contract of `Tick`. */
  function Ticks(codec: Codec, p: Parser, chunks: seq<Bytes>): Parser
    decreases |chunks|
  {
    if chunks == [] then p else Ticks(codec, Absorb(codec, p, chunks[0]), chunks[1..])
  }

  function Concat(chunks: seq<Bytes>): Bytes {
    if chunks == [] then [] else chunks[0] + Concat(chunks[1..])
  }

  /** How the stream is cut into ticks makes no difference: a run agrees with one scan of the whole stream. */
  lemma {:induction false} SplitIndependence(codec: Codec, p: Parser, chunks: seq<Bytes>)
    requires Stable(p.buf)
    ensures Ticks(codec, p, chunks) == Absorb(codec, p, Concat(chunks))
    decreases |chunks|
  {
    if chunks == [] {
      AbsorbNothing(codec, p);
    } else {
      AbsorbAppend(codec, p, chunks[0], Concat(chunks[1..]));
      AbsorbStable(codec, p, chunks[0]);
      SplitIndependence(codec, Absorb(codec, p, chunks[0]), chunks[1..]);
    }
  }

  /** The archiver reads back what it wrote of the message, and that fits the length field. */
  predicate Archived(codec: Codec, msg: Incoming) {
    var body := codec.archive(FrameOf(msg));
    body.Some? && |body.value| < 0x1_0000 && codec.check(body.value) == Some(FrameOf(msg))
  }

  ghost predicate Deliverable(codec: Codec, msgs: seq<Incoming>) {
    forall i | 0 <= i < |msgs| :: Archived(codec, msgs[i])
  }

  function PacketAll(codec: Codec, msgs: seq<Incoming>): Bytes {
    if msgs == [] then [] else Packet(codec, msgs[0]) + PacketAll(codec, msgs[1..])
  }

  function Contents(msgs: seq<Incoming>): seq<Message> {
    seq(|msgs|, i requires 0 <= i < |msgs| => Message(msgs[i].opcode, msgs[i].payload))
  }

  function Bodies(codec: Codec, msgs: seq<Incoming>): (bodies: seq<Bytes>)
    requires Deliverable(codec, msgs)
    ensures |bodies| == |msgs| && AllShort(bodies)
  {
    seq(|msgs|, i requires 0 <= i < |msgs| => codec.archive(FrameOf(msgs[i])).value)
  }

  lemma {:induction false} BodiesPacked(codec: Codec, msgs: seq<Incoming>, bodies: seq<Bytes>)
    requires |bodies| == |msgs| && forall i | 0 <= i < |msgs| :: codec.archive(FrameOf(msgs[i])) == Some(bodies[i])
    ensures PacketAll(codec, msgs) == EncodeAll(bodies)
  {
    hide Encode, FrameOf;
    if msgs != [] {
      BodiesPacked(codec, msgs[1..], bodies[1..]);
    }
  }

  lemma ForwardOne(codec: Codec, msg: Incoming)
    requires Archived(codec, msg)
    ensures Forward(codec, codec.archive(FrameOf(msg)).value) == [Message(msg.opcode, msg.payload)]
  {
    var frame := FrameOf(msg);
    assert frame.payload[1..] == msg.payload && FromByte(ToByte(msg.opcode)) == msg.opcode;
  }

  lemma {:induction false} BodiesForwarded(codec: Codec, msgs: seq<Incoming>)
    requires Deliverable(codec, msgs)
    ensures ForwardAll(codec, Bodies(codec, msgs)) == Contents(msgs)
  {
    hide Forward, FrameOf;
    if msgs != [] {
      assert Deliverable(codec, msgs[1..]);
      assert Bodies(codec, msgs)[1..] == Bodies(codec, msgs[1..]);
      ForwardOne(codec, msgs[0]);
      BodiesForwarded(codec, msgs[1..]);
      assert Contents(msgs) == [Message(msgs[0].opcode, msgs[0].payload)] + Contents(msgs[1..]);
    }
  }

  /**
   * Bridge to bridge: what one bridge writes for a run of network messages, another bridge re-broadcasts, whole and in
   * order, whatever magic-free noise leads the stream and however the stream is cut.
   */
  lemma LinkDelivers(codec: Codec, msgs: seq<Incoming>, noise: Bytes, chunks: seq<Bytes>)
    requires Deliverable(codec, msgs) && msgs != []
    requires NoMagic(noise) && Concat(chunks) == noise + PacketAll(codec, msgs)
    ensures Ticks(codec, Parser([], []), chunks) == Parser([], Contents(msgs))
  {
    hide Scan;
    SplitIndependence(codec, Parser([], []), chunks);
    assert [] + Concat(chunks) == Concat(chunks);
    BodiesPacked(codec, msgs, Bodies(codec, msgs));
    BodiesForwarded(codec, msgs);
    ScanAfterNoise(noise, Bodies(codec, msgs));
  }

  // ---------- one frame, byte for byte ----------

  /** A frame that arrives whole is forwarded as its first payload byte says, with the rest as payload. */
  lemma ArrivalForwards(codec: Codec, hi: byte, lo: byte, body: Bytes, frame: GatewayFrame)
    requires |body| == 256 * hi + lo && codec.check(body) == Some(frame)
    ensures Absorb(codec, Parser([], []), [0xDE, 0xAD, hi, lo] + body) ==
            Parser([], if frame.payload == [] then [] else [Message(FromByte(frame.payload[0]), frame.payload[1..])])
  {
    hide Scan;
    WireFrameIff([], hi, lo, body);
    assert [] + ([0xDE, 0xAD, hi, lo] + body) == [0xDE, 0xAD, hi, lo] + body;
    assert [body][1..] == [];
    assert Forward(codec, body) + ForwardAll(codec, []) == Forward(codec, body);
  }

  /** A message goes out as header, length and the archive of sender, kind and payload. */
  lemma DepartureBytes(codec: Codec, sender: Mac, op: OpCode, payload: Bytes)
    ensures Packet(codec, Incoming(sender, op, payload)) ==
            match codec.archive(GatewayFrame(sender, [ToByte(op)] + payload))
            case Some(body) => [0xDE, 0xAD, |body| / 256 % 256, |body| % 256] + body
            case None => []
  {
    hide Encode;
    match codec.archive(GatewayFrame(sender, [ToByte(op)] + payload))
    case Some(body) => PacketBytes(body);
    case None =>
  }

  // ---------- the listening loop of the tool ----------

  predicate IsExceptionFrame(codec: Codec, body: Bytes) {
    var frame := codec.check(body);
    frame.Some? && frame.value.payload != [] && FromByte(frame.value.payload[0]) == Exception
  }

  /** An exception is a frame whose payload starts with 0xFF. */
  lemma ExceptionByte(codec: Codec, body: Bytes)
    ensures IsExceptionFrame(codec, body) <==>
              codec.check(body).Some? && codec.check(body).value.payload != [] && codec.check(body).value.payload[0] == 0xFF
  {}

  /** Reports whether an exception frame arrives in the bytes read before the deadline. */
  method AwaitException(codec: Codec, stream: Bytes) returns (found: bool)
    ensures found <==> exists body | body in Scan(stream).frames :: IsExceptionFrame(codec, body)
  {
    hide Scan, Be16;
    var rxBuf: Bytes := [];
    assert Scan([]) == Scanned([], []) by {
      ScanEncoded([]);
    }
    for i := 0 to |stream|
      invariant rxBuf == Scan(stream[..i]).rest
      invariant forall body | body in Scan(stream[..i]).frames :: !IsExceptionFrame(codec, body)
    {
      var b := stream[i];
      ScanAppend(stream[..i], [b]);
      ScanLeavesStable(stream[..i]);
      ScanAppend(stream[..i + 1], stream[i + 1..]);
      assert stream[..i + 1] == stream[..i] + [b] && stream == stream[..i + 1] + stream[i + 1..];
      ScanOneByte(rxBuf, b);
      rxBuf := rxBuf + [b];
      if |rxBuf| >= 4 {
        if rxBuf[0] == 0xDE && rxBuf[1] == 0xAD {
          var len := Be16(rxBuf[2], rxBuf[3]);
          if |rxBuf| >= 4 + len {
            var body := rxBuf[4..4 + len];
            assert body == rxBuf[4..] && rxBuf[4 + len..] == [];
            if IsExceptionFrame(codec, body) {
              assert body in Scan(stream[..i + 1]).frames;
              return true;
            }
            rxBuf := rxBuf[4 + len..];
          }
        } else {
          rxBuf := rxBuf[1..];
        }
      }
    }
    assert stream[..|stream|] == stream;
    return false;
  }
}
