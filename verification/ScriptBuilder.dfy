/** The host-side bytecode builder: what it packs is what the executor and the verifier unpack. */
module ScriptBuilder {
  import opened Wrappers
  import opened Bytes
  import opened VmTypes
  import opened Gossip
  import opened StdStep
  import opened StdRun
  import opened Verifier

  /** One builder call. Thresholds are already scaled to Q15; every number may be any integer. */
  datatype Call =
    | AssertVibration(pin: int, maxHz: int, thresholdQ15: int)
    | AvoidResonance(pin: int, channel: int, resonanceHz: int, toleranceHz: int)
    | AssertMultiBand(pin: int, bands: int, op: int, lowMidQ15: int, highQ15: int)
    | AdaptiveControl(pin: int, channel: int, toleranceHz: int, lowQ15: int, midQ15: int)
    | CheckEnvelope(pin: int, profile: int, maxViolations: int)
    | SpatialConsensus(pin: int, thresholdQ15: int, neighbours: int, windowMs: int, highQ15: int)

  /** Writing a number of any size keeps its low bits. */
  function Low8(n: int): byte { n % 0x100 }

  function Low16(n: int): U16 { n % 0x1_0000 }

  function Low32(n: int): U32 { n % 0x1_0000_0000 }

  /** The instruction a call packs, field by field as the builder shifts and masks them. */
  function Packed(call: Call): Instr {
    match call
    case AssertVibration(pin, maxHz, threshold) => Instr(0x80, Low8(pin), Low16(threshold), Low32(maxHz))
    case AvoidResonance(pin, channel, hz, tolerance) =>
      Instr(0x81, Low8(pin), Low16(hz), Low32(Low8(tolerance) * 0x100_0000 + Low8(channel) * 0x1_0000))
    case AssertMultiBand(pin, bands, op, lowMid, high) =>
      Instr(0x83, Low8(pin), Low16(op * 0x100 + Low8(bands)), Low32(lowMid * 0x1_0000 + Low16(high)))
    case AdaptiveControl(pin, channel, tolerance, low, mid) =>
      Instr(0x84, Low8(pin), Low16(channel * 0x100 + Low8(tolerance)), Low32(low * 0x1_0000 + Low16(mid)))
    case CheckEnvelope(pin, profile, maxViolations) => Instr(0x85, Low8(pin), Low16(profile), Low32(maxViolations))
    case SpatialConsensus(pin, threshold, neighbours, window, high) =>
      Instr(0x87, Low8(pin), Low16(threshold),
            Low32(Low8(neighbours) * 0x100_0000 + Low8(window) * 0x1_0000 + Low16(high)))
  }

  /** The instructions of whole bytecode. */
  function Program(bytecode: Bytes): seq<Instr> {
    seq(|bytecode| / 8, k requires 0 <= k < |bytecode| / 8 => DecodeAt(bytecode, k))
  }

  class TinyScriptBuilder {
    const buffer: array<byte>
    var offset: nat

    ghost predicate Valid()
      reads this
    {
      offset % 8 == 0 && buffer.Length % 8 == 0 && offset <= buffer.Length
    }

    ghost function Built(): seq<Instr>
      requires Valid()
      reads this, buffer
    {
      Program(buffer[..offset])
    }

    constructor (maxSteps: nat)
      ensures Valid() && Built() == [] && buffer.Length == 8 * maxSteps && fresh(buffer)
    {
      buffer := new byte[8 * maxSteps](_ => 0);
      offset := 0;
    }

    /** Writes a number's bytes through the view. */
    method Put(at: nat, bytes: Bytes)
      requires at + |bytes| <= buffer.Length
      modifies buffer
      ensures buffer[..at + |bytes|] == old(buffer[..at]) + bytes
    {
      for j := 0 to |bytes|
        invariant buffer[..at + j] == old(buffer[..at]) + bytes[..j]
      {
        buffer[at + j] := bytes[j];
      }
    }

    /** Appends one instruction; a full buffer refuses it, as the view's bounds check does. */
    method Add(call: Call) returns (ok: bool)
      requires Valid()
      modifies this, buffer
      ensures Valid() && (ok <==> old(offset) < buffer.Length)
      ensures Built() == if ok then old(Built()) + [Packed(call)] else old(Built())
    {
      hide Packed, Program, ToLittleEndian, Encoded;
      if offset >= buffer.Length {
        return false;
      }
      var ins := Packed(call);
      ghost var before := buffer[..offset];
      Put(offset, [ins.opcode]);
      Put(offset + 1, [ins.pin]);
      Put(offset + 2, ToLittleEndian(ins.a, 2));
      Put(offset + 4, ToLittleEndian(ins.b, 4));
      offset := offset + 8;
      ProgramSnoc(before, ins);
      EncodedParts(before, ins);
      return true;
    }

    method Serialize() returns (bytecode: Bytes)
      requires Valid()
      ensures Program(bytecode) == Built() && |bytecode| % 8 == 0
    {
      bytecode := buffer[..offset];
    }
  }

  function Encoded(ins: Instr): (b: Bytes)
    ensures |b| == 8
  {
    [ins.opcode, ins.pin] + ToLittleEndian(ins.a, 2) + ToLittleEndian(ins.b, 4)
  }

  lemma EncodedParts(before: Bytes, ins: Instr)
    ensures before + [ins.opcode] + [ins.pin] + ToLittleEndian(ins.a, 2) + ToLittleEndian(ins.b, 4) == before + Encoded(ins)
  {
    hide ToLittleEndian;
    var a, b := ToLittleEndian(ins.a, 2), ToLittleEndian(ins.b, 4);
    assert before + [ins.opcode] + [ins.pin] + a + b == before + ([ins.opcode, ins.pin] + a + b);
  }

  lemma EncodedReads(before: Bytes, ins: Instr)
    requires |before| % 8 == 0
    ensures DecodeAt(before + Encoded(ins), |before| / 8) == ins
  {
    hide LittleEndian, ToLittleEndian;
    Widths();
    var all, head := before + Encoded(ins), before + [ins.opcode, ins.pin];
    ReadsBack(head, ins.a, 2, ToLittleEndian(ins.b, 4));
    ReadsBack(head + ToLittleEndian(ins.a, 2), ins.b, 4, []);
    assert head + ToLittleEndian(ins.a, 2) + ToLittleEndian(ins.b, 4) == all;
    assert all + [] == all;
  }

  /** Appended bytes leave the instructions before them alone. */
  lemma ProgramSnoc(before: Bytes, ins: Instr)
    requires |before| % 8 == 0
    ensures Program(before + Encoded(ins)) == Program(before) + [ins]
  {
    hide Encoded;
    var all := before + Encoded(ins);
    EncodedReads(before, ins);
    forall k | 0 <= k < |before| / 8
      ensures DecodeAt(all, k) == DecodeAt(before, k)
    {
      assert all[8 * k..8 * k + 8] == before[8 * k..8 * k + 8];
      SameBytes(all, before, k);
    }
  }

  lemma PartOfInstr(b: Bytes, at: nat, i: nat, j: nat)
    requires at + 8 <= |b| && i <= j <= 8
    ensures b[at..at + 8][i..j] == b[at + i..at + j]
  {
    var whole, part := b[at..at + 8], b[at + i..at + j];
    assert |whole[i..j]| == |part|;
    forall m | 0 <= m < j - i
      ensures whole[i..j][m] == part[m]
    {
      assert whole[i + m] == b[at + i + m];
    }
  }

  lemma SameBytes(a: Bytes, b: Bytes, k: nat)
    requires 8 * k + 8 <= |a| && 8 * k + 8 <= |b| && a[8 * k..8 * k + 8] == b[8 * k..8 * k + 8]
    ensures DecodeAt(a, k) == DecodeAt(b, k)
  {
    hide LittleEndian;
    var at := 8 * k;
    var x, y := a[at..at + 8], b[at..at + 8];
    assert x[0] == a[at] && x[1] == a[at + 1] && y[0] == b[at] && y[1] == b[at + 1];
    PartOfInstr(a, at, 2, 4);
    PartOfInstr(b, at, 2, 4);
    PartOfInstr(a, at, 4, 8);
    PartOfInstr(b, at, 4, 8);
  }

  lemma WordOfThree(high: byte, middle: byte, low: U16)
    ensures var w := Low32(high * 0x100_0000 + middle * 0x1_0000 + low);
            Byte3(w) == high && Byte2(w) == middle && LowHalf(w) == low
  {
    var w := high * 0x100_0000 + middle * 0x1_0000 + low;
    assert w / 0x1_0000 == high * 0x100 + middle;
  }

  lemma WordOfTwo(high: int, low: U16)
    ensures var w := Low32(high * 0x1_0000 + low); HighHalf(w) == Low16(high) && LowHalf(w) == low
  {
    var q := high / 0x1_0000;
    assert high * 0x1_0000 + low == q * 0x1_0000_0000 + (Low16(high) * 0x1_0000 + low);
    assert Low32(high * 0x1_0000 + low) == Low16(high) * 0x1_0000 + low;
  }

  lemma HalfOfTwo(high: int, low: byte)
    ensures var h := Low16(high * 0x100 + low); h / 0x100 == Low8(high) && h % 0x100 == low
  {
    var q := high / 0x100;
    assert high * 0x100 + low == q * 0x1_0000 + (Low8(high) * 0x100 + low);
    assert Low16(high * 0x100 + low) == Low8(high) * 0x100 + low;
  }

  /** Every field comes back out of the packed words as the low bits that were put in. */
  lemma FieldsRecovered(call: Call)
    ensures var ins := Packed(call);
            && ins.pin == Low8(call.pin)
            && match call
               case AssertVibration(_, maxHz, threshold) =>
                 MotorChannel(ins) == None && ins.a == Low16(threshold) && ins.b == Low32(maxHz)
               case AvoidResonance(_, channel, hz, tolerance) =>
                 MotorChannel(ins) == Some(Low8(channel)) && ins.a == Low16(hz) && Byte3(ins.b) == Low8(tolerance)
               case AssertMultiBand(_, bands, op, lowMid, high) =>
                 && ins.a % 0x100 == Low8(bands) && ins.a / 0x100 == Low8(op)
                 && HighHalf(ins.b) == Low16(lowMid) && LowHalf(ins.b) == Low16(high)
               case AdaptiveControl(_, channel, tolerance, low, mid) =>
                 && MotorChannel(ins) == Some(Low8(channel)) && ins.a % 0x100 == Low8(tolerance)
                 && HighHalf(ins.b) == Low16(low) && LowHalf(ins.b) == Low16(mid)
               case CheckEnvelope(_, profile, maxViolations) =>
                 MotorChannel(ins) == None && ins.a == Low16(profile) && ins.b == Low32(maxViolations)
               case SpatialConsensus(_, threshold, neighbours, window, high) =>
                 && ins.a == Low16(threshold) && Byte3(ins.b) == Low8(neighbours) && Byte2(ins.b) == Low8(window)
                 && LowHalf(ins.b) == Low16(high)
  {
    hide Byte2, Byte3, HighHalf, LowHalf, Low8, Low16, Low32;
    match call
    case AssertVibration(_, _, _) =>
    case AvoidResonance(_, channel, _, tolerance) => WordOfThree(Low8(tolerance), Low8(channel), 0);
    case AssertMultiBand(_, bands, op, lowMid, high) =>
      HalfOfTwo(op, Low8(bands));
      WordOfTwo(lowMid, Low16(high));
    case AdaptiveControl(_, channel, tolerance, low, mid) =>
      HalfOfTwo(channel, Low8(tolerance));
      WordOfTwo(low, Low16(mid));
    case CheckEnvelope(_, _, _) =>
    case SpatialConsensus(_, _, neighbours, window, high) => WordOfThree(Low8(neighbours), Low8(window), Low16(high));
  }

  /** The verifier flags a built instruction exactly when the low byte of its pin or channel is out of range. */
  lemma BuiltFlagged(call: Call)
    ensures Flagged(Packed(call)) <==>
              Low8(call.pin) >= 32 || ((call.AvoidResonance? || call.AdaptiveControl?) && Low8(call.channel) >= 8)
  {
    FieldsRecovered(call);
  }

  /** No run of any program gets past a built envelope check, and none that contains one completes. */
  lemma EnvelopeChecksNeverRun(bytecode: Bytes, k: nat, call: Call, fuel: nat, sense: Sense, ctx: Option<Context>)
    requires 8 * k + 8 <= |bytecode| && DecodeAt(bytecode, k) == Packed(call) && call.CheckEnvelope?
    ensures var o := ExecStd(bytecode, 0, fuel, sense, ctx); o.stop <= k && o.error.Some?
  {
    hide ExecStd, DecodeAt;
    RunStopsAtFlag(bytecode, 0, fuel, sense, ctx);
  }

  /** Yet the verifier passes one at every limit, on every pin there is. */
  lemma EnvelopeFoolsVerdict(call: Call, limit: U32, fuel: nat, sense: Sense, ctx: Option<Context>)
    requires call.CheckEnvelope? && Low8(call.pin) < 32 && fuel > 0
    ensures Safe(Encoded(Packed(call)), limit)
    ensures ExecStd(Encoded(Packed(call)), 0, fuel, sense, ctx).error == Some(InvalidStdOpCode)
  {
    hide *;
    var code, ins := Encoded(Packed(call)), Packed(call);
    assert DecodeAt(code, 0) == ins by {
      EncodedReads([], ins);
      assert [] + code == code;
    }
    FirstBytes(code);
    PackedEnvelope(call);
    ArmlessFoolsVerdict(code, limit, fuel, sense, ctx);
  }

  lemma FirstBytes(code: Bytes)
    requires |code| == 8
    ensures DecodeAt(code, 0).opcode == code[0] && DecodeAt(code, 0).pin == code[1]
  {
    hide Le16, Le32;
  }

  lemma PackedEnvelope(call: Call)
    requires call.CheckEnvelope?
    ensures Packed(call).opcode == 0x85 && Packed(call).pin == Low8(call.pin)
  {}
}
