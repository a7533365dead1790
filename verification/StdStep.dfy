/** One step of the standard-library bytecode: decoding, the sensor-driven decision, the motor command. */
module StdStep {
  import opened Wrappers
  import opened Bytes
  import opened Protocol
  import opened VmTypes
  import opened Gossip
  import opened RangingFilter

  datatype Instr = Instr(opcode: byte, pin: byte, a: U16, b: U32)

  /** The 8-byte instruction at index `k`. */
  function DecodeAt(bytecode: Bytes, k: nat): Instr
    requires 8 * k + 8 <= |bytecode|
  {
    var at := 8 * k;
    Instr(bytecode[at], bytecode[at + 1], Le16(bytecode, at + 2), Le32(bytecode, at + 4))
  }

  type Samples = s: seq<int> | |s| == 256 && forall i | 0 <= i < 256 :: IsI16(s[i]) witness seq(256, _ => 0)

  /** At 1000 samples a second no kept bin reaches 500 Hz. */
  type PeakHz = p: int | 0 <= p < 500

  /**
   * Everything a step may observe. Peak and energies are arbitrary 16-bit values here, so what holds of a step holds for
   * every spectrum; `Sensors` computes them. `tilted` is the verdict of the floating-point tilt filter and `clock` that of
   * the outside clock.
   */
  datatype Sensing = Sensing(samples: Samples, peakHz: PeakHz, peakAmp: U16, low: U16, mid: U16, high: U16,
                             tilted: bool, clock: Clock)

  /** The two clock opcodes have an arm only in builds with the clock; there the time comes, or the wait times out. */
  datatype Clock = Absent | OnTime | Late

  datatype StepResult = StepResult(error: Option<VmError>, speeds: seq<byte>, sent: seq<Message>)

  const QUIET := StepResult(None, [], [])

  /** Stop the motor and raise `e`. */
  function Halt(e: VmError): StepResult {
    StepResult(Some(e), [0], [])
  }

  function Refuse(e: VmError): StepResult {
    StepResult(Some(e), [], [])
  }

  function Command(speed: byte): StepResult {
    StepResult(None, [speed], [])
  }

  // ---------- instruction fields ----------

  function Byte0(b: U32): byte { b % 0x100 }

  function Byte2(b: U32): byte { b / 0x1_0000 % 0x100 }

  function Byte3(b: U32): byte { b / 0x100_0000 }

  function LowHalf(b: U32): U16 { b % 0x1_0000 }

  function HighHalf(b: U32): U16 { b / 0x1_0000 }

  function Abs(n: int): nat {
    if n < 0 then -n else n
  }

  /** The motor channel an instruction names, if its opcode has one. */
  function MotorChannel(ins: Instr): Option<byte> {
    match ins.opcode
    case 0x81 => Some(Byte2(ins.b))
    case 0x84 => Some(ins.a / 0x100)
    case 0x8A => Some(Byte0(ins.b))
    case _ => None
  }

  // ---------- decisions ----------

  /** Bands selected by the mask, each with whether its energy exceeds its threshold. */
  predicate BandHazard(ins: Instr, s: Sensing) {
    var mask := ins.a % 0x100;
    var low, mid, high := mask % 2 == 1, mask / 2 % 2 == 1, mask / 4 % 2 == 1;
    var lowOver, midOver, highOver := s.low > HighHalf(ins.b), s.mid > HighHalf(ins.b), s.high > LowHalf(ins.b);
    if ins.a / 0x100 == 0
    then (low || mid || high) && (low ==> lowOver) && (mid ==> midOver) && (high ==> highOver)
    else (low && lowOver) || (mid && midOver) || (high && highOver)
  }

  function LocalHazard(s: Sensing): U16 {
    if s.low + s.mid > 0xFFFF then 0xFFFF else s.low + s.mid
  }

  function GossipPayload(mac: Mac, now: U64, score: U16): Bytes {
    mac + ToLittleEndian(now, 8) + ToLittleEndian(score, 2)
  }

  /** What a node broadcasts about itself is what a neighbour caches. */
  lemma GossipRoundTrip(mac: Mac, now: U64, score: U16)
    ensures ParseAssertion(GossipPayload(mac, now, score)) == Some(Assertion(mac, now, score))
    ensures |GossipPayload(mac, now, score)| == 16
  {
    var payload := GossipPayload(mac, now, score);
    assert payload[..6] == mac;
    Widths();
    ReadsBack(mac, now, 8, ToLittleEndian(score, 2));
    ReadsBack(mac + ToLittleEndian(now, 8), score, 2, []);
    assert mac + ToLittleEndian(now, 8) + ToLittleEndian(score, 2) + [] == payload;
  }

  /** Enough distinct neighbours confirm; the list that counts them holds at most 8. */
  predicate Consensus(ins: Instr, ctx: Context) {
    var n := |Confirming(ctx, Byte2(ins.b) * 1000, LowHalf(ins.b), |ctx.recent|)|;
    (if n <= CAPACITY then n else CAPACITY) >= Byte3(ins.b)
  }

  function Sum(s: seq<int>): int {
    if s == [] then 0 else Sum(s[..|s| - 1]) + s[|s| - 1]
  }

  /** Division that rounds toward zero. */
  function TruncDiv(x: int, n: nat): int
    requires n > 0
  {
    if x >= 0 then x / n else -((-x) / n)
  }

  function PidError(ins: Instr, s: Sensing): int {
    ins.a - TruncDiv(Sum(s.samples), 256)
  }

  function PidSpeed(ins: Instr, s: Sensing): byte {
    var output := TruncDiv(Byte3(ins.b) * PidError(ins, s), 100);
    if output < 0 then 0 else if output > 255 then 255 else output
  }

  function Awaited(clock: Clock): StepResult {
    match clock
    case Absent => Refuse(InvalidStdOpCode)
    case OnTime => QUIET
    case Late => Refuse(OutOfFuel)
  }

  /** The meaning of one step. */
  function StepSpec(ins: Instr, s: Sensing, ctx: Option<Context>): StepResult {
    if MotorChannel(ins).Some? && MotorChannel(ins).value >= 8 then Refuse(UnauthorizedAccess)
    else
      match ins.opcode
      case 0x80 =>
        if s.peakHz > ins.b && s.peakAmp > ins.a then Halt(VibrationHazard(s.peakHz, s.peakAmp)) else QUIET
      case 0x81 => if Abs(s.peakHz - ins.a) <= Byte3(ins.b) then Command(110) else QUIET
      case 0x83 => if BandHazard(ins, s) then Halt(MultiBandSpectrumHazard) else QUIET
      case 0x84 =>
        if s.high > 32768 then Halt(AcousticFailureDetected)
        else if s.mid > LowHalf(ins.b) then Command(115)
        else if s.low > HighHalf(ins.b) then Command(70)
        else QUIET
      case 0x86 => Awaited(s.clock)
      case 0x87 =>
        if LocalHazard(s) > ins.a && ctx.Some? then
          var report := Message(SpatialGossip, GossipPayload(ctx.value.myMac, ctx.value.now, LocalHazard(s)));
          if Consensus(ins, ctx.value) then StepResult(Some(MultiBandSpectrumHazard), [0], [report])
          else StepResult(None, [], [report])
        else QUIET
      case 0x88 => Command(ins.a % 0x100)
      case 0x89 => if s.tilted then Halt(SensorFusionHazard) else QUIET
      case 0x8A =>
        StepResult(if Abs(PidError(ins, s)) > 10000 then Some(PidHazard) else None, [PidSpeed(ins, s)], [])
      case 0x8B => Awaited(s.clock)
      case 0x8C => if RangingTrips(s.samples, ins.a, ins.b) then Halt(SpatialRangingHazard) else QUIET
      case _ => Refuse(InvalidStdOpCode)
  }

  // ---------- the executor ----------

  method BandsTrip(ins: Instr, s: Sensing) returns (hazard: bool)
    ensures hazard <==> BandHazard(ins, s)
  {
    var logicOp, mask := ins.a / 0x100, ins.a % 0x100;
    var low, mid, high := mask % 2 == 1, mask / 2 % 2 == 1, mask / 4 % 2 == 1;
    var lowTriggered := low && s.low > HighHalf(ins.b);
    var midTriggered := mid && s.mid > HighHalf(ins.b);
    var highTriggered := high && s.high > LowHalf(ins.b);
    if logicOp == 0 {
      var active, triggered := 0, 0;
      if low { active := active + 1; if lowTriggered { triggered := triggered + 1; } }
      if mid { active := active + 1; if midTriggered { triggered := triggered + 1; } }
      if high { active := active + 1; if highTriggered { triggered := triggered + 1; } }
      hazard := active > 0 && triggered == active;
    } else {
      hazard := lowTriggered || midTriggered || highTriggered;
    }
  }

  method AverageOf(samples: Samples) returns (average: int)
    ensures average == TruncDiv(Sum(samples), 256)
  {
    var sum := 0;
    for i := 0 to |samples|
      invariant sum == Sum(samples[..i])
    {
      assert samples[..i + 1][..i] == samples[..i];
      sum := sum + samples[i];
    }
    assert samples[..|samples|] == samples;
    average := TruncDiv(sum, |samples|);
  }

  method ExecuteStep(ins: Instr, s: Sensing, ctx: Option<Context>, motor: Motor)
    returns (error: Option<VmError>, sent: seq<Message>)
    modifies motor
    ensures var r := StepSpec(ins, s, ctx);
            error == r.error && sent == r.sent && motor.history == old(motor.history) + r.speeds
  {
    error, sent := None, [];
    match ins.opcode {
      case 0x80 =>
        if s.peakHz > ins.b && s.peakAmp > ins.a {
          motor.Stop();
          error := Some(VibrationHazard(s.peakHz, s.peakAmp));
        }
      case 0x81 =>
        if Byte2(ins.b) >= 8 {
          return Some(UnauthorizedAccess), [];
        }
        if Abs(s.peakHz - ins.a) <= Byte3(ins.b) {
          motor.SetSpeed(110);
        }
      case 0x83 =>
        var hazard := BandsTrip(ins, s);
        if hazard {
          motor.Stop();
          error := Some(MultiBandSpectrumHazard);
        }
      case 0x84 =>
        if ins.a / 0x100 >= 8 {
          return Some(UnauthorizedAccess), [];
        }
        if s.high > 32768 {
          motor.Stop();
          error := Some(AcousticFailureDetected);
        } else if s.mid > LowHalf(ins.b) {
          motor.SetSpeed(115);
        } else if s.low > HighHalf(ins.b) {
          motor.SetSpeed(70);
        }
      case 0x86 =>
        error := if s.clock.Absent? then Some(InvalidStdOpCode) else if s.clock.Late? then Some(OutOfFuel) else None;
      case 0x87 =>
        if LocalHazard(s) > ins.a && ctx.Some? {
          sent := [Message(SpatialGossip, GossipPayload(ctx.value.myMac, ctx.value.now, LocalHazard(s)))];
          var count := CountConfirming(ctx.value, Byte2(ins.b) * 1000, LowHalf(ins.b));
          if count >= Byte3(ins.b) {
            motor.Stop();
            error := Some(MultiBandSpectrumHazard);
          }
        }
      case 0x88 =>
        motor.FadeTo(ins.pin, ins.a % 0x100, LowHalf(ins.b));
      case 0x89 =>
        if s.tilted {
          motor.Stop();
          error := Some(SensorFusionHazard);
        }
      case 0x8A =>
        if Byte0(ins.b) >= 8 {
          return Some(UnauthorizedAccess), [];
        }
        var average := AverageOf(s.samples);
        var deviation := ins.a - average;
        var output := TruncDiv(Byte3(ins.b) * deviation, 100);
        motor.SetSpeed(if output < 0 then 0 else if output > 255 then 255 else output);
        if Abs(deviation) > 10000 {
          error := Some(PidHazard);
        }
      case 0x8B =>
        error := if s.clock.Absent? then Some(InvalidStdOpCode) else if s.clock.Late? then Some(OutOfFuel) else None;
      case 0x8C =>
        var hazard := SpatialRanging(s.samples, ins.a, ins.b);
        if hazard {
          motor.Stop();
          error := Some(SpatialRangingHazard);
        }
      case _ =>
        error := Some(InvalidStdOpCode);
    }
  }

  // ---------- what the consensus assertion decides ----------

  /**
   * With a context taken from a bounded cache, 0x87 raises its hazard exactly when the local energy exceeds the threshold
   * and at least `K` distinct other nodes confirm; the list that counts them never overflows.
   */
  lemma ConsensusIff(ins: Instr, s: Sensing, ctx: Context)
    requires ins.opcode == 0x87 && |ctx.recent| <= CAPACITY
    ensures StepSpec(ins, s, Some(ctx)).error == Some(MultiBandSpectrumHazard)
            <==> s.low + s.mid > ins.a && |Confirming(ctx, Byte2(ins.b) * 1000, LowHalf(ins.b), |ctx.recent|)| >= Byte3(ins.b)
                 && ins.a < 0xFFFF
  {
    ConfirmingFits(ctx, Byte2(ins.b) * 1000, LowHalf(ins.b), |ctx.recent|);
  }

  /**
   * The controller without divisions: at rest below 100 units of scaled error, saturated from 25500 on, in between
   * a hundredth of it.
   */
  lemma PidLaw(ins: Instr, s: Sensing)
    ensures var e := Byte3(ins.b) * PidError(ins, s); var v := PidSpeed(ins, s);
            && (v == 0 <==> e < 100)
            && (v == 255 <==> e >= 25500)
            && (0 < v < 255 ==> 100 * v <= e < 100 * v + 100)
  {
    hide Byte3, PidError;
  }

  /** A higher reading never commands more speed. */
  lemma PidOpposes(ins: Instr, low: Sensing, high: Sensing)
    requires Sum(low.samples) <= Sum(high.samples)
    ensures PidSpeed(ins, high) <= PidSpeed(ins, low)
  {
    hide Sum, Byte3;
    var p, q := PidError(ins, low), PidError(ins, high);
    var k := Byte3(ins.b);
    TruncDivMonotone(Sum(low.samples), Sum(high.samples), 256);
    ScaleMonotone(k, q, p);
    TruncDivMonotone(k * q, k * p, 100);
  }

  lemma ScaleMonotone(k: nat, a: int, b: int)
    requires a <= b
    ensures k * a <= k * b
  {}

  lemma TruncDivMonotone(a: int, b: int, n: nat)
    requires a <= b && n in {100, 256}
    ensures TruncDiv(a, n) <= TruncDiv(b, n)
  {
    if n == 100 {
      assert TruncDiv(a, 100) <= TruncDiv(b, 100);
    } else {
      assert TruncDiv(a, 256) <= TruncDiv(b, 256);
    }
  }
}
