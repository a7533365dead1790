/** The static verifier, and what its verdict guarantees of every run. */
module Verifier {
  import opened Wrappers
  import opened Bytes
  import opened VmTypes
  import opened Gossip
  import opened StdStep
  import opened StdRun
  import opened Vm

  /** The verdict with the counters and sums behind it; sums are 32 bits wide and wrap. */
  datatype Report = Report(safe: bool, pinViolations: nat, opViolations: nat, cumulative: U32, peak: byte)

  const U32_SIZE := 0x1_0000_0000

  function Max(a: byte, b: byte): byte {
    if a >= b then a else b
  }

  function Total(speeds: seq<byte>): nat {
    if speeds == [] then 0 else speeds[0] + Total(speeds[1..])
  }

  lemma {:induction false} TotalConcat(a: seq<byte>, b: seq<byte>)
    ensures Total(a + b) == Total(a) + Total(b)
  {
    if a == [] {
      assert a + b == b;
    } else {
      assert (a + b)[1..] == a[1..] + b;
      TotalConcat(a[1..], b);
    }
  }

  // ---------- standard-library bytecode ----------

  predicate BadChannel(ins: Instr) {
    MotorChannel(ins).Some? && MotorChannel(ins).value >= 8
  }

  predicate BadOpcode(ins: Instr) {
    ins.opcode < 0x80 || ins.opcode > 0x8C
  }

  predicate Flagged(ins: Instr) {
    BadOpcode(ins) || ins.pin >= 32 || BadChannel(ins)
  }

  /** The speed an opcode is assumed to command. */
  function Estimate(opcode: byte): byte {
    match opcode
    case 0x81 => 110
    case 0x84 => 115
    case 0x88 => 255
    case 0x8A => 255
    case _ => 0
  }

  function EstimatedTotal(bytecode: Bytes, k: nat): nat
    requires 8 * k <= |bytecode|
  {
    if k == 0 then 0 else EstimatedTotal(bytecode, k - 1) + Estimate(DecodeAt(bytecode, k - 1).opcode)
  }

  function EstimatedPeak(bytecode: Bytes, k: nat): byte
    requires 8 * k <= |bytecode|
  {
    if k == 0 then 0 else Max(EstimatedPeak(bytecode, k - 1), Estimate(DecodeAt(bytecode, k - 1).opcode))
  }

  /** Pin and channel violations of the first `k` instructions. */
  function PinViolations(bytecode: Bytes, k: nat): nat
    requires 8 * k <= |bytecode|
  {
    if k == 0 then 0
    else
      var ins := DecodeAt(bytecode, k - 1);
      PinViolations(bytecode, k - 1) + (if ins.pin >= 32 then 1 else 0) + (if BadChannel(ins) then 1 else 0)
  }

  function OpViolations(bytecode: Bytes, k: nat): nat
    requires 8 * k <= |bytecode|
  {
    if k == 0 then 0
    else OpViolations(bytecode, k - 1) + if BadOpcode(DecodeAt(bytecode, k - 1)) then 1 else 0
  }

  ghost predicate InBounds(bytecode: Bytes, n: nat)
    requires 8 * n <= |bytecode|
  {
    forall k {:trigger DecodeAt(bytecode, k)} | 0 <= k < n :: !Flagged(DecodeAt(bytecode, k))
  }

  method BoundaryCheck(bytecode: Bytes) returns (safe: bool, pinViolations: nat, opViolations: nat)
    ensures safe <==> InBounds(bytecode, |bytecode| / 8)
    ensures pinViolations == PinViolations(bytecode, |bytecode| / 8)
    ensures opViolations == OpViolations(bytecode, |bytecode| / 8)
  {
    hide Le16, Le32;
    safe, pinViolations, opViolations := true, 0, 0;
    var offset := 0;
    ghost var k: nat := 0;
    while offset + 8 <= |bytecode|
      invariant offset == 8 * k && offset <= |bytecode|
      invariant safe <==> InBounds(bytecode, k)
      invariant pinViolations == PinViolations(bytecode, k)
      invariant opViolations == OpViolations(bytecode, k)
    {
      var opcode, pin := bytecode[offset], bytecode[offset + 1];
      var a, b := Le16(bytecode, offset + 2), Le32(bytecode, offset + 4);
      ghost var ins := DecodeAt(bytecode, k);
      assert InBounds(bytecode, k + 1) <==> InBounds(bytecode, k) && !Flagged(ins);
      if opcode < 0x80 || opcode > 0x8C {
        safe := false;
        opViolations := opViolations + 1;
      }
      if pin >= 32 {
        safe := false;
        pinViolations := pinViolations + 1;
      }
      if opcode == 0x81 {
        if Byte2(b) >= 8 {
          safe := false;
          pinViolations := pinViolations + 1;
        }
      }
      if opcode == 0x84 {
        if a / 0x100 >= 8 {
          safe := false;
          pinViolations := pinViolations + 1;
        }
      }
      if opcode == 0x8A {
        if Byte0(b) >= 8 {
          safe := false;
          pinViolations := pinViolations + 1;
        }
      }
      offset := offset + 8;
      k := k + 1;
    }
  }

  lemma WrappedSum(total: nat, s: byte)
    ensures (total % U32_SIZE + s) % U32_SIZE == (total + s) % U32_SIZE
  {}

  method CurrentDraw(bytecode: Bytes) returns (cumulative: U32, peak: byte)
    ensures cumulative == EstimatedTotal(bytecode, |bytecode| / 8) % U32_SIZE
    ensures peak == EstimatedPeak(bytecode, |bytecode| / 8)
  {
    hide Le16, Le32;
    cumulative, peak := 0, 0;
    var offset := 0;
    ghost var k: nat := 0;
    while offset + 8 <= |bytecode|
      invariant offset == 8 * k && offset <= |bytecode|
      invariant cumulative == EstimatedTotal(bytecode, k) % U32_SIZE
      invariant peak == EstimatedPeak(bytecode, k)
    {
      var opcode := bytecode[offset];
      var speed: byte := 0;
      if opcode == 0x81 {
        speed := 110;
      } else if opcode == 0x84 {
        speed := 115;
      } else if opcode == 0x88 || opcode == 0x8A {
        speed := 255;
      }
      WrappedSum(EstimatedTotal(bytecode, k), speed);
      cumulative := (cumulative + speed) % U32_SIZE;
      if speed > peak {
        peak := speed;
      }
      offset := offset + 8;
      k := k + 1;
    }
  }

  predicate Aligned(bytecode: Bytes) {
    |bytecode| % 8 == 0
  }

  ghost predicate Safe(bytecode: Bytes, limit: U32) {
    && Aligned(bytecode)
    && InBounds(bytecode, |bytecode| / 8)
    && EstimatedTotal(bytecode, |bytecode| / 8) % U32_SIZE <= limit
  }

  method VerifyStdBytecode(bytecode: Bytes, limit: U32) returns (r: Report)
    ensures r.safe <==> Safe(bytecode, limit)
    ensures Aligned(bytecode) ==> var n := |bytecode| / 8;
              r.pinViolations == PinViolations(bytecode, n) && r.opViolations == OpViolations(bytecode, n)
              && r.cumulative == EstimatedTotal(bytecode, n) % U32_SIZE && r.peak == EstimatedPeak(bytecode, n)
  {
    if |bytecode| % 8 != 0 {
      return Report(false, 0, 0, 0, 0);
    }
    var safe, pins, ops := BoundaryCheck(bytecode);
    var cumulative, peak := CurrentDraw(bytecode);
    return Report(safe && cumulative <= limit, pins, ops, cumulative, peak);
  }

  /** The counters are zero exactly when no instruction is flagged. */
  lemma {:induction false} CountersDecide(bytecode: Bytes, k: nat)
    requires 8 * k <= |bytecode|
    ensures PinViolations(bytecode, k) == 0 && OpViolations(bytecode, k) == 0 <==> InBounds(bytecode, k)
  {
    hide DecodeAt, BadChannel, BadOpcode;
    if k > 0 {
      CountersDecide(bytecode, k - 1);
      assert InBounds(bytecode, k) <==> InBounds(bytecode, k - 1) && !Flagged(DecodeAt(bytecode, k - 1));
    }
  }

  // ---------- soundness of the current bound ----------

  ghost predicate AllAtMost(speeds: seq<byte>, cap: byte) {
    forall i | 0 <= i < |speeds| :: speeds[i] <= cap
  }

  /** Whatever it observes, a step commands at most its estimate, in total and at once. */
  lemma StepWithinEstimate(ins: Instr, s: Sensing, ctx: Option<Context>)
    ensures Total(StepSpec(ins, s, ctx).speeds) <= Estimate(ins.opcode)
    ensures AllAtMost(StepSpec(ins, s, ctx).speeds, Estimate(ins.opcode))
  {
    var speeds := StepSpec(ins, s, ctx).speeds;
    assert |speeds| <= 1;
    if |speeds| == 1 {
      assert speeds[1..] == [] && speeds[0] <= Estimate(ins.opcode);
    }
  }

  lemma InstrWithinEstimate(bytecode: Bytes, k: nat, sense: Sense, ctx: Option<Context>)
    requires 8 * k + 8 <= |bytecode|
    ensures var r := InstrResult(bytecode, k, sense, ctx); var cap := Estimate(DecodeAt(bytecode, k).opcode);
            Total(r.speeds) <= cap && AllAtMost(r.speeds, cap)
  {
    hide StepSpec, DecodeAt;
    var ins := DecodeAt(bytecode, k);
    StepWithinEstimate(ins, sense(k, ins.pin), ctx);
  }

  lemma {:induction false} EstimatesGrow(bytecode: Bytes, k: nat, n: nat)
    requires k <= n && 8 * n <= |bytecode|
    ensures EstimatedTotal(bytecode, k) <= EstimatedTotal(bytecode, n)
    ensures EstimatedPeak(bytecode, k) <= EstimatedPeak(bytecode, n)
  {
    hide DecodeAt, Estimate;
    if k < n {
      EstimatesGrow(bytecode, k, n - 1);
    }
  }

  /** The speeds of any run, also of one that traps, stay within the unwrapped estimates. */
  lemma {:induction false} RunWithinEstimate(bytecode: Bytes, k: nat, fuel: nat, sense: Sense, ctx: Option<Context>)
    requires 8 * k <= |bytecode|
    ensures var speeds := ExecStd(bytecode, k, fuel, sense, ctx).speeds;
            var n := |bytecode| / 8;
            && EstimatedTotal(bytecode, k) + Total(speeds) <= EstimatedTotal(bytecode, n)
            && AllAtMost(speeds, EstimatedPeak(bytecode, n))
    decreases |bytecode| - 8 * k
  {
    hide InstrResult, DecodeAt, Estimate, ExecStd;
    var n := |bytecode| / 8;
    EstimatesGrow(bytecode, k, n);
    StdUnfolds(bytecode, k, fuel, sense, ctx);
    if 8 * k + 8 <= |bytecode| && fuel > 0 {
      InstrWithinEstimate(bytecode, k, sense, ctx);
      EstimatesGrow(bytecode, k + 1, n);
      RunWithinEstimate(bytecode, k + 1, fuel - 1, sense, ctx);
      TotalConcat(InstrResult(bytecode, k, sense, ctx).speeds, ExecStd(bytecode, k + 1, fuel - 1, sense, ctx).speeds);
    }
  }

  /** A safe verdict bounds the current of every run, when the 32-bit sum did not wrap. */
  lemma CurrentIsBounded(bytecode: Bytes, limit: U32, fuel: nat, sense: Sense, ctx: Option<Context>)
    requires Safe(bytecode, limit) && EstimatedTotal(bytecode, |bytecode| / 8) < U32_SIZE
    ensures var speeds := ExecStd(bytecode, 0, fuel, sense, ctx).speeds;
            Total(speeds) <= limit && AllAtMost(speeds, EstimatedPeak(bytecode, |bytecode| / 8))
  {
    hide ExecStd, EstimatedPeak, AllAtMost, InBounds;
    RunWithinEstimate(bytecode, 0, fuel, sense, ctx);
  }

  /** The wrapped comparison with the limit agrees with the true one. */
  predicate ComparesRight(total: nat, limit: U32) {
    total % U32_SIZE <= limit <==> total <= limit
  }

  /** The comparison is right for every limit exactly when the sum did not wrap. */
  lemma ComparisonIsExactIff(total: nat)
    ensures (forall limit: U32 :: ComparesRight(total, limit)) <==> total < U32_SIZE
  {
    if total >= U32_SIZE {
      assert !ComparesRight(total, total % U32_SIZE);
    }
  }

  /** `n` fades to full speed. */
  function Fades(n: nat): (bytecode: Bytes)
    ensures |bytecode| == 8 * n
  {
    seq(8 * n, i requires 0 <= i => if i % 8 == 0 then 0x88 else if i % 8 == 2 then 0xFF else 0)
  }

  lemma FadeByte(n: nat, k: nat, i: nat)
    requires k < n && i < 8
    ensures Fades(n)[8 * k + i] == if i == 0 then 0x88 else if i == 2 then 0xFF else 0
  {
    assert (8 * k + i) % 8 == i;
  }

  lemma SmallHalf(f: Bytes, at: nat)
    requires at + 2 <= |f| && f[at] == 0xFF && f[at + 1] == 0
    ensures Le16(f, at) == 255
  {
    assert f[at..at + 2] == [0xFF, 0];
    assert LittleEndian([0xFF, 0]) == 0xFF;
  }

  lemma ZeroWord(f: Bytes, at: nat)
    requires at + 4 <= |f| && f[at] == f[at + 1] == f[at + 2] == f[at + 3] == 0
    ensures Le32(f, at) == 0
  {
    assert f[at..at + 4] == [0, 0, 0, 0];
    assert LittleEndian([0, 0, 0, 0]) == 0;
  }

  lemma FadeAt(n: nat, k: nat)
    requires k < n
    ensures DecodeAt(Fades(n), k) == Instr(0x88, 0, 255, 0)
  {
    hide Fades, Le16, Le32;
    FadeByte(n, k, 0);
    FadeByte(n, k, 1);
    FadeByte(n, k, 2);
    FadeByte(n, k, 3);
    FadeByte(n, k, 4);
    FadeByte(n, k, 5);
    FadeByte(n, k, 6);
    FadeByte(n, k, 7);
    SmallHalf(Fades(n), 8 * k + 2);
    ZeroWord(Fades(n), 8 * k + 4);
  }

  lemma FadeResult(n: nat, k: nat, sense: Sense, ctx: Option<Context>)
    requires k < n
    ensures InstrResult(Fades(n), k, sense, ctx) == Command(255)
  {
    FadeAt(n, k);
  }

  lemma {:induction false} FadesEstimate(n: nat, k: nat)
    requires k <= n
    ensures EstimatedTotal(Fades(n), k) == 255 * k && InBounds(Fades(n), k)
  {
    hide Fades, DecodeAt;
    if k > 0 {
      FadesEstimate(n, k - 1);
      FadeAt(n, k - 1);
    }
  }

  lemma {:induction false} FadesRun(n: nat, k: nat, fuel: nat, sense: Sense, ctx: Option<Context>)
    requires k <= n && fuel >= n - k
    ensures Total(ExecStd(Fades(n), k, fuel, sense, ctx).speeds) == 255 * (n - k)
    decreases n - k
  {
    hide Fades, DecodeAt, InstrResult, ExecStd;
    StdUnfolds(Fades(n), k, fuel, sense, ctx);
    if k < n {
      FadeResult(n, k, sense, ctx);
      FadesRun(n, k + 1, fuel - 1, sense, ctx);
      TotalConcat([255], ExecStd(Fades(n), k + 1, fuel - 1, sense, ctx).speeds);
      assert Total([255]) == 255;
    }
  }

  const WRAPPING_FADES := 16843010

  /** A wrapped sum lets a program through a limit of 254 whose run commands more than four thousand million. */
  lemma WrapFoolsVerdict(fuel: nat, sense: Sense, ctx: Option<Context>)
    requires fuel >= WRAPPING_FADES
    ensures Safe(Fades(WRAPPING_FADES), 254)
    ensures Total(ExecStd(Fades(WRAPPING_FADES), 0, fuel, sense, ctx).speeds) == 4294967550
  {
    hide Fades, EstimatedTotal, ExecStd;
    FadesEstimate(WRAPPING_FADES, WRAPPING_FADES);
    FadesRun(WRAPPING_FADES, 0, fuel, sense, ctx);
  }

  // ---------- boundaries ----------

  /** Opcodes in the accepted range that the executor has no arm for: two never have one, two only with the clock. */
  predicate Armless(ins: Instr, s: Sensing) {
    ins.opcode in {0x82, 0x85} || (ins.opcode in {0x86, 0x8B} && s.clock.Absent?)
  }

  /**
   * An instruction is flagged, or has no arm, exactly when it is refused whatever else it observes, and then no motor
   * command precedes the refusal.
   */
  lemma FlaggedIffRefused(bytecode: Bytes, k: nat, sense: Sense, ctx: Option<Context>)
    requires 8 * k + 8 <= |bytecode|
    ensures var ins := DecodeAt(bytecode, k);
            var r, armless := InstrResult(bytecode, k, sense, ctx), Armless(ins, sense(k, ins.pin));
            && (Flagged(ins) || armless <==> r.error in {Some(UnauthorizedAccess), Some(InvalidStdOpCode)})
            && (Flagged(ins) || armless ==> r.speeds == [] && r.sent == [])
            && (r.error == Some(UnauthorizedAccess) ==> Flagged(ins))
            && (r.error == Some(InvalidStdOpCode) <==> ins.pin < 32 && (BadOpcode(ins) || armless))
  {
    hide DecodeAt, Consensus, BandHazard;
  }

  /**
   * No run gets past a flagged instruction or one without an arm, a run without an error gets to the end, and a boundary
   * error names the instruction that is to blame.
   */
  lemma {:induction false} RunStopsAtFlag(bytecode: Bytes, k: nat, fuel: nat, sense: Sense, ctx: Option<Context>)
    ensures var o := ExecStd(bytecode, k, fuel, sense, ctx);
            && k <= o.stop
            && (forall j {:trigger DecodeAt(bytecode, j)} | k <= j < o.stop && 8 * j + 8 <= |bytecode| ::
                  var ins := DecodeAt(bytecode, j); !Flagged(ins) && !Armless(ins, sense(j, ins.pin)))
            && (o.error == None ==> 8 * o.stop + 8 > |bytecode|)
            && (o.error == Some(UnauthorizedAccess) ==>
                  8 * o.stop + 8 <= |bytecode| && Flagged(DecodeAt(bytecode, o.stop)))
            && (o.error == Some(InvalidStdOpCode) <==>
                  && 8 * o.stop + 8 <= |bytecode| && !o.recorded
                  && var ins := DecodeAt(bytecode, o.stop); BadOpcode(ins) || Armless(ins, sense(o.stop, ins.pin)))
    decreases |bytecode| - 8 * k
  {
    hide StepSpec, DecodeAt, Flagged, BadOpcode, Armless, InstrResult;
    StdUnfolds(bytecode, k, fuel, sense, ctx);
    if 8 * k + 8 <= |bytecode| {
      FlaggedIffRefused(bytecode, k, sense, ctx);
      if fuel > 0 {
        RunStopsAtFlag(bytecode, k + 1, fuel - 1, sense, ctx);
      }
    }
  }

  /**
   * Verified bytecode never hits a boundary; what it can still hit, and does when it gets there, is an opcode without an
   * arm.
   */
  lemma VerifiedRunsAuthorized(bytecode: Bytes, limit: U32, fuel: nat, sense: Sense, ctx: Option<Context>)
    requires Safe(bytecode, limit)
    ensures var o := ExecStd(bytecode, 0, fuel, sense, ctx);
            && o.error != Some(UnauthorizedAccess)
            && (o.error == Some(InvalidStdOpCode) <==>
                  && 8 * o.stop + 8 <= |bytecode| && !o.recorded
                  && var ins := DecodeAt(bytecode, o.stop); Armless(ins, sense(o.stop, ins.pin)))
  {
    hide ExecStd, DecodeAt;
    RunStopsAtFlag(bytecode, 0, fuel, sense, ctx);
  }

  /** Which opcodes those are, build by build; without the clock nothing is left that can say `OutOfFuel` either. */
  lemma VerifiedRunsByBuild(bytecode: Bytes, limit: U32, fuel: nat, sense: Sense, ctx: Option<Context>, clock: bool)
    requires Safe(bytecode, limit) && Built(sense, clock)
    ensures var o := ExecStd(bytecode, 0, fuel, sense, ctx);
            && (o.error == Some(InvalidStdOpCode) ==>
                  && 8 * o.stop + 8 <= |bytecode|
                  && DecodeAt(bytecode, o.stop).opcode in if clock then {0x82, 0x85} else {0x82, 0x85, 0x86, 0x8B})
            && (!clock && fuel >= |bytecode| / 8 ==> o.error != Some(OutOfFuel))
  {
    hide ExecStd, DecodeAt, Safe;
    VerifiedRunsAuthorized(bytecode, limit, fuel, sense, ctx);
    if fuel >= |bytecode| / 8 {
      InstructionCountSuffices(bytecode, 0, fuel, sense, ctx);
    }
  }

  lemma LoneArmlessPasses(code: Bytes, limit: U32)
    requires |code| == 8 && DecodeAt(code, 0).opcode in {0x82, 0x85, 0x86, 0x8B} && DecodeAt(code, 0).pin < 32
    ensures Safe(code, limit)
  {
    hide DecodeAt;
    assert EstimatedTotal(code, 1) == 0;
  }

  /** Each of them, alone, passes the verifier at every limit, and every run of it is refused. */
  lemma ArmlessFoolsVerdict(code: Bytes, limit: U32, fuel: nat, sense: Sense, ctx: Option<Context>)
    requires |code| == 8 && code[1] < 32 && fuel > 0
    requires code[0] in {0x82, 0x85} || (code[0] in {0x86, 0x8B} && sense(0, code[1]).clock.Absent?)
    ensures Safe(code, limit)
    ensures ExecStd(code, 0, fuel, sense, ctx).error == Some(InvalidStdOpCode)
  {
    assert DecodeAt(code, 0).opcode == code[0] && DecodeAt(code, 0).pin == code[1];
    hide DecodeAt, ExecStd, InstrResult, Safe;
    LoneArmlessPasses(code, limit);
    StdUnfolds(code, 0, fuel, sense, ctx);
    FlaggedIffRefused(code, 0, sense, ctx);
  }

  // ---------- scripts ----------

  predicate ScriptFlagged(step: VmStep) {
    match step
    case SetPwm(channel, _) => channel >= 8
    case AssertOrYield(pin, _) => pin >= 32
    case Delay(_) => false
  }

  function ScriptSpeeds(steps: seq<VmStep>): seq<byte> {
    if steps == [] then [] else Commanded(steps[0]) + ScriptSpeeds(steps[1..])
  }

  function PeakOf(speeds: seq<byte>): byte {
    if speeds == [] then 0 else Max(speeds[0], PeakOf(speeds[1..]))
  }

  function ScriptViolations(steps: seq<VmStep>): nat {
    if steps == [] then 0 else (if ScriptFlagged(steps[0]) then 1 else 0) + ScriptViolations(steps[1..])
  }

  ghost predicate ScriptSafe(steps: seq<VmStep>, limit: U32) {
    (forall s | s in steps :: !ScriptFlagged(s)) && Total(ScriptSpeeds(steps)) % U32_SIZE <= limit
  }

  lemma {:induction false} NoViolationsIff(steps: seq<VmStep>)
    ensures ScriptViolations(steps) == 0 <==> forall s | s in steps :: !ScriptFlagged(s)
  {
    if steps != [] {
      NoViolationsIff(steps[1..]);
      assert steps == [steps[0]] + steps[1..];
    }
  }

  method ScriptBoundaryCheck(steps: seq<VmStep>) returns (safe: bool, violations: nat)
    ensures violations == ScriptViolations(steps)
    ensures safe <==> forall s | s in steps :: !ScriptFlagged(s)
  {
    safe, violations := true, 0;
    for i := 0 to |steps|
      invariant safe <==> violations == 0
      invariant violations + ScriptViolations(steps[i..]) == ScriptViolations(steps)
    {
      assert steps[i..][1..] == steps[i + 1..];
      match steps[i] {
        case SetPwm(channel, _) =>
          if channel >= 8 {
            safe := false;
            violations := violations + 1;
          }
        case AssertOrYield(pin, _) =>
          if pin >= 32 {
            safe := false;
            violations := violations + 1;
          }
        case Delay(_) =>
      }
    }
    NoViolationsIff(steps);
  }

  method ScriptCurrentDraw(steps: seq<VmStep>) returns (cumulative: U32, peak: byte)
    ensures cumulative == Total(ScriptSpeeds(steps)) % U32_SIZE && peak == PeakOf(ScriptSpeeds(steps))
  {
    cumulative, peak := 0, 0;
    ghost var sum: nat := 0;
    for i := 0 to |steps|
      invariant cumulative == sum % U32_SIZE
      invariant sum + Total(ScriptSpeeds(steps[i..])) == Total(ScriptSpeeds(steps))
      invariant Max(peak, PeakOf(ScriptSpeeds(steps[i..]))) == PeakOf(ScriptSpeeds(steps))
    {
      assert steps[i..][1..] == steps[i + 1..];
      ghost var rest := ScriptSpeeds(steps[i + 1..]);
      if steps[i].SetPwm? {
        var s := steps[i].speed;
        assert ([s] + rest)[1..] == rest;
        WrappedSum(sum, s);
        cumulative := (cumulative + s) % U32_SIZE;
        sum := sum + s;
        if s > peak {
          peak := s;
        }
      } else {
        assert [] + rest == rest;
      }
    }
  }

  method VerifyVmScript(steps: seq<VmStep>, limit: U32) returns (r: Report)
    ensures r.safe <==> ScriptSafe(steps, limit)
    ensures r.pinViolations == ScriptViolations(steps)
    ensures r.cumulative == Total(ScriptSpeeds(steps)) % U32_SIZE && r.peak == PeakOf(ScriptSpeeds(steps))
  {
    var safe, violations := ScriptBoundaryCheck(steps);
    var cumulative, peak := ScriptCurrentDraw(steps);
    return Report(safe && cumulative <= limit, violations, 0, cumulative, peak);
  }

  /** A run commands a prefix of the script's speeds, all of them when it completes. */
  lemma {:induction false} RunIsPrefix(steps: seq<VmStep>, i: nat, fuel: nat, pins: Pins)
    requires i <= |steps|
    ensures var o := Exec(Lift(steps), i, fuel, pins);
            && o.speeds <= ScriptSpeeds(steps[i..])
            && (o.error == None ==> o.speeds == ScriptSpeeds(steps[i..]))
            && ((forall s | s in steps :: !ScriptFlagged(s)) ==> o.error != Some(UnauthorizedAccess) && o.error != Some(BufferOverflow))
    decreases |steps| - i
  {
    ExecUnfolds(Lift(steps), i, fuel, pins);
    if i < |steps| {
      assert steps[i..][1..] == steps[i + 1..];
      assert steps[i] in steps;
      if fuel > 0 && StepError(Lift(steps), i, pins).None? {
        RunIsPrefix(steps, i + 1, Left(steps[i], fuel), pins);
      }
    }
  }

  lemma TotalOfPrefix(a: seq<byte>, b: seq<byte>)
    requires a <= b
    ensures Total(a) <= Total(b)
  {
    assert b == a + b[|a|..];
    TotalConcat(a, b[|a|..]);
  }

  lemma {:induction false} PeakCovers(speeds: seq<byte>)
    ensures AllAtMost(speeds, PeakOf(speeds))
  {
    if speeds != [] {
      PeakCovers(speeds[1..]);
      assert speeds == [speeds[0]] + speeds[1..];
    }
  }

  /** A verified script is never refused, whatever the sum. */
  lemma ScriptRunsAuthorized(steps: seq<VmStep>, limit: U32, fuel: nat, pins: Pins)
    requires ScriptSafe(steps, limit)
    ensures Exec(Lift(steps), 0, fuel, pins).error !in {Some(UnauthorizedAccess), Some(BufferOverflow)}
  {
    RunIsPrefix(steps, 0, fuel, pins);
  }

  /** Its current stays within limit and peak when the sum did not wrap. */
  lemma ScriptVerdictIsSound(steps: seq<VmStep>, limit: U32, fuel: nat, pins: Pins)
    requires ScriptSafe(steps, limit) && Total(ScriptSpeeds(steps)) < U32_SIZE
    ensures var o := Exec(Lift(steps), 0, fuel, pins);
            Total(o.speeds) <= limit && AllAtMost(o.speeds, PeakOf(ScriptSpeeds(steps)))
  {
    RunIsPrefix(steps, 0, fuel, pins);
    assert steps[0..] == steps;
    var o := Exec(Lift(steps), 0, fuel, pins);
    TotalOfPrefix(o.speeds, ScriptSpeeds(steps));
    PeakCovers(ScriptSpeeds(steps));
  }

  /** A step is flagged exactly when, run alone, it is refused. */
  lemma ScriptFlaggedIff(step: VmStep, fuel: nat, pins: Pins)
    requires fuel > 0
    ensures ScriptFlagged(step) <==> Exec([Some(step)], 0, fuel, pins).error == Some(UnauthorizedAccess)
  {
    SingleStep(step, fuel, pins);
  }

  lemma OneMoreFlagged(steps: seq<VmStep>, n: nat)
    requires 0 < n <= |steps|
    ensures |set i | 0 <= i < n && ScriptFlagged(steps[i])|
         == |set i | 0 <= i < n - 1 && ScriptFlagged(steps[i])| + if ScriptFlagged(steps[n - 1]) then 1 else 0
  {
    hide ScriptFlagged;
    var front, whole := set i | 0 <= i < n - 1 && ScriptFlagged(steps[i]), set i | 0 <= i < n && ScriptFlagged(steps[i]);
    assert whole == if ScriptFlagged(steps[n - 1]) then front + {n - 1} else front;
  }

  /** The violations are the flagged steps, counted, and the peak is one of the speeds, if there is any. */
  lemma {:induction false} ScriptCounters(steps: seq<VmStep>, n: nat)
    requires n <= |steps|
    ensures ScriptViolations(steps[..n]) == |set i | 0 <= i < n && ScriptFlagged(steps[i])|
  {
    if n > 0 {
      hide ScriptFlagged;
      ScriptCounters(steps, n - 1);
      assert steps[..n] == steps[..n - 1] + [steps[n - 1]];
      ViolationsConcat(steps[..n - 1], [steps[n - 1]]);
      OneMoreFlagged(steps, n);
    }
  }

  lemma {:induction false} ViolationsConcat(a: seq<VmStep>, b: seq<VmStep>)
    ensures ScriptViolations(a + b) == ScriptViolations(a) + ScriptViolations(b)
  {
    if a == [] {
      assert a + b == b;
    } else {
      assert (a + b)[1..] == a[1..] + b;
      ViolationsConcat(a[1..], b);
    }
  }

  lemma {:induction false} PeakIsSpeed(speeds: seq<byte>)
    ensures speeds == [] ==> PeakOf(speeds) == 0
    ensures speeds != [] ==> PeakOf(speeds) in speeds
  {
    if speeds != [] {
      PeakIsSpeed(speeds[1..]);
      assert speeds == [speeds[0]] + speeds[1..];
    }
  }
}
