/** The verifier's estimate is the least that is sound, and what a verdict says of a program's opcodes. */
module Estimates {
  import opened Wrappers
  import opened Bytes
  import opened VmTypes
  import opened Gossip
  import opened RangingFilter
  import opened StdStep
  import opened StdRun
  import opened Vm
  import opened Verifier

  // ---------- one instruction ----------

  /** Operands under which every opcode commands as much as it can. */
  function Greedy(opcode: byte): Instr {
    Instr(opcode, 0, 255, 0xFF00_0000)
  }

  /** Readings under which it does: no hazard, a full-scale control error, a peak on the resonance, the clock on time. */
  function Calm(): Sensing {
    Sensing(seq(256, _ => -9000), 255, 0, 0, 1, 0, false, OnTime)
  }

  lemma {:induction false} ConstantSum(v: int, n: nat)
    ensures Sum(seq(n, _ => v)) == v * n
  {
    if n > 0 {
      assert seq(n, _ => v)[..n - 1] == seq(n - 1, _ => v);
      ConstantSum(v, n - 1);
    }
  }

  lemma GreedyControl(opcode: byte)
    ensures PidError(Greedy(opcode), Calm()) == 9255 && PidSpeed(Greedy(opcode), Calm()) == 255
  {
    ConstantSum(-9000, 256);
    assert Sum(Calm().samples) == -9000 * 256;
  }

  lemma CalmRanging()
    ensures !RangingTrips(Calm().samples, 255, 0xFF00_0000)
  {
    ThresholdExtremes(Calm().samples, 255, 0xFF00_0000);
  }

  /** Every opcode with an arm can command exactly its estimate, without an error; so no smaller estimate is sound. */
  lemma EstimateIsReached(opcode: byte, ctx: Option<Context>)
    requires 0x80 <= opcode <= 0x8C && opcode != 0x82 && opcode != 0x85
    ensures !Flagged(Greedy(opcode))
    ensures var r := StepSpec(Greedy(opcode), Calm(), ctx);
            r.error == None && Total(r.speeds) == Estimate(opcode)
            && Total(r.speeds) == if opcode == 0x81 then 110 else if opcode == 0x84 then 115
                                  else if opcode == 0x88 || opcode == 0x8A then 255 else 0
  {
    hide Sum, RangingTrips, PidSpeed, PidError;
    GreedyControl(opcode);
    CalmRanging();
    var v := StepSpec(Greedy(opcode), Calm(), ctx).speeds;
    if |v| == 1 {
      assert v[1..] == [];
    }
  }

  // ---------- whole programs ----------

  /** The same opcodes, and any operands. */
  ghost predicate SameOpcodes(a: Bytes, b: Bytes) {
    |a| == |b| && forall k {:trigger DecodeAt(a, k)} | 0 <= k && 8 * k + 8 <= |b| :: DecodeAt(a, k).opcode == DecodeAt(b, k).opcode
  }

  /** Whatever operands its opcodes are given, and whatever they sense, no run commands more. */
  ghost predicate NeverExceeds(bytecode: Bytes, limit: nat) {
    forall other, fuel, sense, ctx | SameOpcodes(other, bytecode) ::
      Total(ExecStd(other, 0, fuel, sense, ctx).speeds) <= limit
  }

  /** An opcode that no build executes. */
  predicate Dead(opcode: byte) {
    opcode < 0x80 || opcode > 0x8C || opcode == 0x82 || opcode == 0x85
  }

  /** How far runs get: the first instruction from `k` on that nothing executes, or the end. */
  function Reach(bytecode: Bytes, k: nat): (r: nat)
    requires 8 * k <= |bytecode|
    ensures k <= r && 8 * r <= |bytecode|
    decreases |bytecode| - 8 * k
  {
    if 8 * k + 8 > |bytecode| || Dead(DecodeAt(bytecode, k).opcode) then k else Reach(bytecode, k + 1)
  }

  lemma {:induction false} SameEstimates(a: Bytes, b: Bytes, k: nat)
    requires SameOpcodes(a, b) && 8 * k <= |a|
    ensures EstimatedTotal(a, k) == EstimatedTotal(b, k)
  {
    hide DecodeAt, Estimate;
    if k > 0 {
      SameEstimates(a, b, k - 1);
      assert DecodeAt(a, k - 1).opcode == DecodeAt(b, k - 1).opcode;
    }
  }

  lemma {:induction false} SameReach(a: Bytes, b: Bytes, k: nat)
    requires SameOpcodes(a, b) && 8 * k <= |a|
    ensures Reach(a, k) == Reach(b, k)
    decreases |a| - 8 * k
  {
    hide DecodeAt;
    if 8 * k + 8 <= |a| {
      assert DecodeAt(a, k).opcode == DecodeAt(b, k).opcode;
      SameReach(a, b, k + 1);
    }
  }

  lemma DeadIsRefused(bytecode: Bytes, k: nat, sense: Sense, ctx: Option<Context>)
    requires 8 * k + 8 <= |bytecode| && Dead(DecodeAt(bytecode, k).opcode)
    ensures var r := InstrResult(bytecode, k, sense, ctx); r.error.Some? && r.speeds == []
  {
    hide DecodeAt, InstrResult;
    FlaggedIffRefused(bytecode, k, sense, ctx);
  }

  lemma TotalOfNothing()
    ensures Total([]) == 0
  {}

  /** No run commands more than the estimates of the instructions it can reach. */
  lemma {:induction false} RunWithinReach(bytecode: Bytes, k: nat, fuel: nat, sense: Sense, ctx: Option<Context>)
    requires 8 * k <= |bytecode|
    ensures EstimatedTotal(bytecode, k) + Total(ExecStd(bytecode, k, fuel, sense, ctx).speeds)
         <= EstimatedTotal(bytecode, Reach(bytecode, k))
    decreases |bytecode| - 8 * k
  {
    hide InstrResult, DecodeAt, Estimate, ExecStd, Dead, Total;
    TotalOfNothing();
    StdUnfolds(bytecode, k, fuel, sense, ctx);
    EstimatesGrow(bytecode, k, Reach(bytecode, k));
    if 8 * k + 8 <= |bytecode| && fuel > 0 {
      if Dead(DecodeAt(bytecode, k).opcode) {
        DeadIsRefused(bytecode, k, sense, ctx);
      } else {
        InstrWithinEstimate(bytecode, k, sense, ctx);
        EstimatesGrow(bytecode, k + 1, Reach(bytecode, k + 1));
        RunWithinReach(bytecode, k + 1, fuel - 1, sense, ctx);
        TotalConcat(InstrResult(bytecode, k, sense, ctx).speeds, ExecStd(bytecode, k + 1, fuel - 1, sense, ctx).speeds);
      }
    }
  }

  // ---------- the greediest program of given opcodes ----------

  function GreedyProgram(bytecode: Bytes): (r: Bytes)
    ensures |r| == |bytecode|
  {
    seq(|bytecode|, i requires 0 <= i < |bytecode| =>
      if i % 8 == 0 then bytecode[i] else if i % 8 == 2 || i % 8 == 7 then 255 else 0)
  }

  lemma GreedyByte(bytecode: Bytes, k: nat, i: nat)
    requires 8 * k + 8 <= |bytecode| && i < 8
    ensures GreedyProgram(bytecode)[8 * k + i] == if i == 0 then bytecode[8 * k] else if i == 2 || i == 7 then 255 else 0
  {
    assert (8 * k + i) % 8 == i;
  }

  lemma GreedyAt(bytecode: Bytes, k: nat)
    requires 8 * k + 8 <= |bytecode|
    ensures DecodeAt(GreedyProgram(bytecode), k) == Greedy(DecodeAt(bytecode, k).opcode)
  {
    hide GreedyProgram, Le16, Le32;
    var g := GreedyProgram(bytecode);
    GreedyByte(bytecode, k, 0);
    GreedyByte(bytecode, k, 1);
    GreedyByte(bytecode, k, 2);
    GreedyByte(bytecode, k, 3);
    GreedyByte(bytecode, k, 4);
    GreedyByte(bytecode, k, 5);
    GreedyByte(bytecode, k, 6);
    GreedyByte(bytecode, k, 7);
    LowestFirst(g, 8 * k + 2);
    LowestFirst(g, 8 * k + 4);
  }

  lemma GreedySame(bytecode: Bytes)
    ensures SameOpcodes(GreedyProgram(bytecode), bytecode)
  {
    hide GreedyProgram, DecodeAt;
    forall k {:trigger DecodeAt(GreedyProgram(bytecode), k)} | 0 <= k && 8 * k + 8 <= |bytecode|
      ensures DecodeAt(GreedyProgram(bytecode), k).opcode == DecodeAt(bytecode, k).opcode
    {
      GreedyAt(bytecode, k);
    }
  }

  function Calmly(): Sense {
    (k, pin) => Calm()
  }

  lemma GreedyStep(bytecode: Bytes, k: nat, ctx: Option<Context>)
    requires 8 * k + 8 <= |bytecode| && !Dead(DecodeAt(bytecode, k).opcode)
    ensures var r := InstrResult(GreedyProgram(bytecode), k, Calmly(), ctx);
            r.error == None && Total(r.speeds) == Estimate(DecodeAt(bytecode, k).opcode)
  {
    hide StepSpec, DecodeAt, GreedyProgram, Calm, Estimate, Total;
    GreedyAt(bytecode, k);
    EstimateIsReached(DecodeAt(bytecode, k).opcode, ctx);
  }

  /** Its calm run commands exactly the estimates of the instructions it can reach. */
  lemma {:induction false} GreedyRun(bytecode: Bytes, k: nat, fuel: nat, ctx: Option<Context>)
    requires 8 * k <= |bytecode| && k + fuel >= |bytecode| / 8
    ensures EstimatedTotal(bytecode, k) + Total(ExecStd(GreedyProgram(bytecode), k, fuel, Calmly(), ctx).speeds)
         == EstimatedTotal(bytecode, Reach(bytecode, k))
    decreases |bytecode| - 8 * k
  {
    hide InstrResult, DecodeAt, Estimate, ExecStd, Dead, Total, GreedyProgram, Calmly;
    var g := GreedyProgram(bytecode);
    TotalOfNothing();
    StdUnfolds(g, k, fuel, Calmly(), ctx);
    if 8 * k + 8 <= |bytecode| {
      GreedySame(bytecode);
      assert DecodeAt(g, k).opcode == DecodeAt(bytecode, k).opcode;
      if Dead(DecodeAt(bytecode, k).opcode) {
        DeadIsRefused(g, k, Calmly(), ctx);
      } else {
        GreedyStep(bytecode, k, ctx);
        GreedyRun(bytecode, k + 1, fuel - 1, ctx);
        TotalConcat(InstrResult(g, k, Calmly(), ctx).speeds, ExecStd(g, k + 1, fuel - 1, Calmly(), ctx).speeds);
      }
    }
  }

  // ---------- what a verdict says ----------

  /** The estimate of the reachable part is the least bound on what programs with these opcodes command. */
  lemma LeastBound(bytecode: Bytes, limit: nat)
    ensures NeverExceeds(bytecode, limit) <==> EstimatedTotal(bytecode, Reach(bytecode, 0)) <= limit
  {
    hide ExecStd, Reach, Total, SameOpcodes, GreedyProgram, Calmly;
    GreedySame(bytecode);
    GreedyRun(bytecode, 0, |bytecode| / 8, None);
    assert EstimatedTotal(bytecode, 0) == 0;
    if EstimatedTotal(bytecode, Reach(bytecode, 0)) <= limit {
      forall other, fuel, sense, ctx | SameOpcodes(other, bytecode)
        ensures Total(ExecStd(other, 0, fuel, sense, ctx).speeds) <= limit
      {
        OtherWithinReach(bytecode, other, fuel, sense, ctx);
      }
    } else {
      assert !(Total(ExecStd(GreedyProgram(bytecode), 0, |bytecode| / 8, Calmly(), None).speeds) <= limit);
    }
  }

  lemma OtherWithinReach(bytecode: Bytes, other: Bytes, fuel: nat, sense: Sense, ctx: Option<Context>)
    requires SameOpcodes(other, bytecode)
    ensures Total(ExecStd(other, 0, fuel, sense, ctx).speeds) <= EstimatedTotal(bytecode, Reach(bytecode, 0))
  {
    hide ExecStd, Total, Estimate, DecodeAt;
    RunWithinReach(other, 0, fuel, sense, ctx);
    SameReach(other, bytecode, 0);
    SameEstimates(other, bytecode, Reach(bytecode, 0));
  }

  /**
   * An aligned, unflagged program whose sum did not wrap and whose opcodes all have arms is safe exactly when no choice of
   * operands and readings makes it command more than the limit.
   */
  lemma SafeIff(bytecode: Bytes, limit: U32)
    requires |bytecode| % 8 == 0 && EstimatedTotal(bytecode, |bytecode| / 8) < 0x1_0000_0000
    requires forall k {:trigger DecodeAt(bytecode, k)} | 0 <= k && 8 * k + 8 <= |bytecode| ::
               !Flagged(DecodeAt(bytecode, k)) && DecodeAt(bytecode, k).opcode !in {0x82, 0x85}
    ensures Safe(bytecode, limit) <==> NeverExceeds(bytecode, limit)
  {
    hide NeverExceeds, DecodeAt, EstimatedTotal;
    LeastBound(bytecode, limit);
    AllReached(bytecode, 0);
  }

  lemma {:induction false} AllReached(bytecode: Bytes, k: nat)
    requires 8 * k <= |bytecode|
    requires forall j {:trigger DecodeAt(bytecode, j)} | 0 <= j && 8 * j + 8 <= |bytecode| :: !Dead(DecodeAt(bytecode, j).opcode)
    ensures Reach(bytecode, k) == |bytecode| / 8
    decreases |bytecode| - 8 * k
  {
    hide DecodeAt, Dead;
    if 8 * k + 8 <= |bytecode| {
      AllReached(bytecode, k + 1);
    }
  }

  lemma VerdictAt(bytecode: Bytes, limit: U32)
    requires |bytecode| % 8 == 0 && InBounds(bytecode, |bytecode| / 8)
    requires EstimatedTotal(bytecode, |bytecode| / 8) < 0x1_0000_0000
    ensures Safe(bytecode, limit) <==> EstimatedTotal(bytecode, |bytecode| / 8) <= limit
    ensures NeverExceeds(bytecode, limit) <==> EstimatedTotal(bytecode, Reach(bytecode, 0)) <= limit
  {
    hide NeverExceeds, InBounds, EstimatedTotal, Reach;
    LeastBound(bytecode, limit);
  }

  /** With an opcode that nothing executes, the verdict is exact at every limit only if nothing behind it is estimated. */
  lemma VerdictIsExactIff(bytecode: Bytes)
    requires |bytecode| % 8 == 0 && InBounds(bytecode, |bytecode| / 8)
    requires EstimatedTotal(bytecode, |bytecode| / 8) < 0x1_0000_0000
    ensures (forall limit: U32 :: Safe(bytecode, limit) <==> NeverExceeds(bytecode, limit))
            <==> EstimatedTotal(bytecode, Reach(bytecode, 0)) == EstimatedTotal(bytecode, |bytecode| / 8)
  {
    hide NeverExceeds, InBounds, EstimatedTotal, Reach, Safe;
    var reached, all := EstimatedTotal(bytecode, Reach(bytecode, 0)), EstimatedTotal(bytecode, |bytecode| / 8);
    EstimatesGrow(bytecode, Reach(bytecode, 0), |bytecode| / 8);
    if reached < all {
      VerdictAt(bytecode, reached);
      assert !(Safe(bytecode, reached) <==> NeverExceeds(bytecode, reached));
    } else {
      forall limit: U32
        ensures Safe(bytecode, limit) <==> NeverExceeds(bytecode, limit)
      {
        VerdictAt(bytecode, limit);
      }
    }
  }

  /** Bytecode that is not a whole number of instructions is never safe. */
  lemma MisalignedIsUnsafe(bytecode: Bytes, limit: U32)
    ensures Safe(bytecode, limit) ==> |bytecode| % 8 == 0
  {}

  /** So it is not for this program: an opcode without an arm, then a fade. It commands nothing, and is refused below 255. */
  lemma DeadCodeCounts()
    ensures var bytecode := [0x82, 0, 0, 0, 0, 0, 0, 0, 0x88, 0, 255, 0, 0, 0, 0, 0];
            NeverExceeds(bytecode, 0) && !Safe(bytecode, 254)
  {
    hide NeverExceeds, Le16, Le32;
    var bytecode: Bytes := [0x82, 0, 0, 0, 0, 0, 0, 0, 0x88, 0, 255, 0, 0, 0, 0, 0];
    assert DecodeAt(bytecode, 0).opcode == 0x82 && DecodeAt(bytecode, 1).opcode == 0x88;
    assert Reach(bytecode, 0) == 0;
    assert EstimatedTotal(bytecode, 1) == 0 && EstimatedTotal(bytecode, 2) == 255;
    LeastBound(bytecode, 0);
  }

  /** The peak is one of the estimates, or 0. */
  lemma {:induction false} PeakIsReached(bytecode: Bytes, k: nat)
    requires 8 * k <= |bytecode|
    ensures EstimatedPeak(bytecode, k) == 0
            || exists j {:trigger DecodeAt(bytecode, j)} | 0 <= j < k ::
                 EstimatedPeak(bytecode, k) == Estimate(DecodeAt(bytecode, j).opcode)
  {
    hide DecodeAt, Estimate;
    if k > 0 {
      PeakIsReached(bytecode, k - 1);
    }
  }

  // ---------- scripts ----------

  /** Pins that read what each step of the script expects. */
  function Obliging(steps: seq<VmStep>): Pins {
    (i: nat, pin: byte) => if i < |steps| && steps[i].AssertOrYield? then steps[i].expected else 0
  }

  lemma ObligedCompletes(steps: seq<VmStep>)
    requires forall s | s in steps :: !ScriptFlagged(s)
    ensures Exec(Lift(steps), 0, 1 + TotalCost(steps), Obliging(steps)).error == None
  {
    hide Exec;
    forall i | 0 <= i < |steps|
      ensures StepError(Lift(steps), i, Obliging(steps)).None?
    {
      assert steps[i] in steps;
    }
    CompletesIff(steps, 1 + TotalCost(steps), Obliging(steps));
    if steps != [] {
      CostOfFront(steps);
    }
  }

  lemma {:induction false} CostOfFront(steps: seq<VmStep>)
    requires steps != []
    ensures TotalCost(steps[..|steps| - 1]) <= TotalCost(steps)
  {
    if |steps| > 1 {
      assert steps[..|steps| - 1][1..] == steps[1..][..|steps| - 2];
      CostOfFront(steps[1..]);
    }
  }

  /** A script whose sum did not wrap is safe exactly when no step alone is refused and no run commands more than the limit. */
  lemma ScriptSafeIff(steps: seq<VmStep>, limit: U32)
    requires Total(ScriptSpeeds(steps)) < 0x1_0000_0000
    ensures ScriptSafe(steps, limit) <==>
              && (forall step | step in steps :: !ScriptFlagged(step))
              && forall fuel, pins :: Total(Exec(Lift(steps), 0, fuel, pins).speeds) <= limit
  {
    hide Exec, Total, ScriptSpeeds, ScriptFlagged, TotalCost, Obliging;
    if forall step | step in steps :: !ScriptFlagged(step) {
      ObligedCompletes(steps);
      RunIsPrefix(steps, 0, 1 + TotalCost(steps), Obliging(steps));
      assert steps[0..] == steps;
      assert Exec(Lift(steps), 0, 1 + TotalCost(steps), Obliging(steps)).speeds == ScriptSpeeds(steps);
      forall fuel, pins
        ensures Total(Exec(Lift(steps), 0, fuel, pins).speeds) <= Total(ScriptSpeeds(steps))
      {
        RunIsPrefix(steps, 0, fuel, pins);
        TotalOfPrefix(Exec(Lift(steps), 0, fuel, pins).speeds, ScriptSpeeds(steps));
      }
    }
  }

  // ---------- the counters ----------

  function BadPins(bytecode: Bytes, n: nat): set<nat>
    requires 8 * n <= |bytecode|
  {
    set k: nat {:trigger DecodeAt(bytecode, k)} | 0 <= k < n && DecodeAt(bytecode, k).pin >= 32
  }

  /** The motor channel lies in another place for each of the three opcodes that have one. */
  function BadChannels(bytecode: Bytes, n: nat): set<nat>
    requires 8 * n <= |bytecode|
  {
    set k: nat {:trigger DecodeAt(bytecode, k)} | 0 <= k < n &&
      var ins := DecodeAt(bytecode, k);
      (ins.opcode == 0x81 && ins.b / 0x1_0000 % 0x100 >= 8) || (ins.opcode == 0x84 && ins.a / 0x100 >= 8)
      || (ins.opcode == 0x8A && ins.b % 0x100 >= 8)
  }

  function BadOpcodes(bytecode: Bytes, n: nat): set<nat>
    requires 8 * n <= |bytecode|
  {
    set k: nat {:trigger DecodeAt(bytecode, k)} | 0 <= k < n && !(0x80 <= DecodeAt(bytecode, k).opcode <= 0x8C)
  }

  lemma PinsStep(bytecode: Bytes, k: nat)
    requires 8 * k + 8 <= |bytecode|
    ensures |BadPins(bytecode, k + 1)| == |BadPins(bytecode, k)| + if DecodeAt(bytecode, k).pin >= 32 then 1 else 0
  {
    hide DecodeAt;
    assert BadPins(bytecode, k + 1) == BadPins(bytecode, k) + if DecodeAt(bytecode, k).pin >= 32 then {k} else {};
  }

  lemma ChannelsStep(bytecode: Bytes, k: nat)
    requires 8 * k + 8 <= |bytecode|
    ensures |BadChannels(bytecode, k + 1)| == |BadChannels(bytecode, k)| + if BadChannel(DecodeAt(bytecode, k)) then 1 else 0
  {
    hide DecodeAt;
    var ins := DecodeAt(bytecode, k);
    assert BadChannel(ins) <==>
      (ins.opcode == 0x81 && ins.b / 0x1_0000 % 0x100 >= 8) || (ins.opcode == 0x84 && ins.a / 0x100 >= 8)
      || (ins.opcode == 0x8A && ins.b % 0x100 >= 8);
    assert BadChannels(bytecode, k + 1) == BadChannels(bytecode, k) + if BadChannel(ins) then {k} else {};
  }

  lemma OpcodesStep(bytecode: Bytes, k: nat)
    requires 8 * k + 8 <= |bytecode|
    ensures |BadOpcodes(bytecode, k + 1)| == |BadOpcodes(bytecode, k)| + if BadOpcode(DecodeAt(bytecode, k)) then 1 else 0
  {
    hide DecodeAt;
    assert BadOpcodes(bytecode, k + 1) == BadOpcodes(bytecode, k) + if BadOpcode(DecodeAt(bytecode, k)) then {k} else {};
  }

  lemma NothingCounted(bytecode: Bytes)
    ensures BadPins(bytecode, 0) == BadChannels(bytecode, 0) == BadOpcodes(bytecode, 0) == {}
  {
    hide DecodeAt;
  }

  /** The counters count: each instruction once for its pin and once for its channel, and once for its opcode. */
  lemma {:induction false} CountersCount(bytecode: Bytes, n: nat)
    requires 8 * n <= |bytecode|
    ensures PinViolations(bytecode, n) == |BadPins(bytecode, n)| + |BadChannels(bytecode, n)|
    ensures OpViolations(bytecode, n) == |BadOpcodes(bytecode, n)|
  {
    hide DecodeAt, BadChannel, BadOpcode, BadPins, BadChannels, BadOpcodes;
    if n == 0 {
      NothingCounted(bytecode);
    } else {
      CountersCount(bytecode, n - 1);
      PinsStep(bytecode, n - 1);
      ChannelsStep(bytecode, n - 1);
      OpcodesStep(bytecode, n - 1);
    }
  }
}
