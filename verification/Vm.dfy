/** The script executor: fuel, traps and motor commands of `MicroVm::run`, and its exact fuel law. */
module Vm {
  import opened Wrappers
  import opened Bytes
  import opened Protocol
  import opened VmTypes
  import opened Gossip
  import opened StdStep
  import opened StdRun

  /** What the viewer makes of the script bytes: a step count, and for each index a step or nothing. */
  type Script = seq<Option<VmStep>>

  /** The reading of a pin at the time of each step. */
  type Pins = (nat, byte) -> byte

  /** How a run ended, the fuel left, and the speeds commanded in order. */
  datatype Outcome = Outcome(error: Option<VmError>, fuel: nat, speeds: seq<byte>)

  /** The error, other than running dry, that step `i` raises when it is executed. */
  function StepError(script: Script, i: nat, pins: Pins): Option<VmError>
    requires i < |script|
  {
    match script[i]
    case None => Some(BufferOverflow)
    case Some(SetPwm(channel, _)) => if channel >= 8 then Some(UnauthorizedAccess) else None
    case Some(Delay(_)) => None
    case Some(AssertOrYield(pin, expected)) =>
      if pin >= 32 then Some(UnauthorizedAccess)
      else if pins(i, pin) != expected then Some(AssertionFailed(pin, expected, pins(i, pin)))
      else None
  }

  /** The fuel left after a step that raises no error. */
  function Left(step: VmStep, fuel: nat): nat
    requires fuel > 0
  {
    match step
    case Delay(ticks) => fuel - 1 - Min(ticks, fuel - 1)
    case _ => fuel - 1
  }

  function Commanded(step: VmStep): seq<byte> {
    if step.SetPwm? then [step.speed] else []
  }

  /** The run from step `i` on. */
  function Exec(script: Script, i: nat, fuel: nat, pins: Pins): Outcome
    requires i <= |script|
    decreases |script| - i
  {
    if i == |script| then Outcome(None, fuel, [])
    else if fuel == 0 then Outcome(Some(OutOfFuel), 0, [])
    else if StepError(script, i, pins).Some? then Outcome(StepError(script, i, pins), fuel - 1, [])
    else After(Commanded(script[i].value), Exec(script, i + 1, Left(script[i].value, fuel), pins))
  }

  function After(speeds: seq<byte>, rest: Outcome): Outcome {
    rest.(speeds := speeds + rest.speeds)
  }

  lemma AfterAfter(a: seq<byte>, b: seq<byte>, rest: Outcome)
    ensures After(a, After(b, rest)) == After(a + b, rest)
  {
    assert a + (b + rest.speeds) == a + b + rest.speeds;
  }

  lemma ExecUnfolds(script: Script, i: nat, fuel: nat, pins: Pins)
    requires i <= |script|
    ensures i == |script| ==> Exec(script, i, fuel, pins) == Outcome(None, fuel, [])
    ensures i < |script| && fuel == 0 ==> Exec(script, i, fuel, pins) == Outcome(Some(OutOfFuel), 0, [])
    ensures i < |script| && fuel > 0 ==>
              Exec(script, i, fuel, pins) ==
              if StepError(script, i, pins).Some? then Outcome(StepError(script, i, pins), fuel - 1, [])
              else After(Commanded(script[i].value), Exec(script, i + 1, Left(script[i].value, fuel), pins))
  {}

  class MicroVm {
    var fuel: nat
    var trapReason: Option<VmError>

    constructor (fuel: nat)
      ensures this.fuel == fuel && trapReason == None
    {
      this.fuel := fuel;
      trapReason := None;
    }

    /** A missing step ends the run without recording a trap reason; every other error records itself. */
    method Run(script: Script, motor: Motor, pins: Pins) returns (error: Option<VmError>)
      modifies this, motor
      ensures var o := Exec(script, 0, old(fuel), pins);
              && error == o.error && fuel == o.fuel && motor.history == old(motor.history) + o.speeds
              && trapReason == if error == None || error == Some(BufferOverflow) then old(trapReason) else error
    {
      hide Exec;
      ghost var done: seq<byte> := [];
      for i := 0 to |script|
        invariant trapReason == old(trapReason)
        invariant motor.history == old(motor.history) + done
        invariant Exec(script, 0, old(fuel), pins) == After(done, Exec(script, i, fuel, pins))
      {
        ExecUnfolds(script, i, fuel, pins);
        if fuel == 0 {
          trapReason := Some(OutOfFuel);
          return Some(OutOfFuel);
        }
        fuel := fuel - 1;
        if script[i].None? {
          return Some(BufferOverflow);
        }
        match script[i].value {
          case SetPwm(channel, speed) =>
            if channel >= 8 {
              trapReason := Some(UnauthorizedAccess);
              return Some(UnauthorizedAccess);
            }
            motor.SetSpeed(speed);
          case Delay(ticks) =>
            var cost := Min(ticks, fuel);
            fuel := fuel - cost;
          case AssertOrYield(pin, expected) =>
            if pin >= 32 {
              trapReason := Some(UnauthorizedAccess);
              return Some(UnauthorizedAccess);
            }
            var actual := pins(i, pin);
            if actual != expected {
              trapReason := Some(AssertionFailed(pin, expected, actual));
              return trapReason;
            }
        }
        AfterAfter(done, Commanded(script[i].value), Exec(script, i + 1, fuel, pins));
        done := done + Commanded(script[i].value);
      }
      ExecUnfolds(script, |script|, fuel, pins);
      return None;
    }

    /** One turn of the bytecode loop. Errors raised inside a step are passed on without recording a trap reason. */
    method RunInstr(bytecode: Bytes, offset: nat, ghost k: nat, motor: Motor, sense: Sense, ctx: Option<Context>)
      returns (error: Option<VmError>, sent: seq<Message>)
      requires offset == 8 * k && offset + 8 <= |bytecode|
      modifies this, motor
      ensures old(fuel) == 0 ==>
                && error == Some(OutOfFuel) == trapReason && sent == [] && fuel == 0
                && motor.history == old(motor.history)
      ensures old(fuel) > 0 ==>
                var r := InstrResult(bytecode, k, sense, ctx);
                && error == r.error && sent == r.sent && fuel == old(fuel) - 1
                && motor.history == old(motor.history) + r.speeds
                && (DecodeAt(bytecode, k).pin >= 32 ==> trapReason == error == Some(UnauthorizedAccess))
                && (DecodeAt(bytecode, k).pin < 32 ==> trapReason == old(trapReason))
    {
      hide StepSpec, Le16, Le32, DecodeAt, InstrResult;
      InstrAt(bytecode, k, sense, ctx);
      if fuel == 0 {
        trapReason := Some(OutOfFuel);
        return Some(OutOfFuel), [];
      }
      fuel := fuel - 1;
      var ins := Instr(bytecode[offset], bytecode[offset + 1], Le16(bytecode, offset + 2), Le32(bytecode, offset + 4));
      if ins.pin >= 32 {
        trapReason := Some(UnauthorizedAccess);
        return Some(UnauthorizedAccess), [];
      }
      error, sent := ExecuteStep(ins, sense(offset / 8, ins.pin), ctx, motor);
    }

    /** The bytecode loop: bytes short of a whole instruction are ignored. */
    method RunStd(bytecode: Bytes, motor: Motor, sense: Sense, ctx: Option<Context>)
      returns (error: Option<VmError>, sent: seq<Message>)
      modifies this, motor
      ensures var o := ExecStd(bytecode, 0, old(fuel), sense, ctx);
              && error == o.error && sent == o.sent && fuel == o.fuel
              && motor.history == old(motor.history) + o.speeds
              && trapReason == if o.recorded then error else old(trapReason)
    {
      hide ExecStd, InstrResult, DecodeAt;
      sent := [];
      var offset := 0;
      ghost var k: nat := 0;
      ghost var done: seq<byte> := [];
      while offset + 8 <= |bytecode|
        invariant offset == 8 * k && trapReason == old(trapReason)
        invariant motor.history == old(motor.history) + done
        invariant ExecStd(bytecode, 0, old(fuel), sense, ctx)
               == AfterStep(StepResult(None, done, sent), ExecStd(bytecode, k, fuel, sense, ctx))
      {
        StdUnfolds(bytecode, k, fuel, sense, ctx);
        ghost var r := InstrResult(bytecode, k, sense, ctx);
        var stepError, stepSent := RunInstr(bytecode, offset, k, motor, sense, ctx);
        assert old(motor.history) + done + r.speeds == old(motor.history) + (done + r.speeds);
        if stepError.Some? {
          return stepError, sent + stepSent;
        }
        AfterStepTwice(done, sent, r, ExecStd(bytecode, k + 1, fuel, sense, ctx));
        sent := sent + stepSent;
        done := done + r.speeds;
        offset := offset + 8;
        k := k + 1;
      }
      StdUnfolds(bytecode, k, fuel, sense, ctx);
      return None, sent;
    }
  }

  lemma InstrAt(bytecode: Bytes, k: nat, sense: Sense, ctx: Option<Context>)
    requires 8 * k + 8 <= |bytecode|
    ensures var at := 8 * k;
            var ins := Instr(bytecode[at], bytecode[at + 1], Le16(bytecode, at + 2), Le32(bytecode, at + 4));
            && DecodeAt(bytecode, k) == ins
            && InstrResult(bytecode, k, sense, ctx) ==
               if ins.pin >= 32 then StepResult(Some(UnauthorizedAccess), [], []) else StepSpec(ins, sense(k, ins.pin), ctx)
  {
    hide StepSpec, Le16, Le32;
  }

  lemma AfterStepTwice(done: seq<byte>, sent: seq<Message>, r: StepResult, rest: StdOutcome)
    ensures AfterStep(StepResult(None, done, sent), AfterStep(r, rest))
         == AfterStep(StepResult(None, done + r.speeds, sent + r.sent), rest)
  {
    assert done + (r.speeds + rest.speeds) == done + r.speeds + rest.speeds;
    assert sent + (r.sent + rest.sent) == sent + r.sent + rest.sent;
  }

  // ---------- the fuel law ----------

  /** Fuel a completed step burns. */
  function Cost(step: VmStep): nat {
    1 + if step.Delay? then step.ticks else 0
  }

  /**
   * Fuel with which the run from step `i` gets as far as it can: the last step reached needs 1, those before their
   * cost.
   */
  function Needed(script: Script, i: nat, pins: Pins): nat
    requires i <= |script|
    decreases |script| - i
  {
    if i == |script| then 0
    else if i + 1 == |script| || StepError(script, i, pins).Some? then 1
    else Cost(script[i].value) + Needed(script, i + 1, pins)
  }

  /** A run ends in `OutOfFuel` exactly when it starts with less than that. */
  lemma {:induction false} FuelLaw(script: Script, i: nat, fuel: nat, pins: Pins)
    requires i <= |script|
    ensures Exec(script, i, fuel, pins).error == Some(OutOfFuel) <==> fuel < Needed(script, i, pins)
    decreases |script| - i
  {
    if i < |script| && fuel > 0 && StepError(script, i, pins).None? {
      FuelLaw(script, i + 1, Left(script[i].value, fuel), pins);
    }
  }

  function TotalCost(steps: seq<VmStep>): nat {
    if steps == [] then 0 else Cost(steps[0]) + TotalCost(steps[1..])
  }

  function Lift(steps: seq<VmStep>): (script: Script)
    ensures |script| == |steps|
  {
    seq(|steps|, i requires 0 <= i < |steps| => Some(steps[i]))
  }

  /** The steps raise no error of their own. */
  ghost predicate NoTraps(script: Script, pins: Pins) {
    forall i | 0 <= i < |script| :: StepError(script, i, pins).None?
  }

  lemma {:induction false} NeededIsSum(steps: seq<VmStep>, i: nat, pins: Pins)
    requires i < |steps| && NoTraps(Lift(steps), pins)
    ensures Needed(Lift(steps), i, pins) == 1 + TotalCost(steps[i..|steps| - 1])
    decreases |steps| - i
  {
    if i + 1 < |steps| {
      NeededIsSum(steps, i + 1, pins);
      assert steps[i..|steps| - 1][1..] == steps[i + 1..|steps| - 1];
    }
  }

  /**
   * A well-formed script with no other trap completes exactly when it is empty or its fuel covers all steps but
   * the last, and one more.
   */
  lemma CompletesIff(steps: seq<VmStep>, fuel: nat, pins: Pins)
    requires NoTraps(Lift(steps), pins)
    ensures Exec(Lift(steps), 0, fuel, pins).error == None
            <==> steps == [] || fuel >= 1 + TotalCost(steps[..|steps| - 1])
  {
    OnlyFuelStops(Lift(steps), 0, fuel, pins);
    FuelLaw(Lift(steps), 0, fuel, pins);
    if steps != [] {
      NeededIsSum(steps, 0, pins);
    }
  }

  lemma {:induction false} OnlyFuelStops(script: Script, i: nat, fuel: nat, pins: Pins)
    requires i <= |script| && NoTraps(script, pins)
    ensures Exec(script, i, fuel, pins).error in {None, Some(OutOfFuel)}
    decreases |script| - i
  {
    if i < |script| && fuel > 0 {
      assert StepError(script, i, pins).None?;
      OnlyFuelStops(script, i + 1, Left(script[i].value, fuel), pins);
    }
  }

  lemma {:induction false} TotalCostFloor(steps: seq<VmStep>)
    ensures TotalCost(steps) >= |steps|
    ensures TotalCost(steps) == |steps| <==> forall s | s in steps :: s.Delay? ==> s.ticks == 0
  {
    if steps != [] {
      TotalCostFloor(steps[1..]);
      assert steps == [steps[0]] + steps[1..];
    }
  }

  /**
   * The verifier's report promises that fuel equal to the step count suffices. It does exactly when no step but
   * the last delays.
   */
  lemma {:induction false} StepCountSufficesIff(steps: seq<VmStep>, pins: Pins)
    requires NoTraps(Lift(steps), pins) && steps != []
    ensures Exec(Lift(steps), 0, |steps|, pins).error == None
            <==> forall s | s in steps[..|steps| - 1] :: s.Delay? ==> s.ticks == 0
  {
    CompletesIff(steps, |steps|, pins);
    TotalCostFloor(steps[..|steps| - 1]);
  }

  /** Steps that the run begins. */
  function Started(script: Script, i: nat, fuel: nat, pins: Pins): nat
    requires i <= |script|
    decreases |script| - i
  {
    if i == |script| || fuel == 0 then 0
    else if StepError(script, i, pins).Some? then 1
    else 1 + Started(script, i + 1, Left(script[i].value, fuel), pins)
  }

  /**
   * Every step begun burns fuel, whether the run traps or not, so steps begun and leftover never exceed the fuel at the
   * start; a completed run has begun every step and burnt its total cost, as far as it had it.
   */
  lemma {:induction false} FuelAccounts(script: Script, i: nat, fuel: nat, pins: Pins)
    requires i <= |script|
    ensures var o, begun := Exec(script, i, fuel, pins), Started(script, i, fuel, pins);
            && |o.speeds| <= begun && begun + o.fuel <= fuel
            && (o.error == None ==> begun == |script| - i)
            && (o.error == None ==> o.fuel == if fuel >= CostFrom(script, i) then fuel - CostFrom(script, i) else 0)
    decreases |script| - i
  {
    if i < |script| && fuel > 0 && StepError(script, i, pins).None? {
      FuelAccounts(script, i + 1, Left(script[i].value, fuel), pins);
    }
  }

  function CostFrom(script: Script, i: nat): nat
    requires i <= |script|
    decreases |script| - i
  {
    if i == |script| then 0
    else (if script[i].Some? then Cost(script[i].value) else 0) + CostFrom(script, i + 1)
  }

  // ---------- single steps ----------

  /** What one step alone does, whatever the fuel: channels below 8 and pins below 32 are allowed. */
  lemma SingleStep(step: VmStep, fuel: nat, pins: Pins)
    requires fuel > 0
    ensures Exec([Some(step)], 0, fuel, pins) ==
            match step
            case SetPwm(channel, speed) =>
              if channel <= 7 then Outcome(None, fuel - 1, [speed]) else Outcome(Some(UnauthorizedAccess), fuel - 1, [])
            case Delay(ticks) => Outcome(None, if ticks < fuel then fuel - 1 - ticks else 0, [])
            case AssertOrYield(pin, expected) =>
              if pin >= 32 then Outcome(Some(UnauthorizedAccess), fuel - 1, [])
              else if pins(0, pin) == expected then Outcome(None, fuel - 1, [])
              else Outcome(Some(AssertionFailed(pin, expected, pins(0, pin))), fuel - 1, [])
  {
    ExecUnfolds([Some(step)], 0, fuel, pins);
    if StepError([Some(step)], 0, pins).None? {
      ExecUnfolds([Some(step)], 1, Left(step, fuel), pins);
      assert Commanded(step) + [] == Commanded(step);
    }
  }

  /** A delay burns its ticks and one more, and the step behind it one. */
  lemma DelayThenDrive(ticks: nat, channel: byte, speed: byte, fuel: nat, pins: Pins)
    requires channel < 8
    ensures var o := Exec([Some(Delay(ticks)), Some(SetPwm(channel, speed))], 0, fuel, pins);
            if fuel >= ticks + 2 then o == Outcome(None, fuel - ticks - 2, [speed])
            else o == Outcome(Some(OutOfFuel), 0, [])
  {
    var script := [Some(Delay(ticks)), Some(SetPwm(channel, speed))];
    ExecUnfolds(script, 0, fuel, pins);
    if fuel > 0 {
      var left := Left(Delay(ticks), fuel);
      ExecUnfolds(script, 1, left, pins);
      if left > 0 {
        ExecUnfolds(script, 2, left - 1, pins);
        assert [speed] + [] == [speed];
      }
    }
  }
}
