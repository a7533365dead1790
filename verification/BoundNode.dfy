/**
 * The executor that the node attribute generates for a struct with bound fields, and how it refines `MicroVm.Run`.
 */
module BoundNode {
  import opened Wrappers
  import opened Bytes
  import opened VmTypes
  import opened Vm

  /** A field bound to a channel or pin; one field may carry several bindings. */
  datatype Binding = Binding(field: nat, channel: byte)

  /** The reading that a field gives of a pin, at the time of each step. */
  type Readings = (nat, nat, byte) -> byte

  datatype BoundOutcome = BoundOutcome(error: Option<VmError>, fuel: nat, speeds: seq<byte>)

  ghost predicate InRange(pwm: seq<Binding>, n: nat) {
    forall b | b in pwm :: b.field < n
  }

  /** The first binding of a channel wins, as the first arm of a match does. */
  function Route(pwm: seq<Binding>, channel: byte): (r: Option<nat>)
    ensures r.None? <==> forall b | b in pwm :: b.channel != channel
    ensures r.Some? ==> exists b | b in pwm :: b.channel == channel && b.field == r.value
  {
    if pwm == [] then None
    else if pwm[0].channel == channel then Some(pwm[0].field)
    else Route(pwm[1..], channel)
  }

  /** Every bound field set to 0, binding by binding. */
  function Stopped(pwm: seq<Binding>, speeds: seq<byte>): (r: seq<byte>)
    requires InRange(pwm, |speeds|)
    ensures |r| == |speeds|
  {
    if pwm == [] then speeds else Stopped(pwm[1..], speeds[pwm[0].field := 0])
  }

  /** The first bound field that disagrees decides; a pin without bindings is refused. */
  function PinError(gpio: seq<Binding>, bound: bool, i: nat, pin: byte, expected: byte, readings: Readings): Option<VmError> {
    if gpio == [] then if bound then None else Some(UnauthorizedAccess)
    else if gpio[0].channel != pin then PinError(gpio[1..], bound, i, pin, expected, readings)
    else
      var actual := readings(i, gpio[0].field, pin);
      if actual != expected then Some(AssertionFailed(pin, expected, actual))
      else PinError(gpio[1..], true, i, pin, expected, readings)
  }

  function BoundStepError(pwm: seq<Binding>, gpio: seq<Binding>, step: VmStep, i: nat, readings: Readings): Option<VmError> {
    match step
    case SetPwm(channel, _) => if Route(pwm, channel).None? then Some(UnauthorizedAccess) else None
    case Delay(_) => None
    case AssertOrYield(pin, expected) => PinError(gpio, false, i, pin, expected, readings)
  }

  function Applied(pwm: seq<Binding>, step: VmStep, speeds: seq<byte>): (r: seq<byte>)
    requires InRange(pwm, |speeds|)
    ensures |r| == |speeds|
  {
    if step.SetPwm? && Route(pwm, step.channel).Some?
    then speeds[Route(pwm, step.channel).value := step.speed]
    else speeds
  }

  function BoundExec(pwm: seq<Binding>, gpio: seq<Binding>, script: Script, i: nat, fuel: nat, speeds: seq<byte>,
                     readings: Readings): BoundOutcome
    requires i <= |script| && InRange(pwm, |speeds|)
    decreases |script| - i
  {
    if i == |script| then BoundOutcome(None, fuel, speeds)
    else if fuel == 0 then BoundOutcome(Some(OutOfFuel), 0, Stopped(pwm, speeds))
    else if script[i].None? then BoundOutcome(Some(BufferOverflow), fuel - 1, speeds)
    else
      var step := script[i].value;
      var e := BoundStepError(pwm, gpio, step, i, readings);
      if e.Some? then BoundOutcome(e, fuel - 1, Stopped(pwm, speeds))
      else BoundExec(pwm, gpio, script, i + 1, Left(step, fuel), Applied(pwm, step, speeds), readings)
  }

  class Node {
    const pwm: seq<Binding>
    const gpio: seq<Binding>
    /** The current speed of each PWM field. */
    const speeds: array<byte>

    ghost predicate Valid() {
      InRange(pwm, speeds.Length)
    }

    constructor (pwm: seq<Binding>, gpio: seq<Binding>, speeds: array<byte>)
      requires InRange(pwm, speeds.Length)
      ensures Valid() && this.pwm == pwm && this.gpio == gpio && this.speeds == speeds
    {
      this.pwm, this.gpio, this.speeds := pwm, gpio, speeds;
    }

    /** The safe-shutdown statements. */
    method Shutdown()
      requires Valid()
      modifies speeds
      ensures speeds[..] == Stopped(pwm, old(speeds[..]))
    {
      for k := 0 to |pwm|
        invariant Stopped(pwm, old(speeds[..])) == Stopped(pwm[k..], speeds[..])
      {
        speeds[pwm[k].field] := 0;
        assert pwm[k..][1..] == pwm[k + 1..];
      }
    }

    /** The pin checks of one step. */
    method CheckPin(i: nat, pin: byte, expected: byte, readings: Readings) returns (error: Option<VmError>)
      ensures error == PinError(gpio, false, i, pin, expected, readings)
    {
      var authorized := false;
      for k := 0 to |gpio|
        invariant PinError(gpio, false, i, pin, expected, readings)
               == PinError(gpio[k..], authorized, i, pin, expected, readings)
      {
        assert gpio[k..][1..] == gpio[k + 1..];
        if gpio[k].channel == pin {
          authorized := true;
          var actual := readings(i, gpio[k].field, pin);
          if actual != expected {
            return Some(AssertionFailed(pin, expected, actual));
          }
        }
      }
      return if authorized then None else Some(UnauthorizedAccess);
    }

    method RunVmScript(script: Script, fuel0: nat, readings: Readings) returns (error: Option<VmError>, fuel: nat)
      requires Valid()
      modifies speeds
      ensures BoundExec(pwm, gpio, script, 0, fuel0, old(speeds[..]), readings) == BoundOutcome(error, fuel, speeds[..])
    {
      hide PinError, Route;
      fuel := fuel0;
      for i := 0 to |script|
        invariant BoundExec(pwm, gpio, script, 0, fuel0, old(speeds[..]), readings)
               == BoundExec(pwm, gpio, script, i, fuel, speeds[..], readings)
      {
        if fuel == 0 {
          Shutdown();
          return Some(OutOfFuel), fuel;
        }
        fuel := fuel - 1;
        if script[i].None? {
          return Some(BufferOverflow), fuel;
        }
        match script[i].value {
          case SetPwm(channel, speed) =>
            match Route(pwm, channel) {
              case Some(field) => speeds[field] := speed;
              case None =>
                Shutdown();
                return Some(UnauthorizedAccess), fuel;
            }
          case Delay(ticks) =>
            fuel := fuel - Min(ticks, fuel);
          case AssertOrYield(pin, expected) =>
            error := CheckPin(i, pin, expected, readings);
            if error.Some? {
              Shutdown();
              return error, fuel;
            }
        }
      }
      return None, fuel;
    }
  }

  // ---------- routing ----------

  /** A channel is routed to the field of its first binding. */
  lemma {:induction false} RouteIsFirst(pwm: seq<Binding>, channel: byte, k: nat)
    requires k < |pwm| && pwm[k].channel == channel && forall j | 0 <= j < k :: pwm[j].channel != channel
    ensures Route(pwm, channel) == Some(pwm[k].field)
  {
    if k > 0 {
      assert pwm[0].channel != channel;
      RouteIsFirst(pwm[1..], channel, k - 1);
    }
  }

  /** A check passes when the pin is bound and every field bound to it agrees; the first that does not is reported. */
  lemma {:induction false} PinErrorIff(gpio: seq<Binding>, bound: bool, i: nat, pin: byte, expected: byte, readings: Readings)
    ensures var e := PinError(gpio, bound, i, pin, expected, readings);
            && (e == None <==>
                  && (bound || exists b | b in gpio :: b.channel == pin)
                  && forall b | b in gpio && b.channel == pin :: readings(i, b.field, pin) == expected)
            && (e == Some(UnauthorizedAccess) <==> !bound && forall b | b in gpio :: b.channel != pin)
            && (e.Some? && e != Some(UnauthorizedAccess) ==>
                  exists k | 0 <= k < |gpio| && gpio[k].channel == pin && readings(i, gpio[k].field, pin) != expected ::
                    && e == Some(AssertionFailed(pin, expected, readings(i, gpio[k].field, pin)))
                    && forall j | 0 <= j < k :: gpio[j].channel == pin ==> readings(i, gpio[j].field, pin) == expected)
  {
    if gpio != [] {
      assert gpio == [gpio[0]] + gpio[1..];
      var on := bound || gpio[0].channel == pin;
      if gpio[0].channel != pin || readings(i, gpio[0].field, pin) == expected {
        PinErrorIff(gpio[1..], on, i, pin, expected, readings);
        var e := PinError(gpio[1..], on, i, pin, expected, readings);
        if e.Some? && e != Some(UnauthorizedAccess) {
          var rest := gpio[1..];
          var k :| 0 <= k < |rest| && rest[k].channel == pin && readings(i, rest[k].field, pin) != expected
                   && e == Some(AssertionFailed(pin, expected, readings(i, rest[k].field, pin)))
                   && forall j | 0 <= j < k :: rest[j].channel == pin ==> readings(i, rest[j].field, pin) == expected;
          assert gpio[k + 1] == rest[k];
          forall j | 0 <= j < k + 1 && gpio[j].channel == pin
            ensures readings(i, gpio[j].field, pin) == expected
          {
            if j > 0 {
              assert gpio[j] == rest[j - 1];
            }
          }
        }
      } else {
        assert gpio[0] in gpio;
      }
    }
  }

  // ---------- fail-safe ----------

  lemma {:induction false} StoppedStops(pwm: seq<Binding>, speeds: seq<byte>, f: nat)
    requires InRange(pwm, |speeds|) && f < |speeds|
    requires speeds[f] == 0 || exists b | b in pwm :: b.field == f
    ensures Stopped(pwm, speeds)[f] == 0
  {
    if pwm != [] {
      assert pwm == [pwm[0]] + pwm[1..];
      StoppedStops(pwm[1..], speeds[pwm[0].field := 0], f);
    }
  }

  /** Every trap but a missing step leaves every bound motor at 0. */
  lemma {:induction false} TrapStopsAll(pwm: seq<Binding>, gpio: seq<Binding>, script: Script, i: nat, fuel: nat,
                                        speeds: seq<byte>, readings: Readings, b: Binding)
    requires i <= |script| && InRange(pwm, |speeds|) && b in pwm
    ensures var o := BoundExec(pwm, gpio, script, i, fuel, speeds, readings);
            |o.speeds| == |speeds| && (o.error != None && o.error != Some(BufferOverflow) ==> o.speeds[b.field] == 0)
    decreases |script| - i
  {
    StoppedStops(pwm, speeds, b.field);
    if i < |script| && fuel > 0 && script[i].Some? && BoundStepError(pwm, gpio, script[i].value, i, readings).None? {
      var step := script[i].value;
      TrapStopsAll(pwm, gpio, script, i + 1, Left(step, fuel), Applied(pwm, step, speeds), readings, b);
    }
  }

  // ---------- the trap that stops nothing ----------

  /** The last speed sent, from step `i` on, to a channel routed to field `f`. */
  function LastSent(pwm: seq<Binding>, script: Script, i: nat, f: nat): Option<byte>
    requires i <= |script|
    decreases |script| - i
  {
    if i == |script| then None
    else
      var later := LastSent(pwm, script, i + 1, f);
      if later.Some? then later
      else if script[i].Some? && script[i].value.SetPwm? && Route(pwm, script[i].value.channel) == Some(f)
      then Some(script[i].value.speed)
      else None
  }

  /** The speed of a field: the last sent to it from step `i` on, or its old one. */
  function Held(pwm: seq<Binding>, script: Script, i: nat, f: nat, speeds: seq<byte>): byte
    requires i <= |script| && f < |speeds|
  {
    match LastSent(pwm, script, i, f)
    case Some(v) => v
    case None => speeds[f]
  }

  /** The first step from `i` on that the viewer cannot give, or the end. */
  function FirstMissing(script: Script, i: nat): (j: nat)
    requires i <= |script|
    ensures i <= j <= |script|
    decreases |script| - i
  {
    if i == |script| || script[i].None? then i else FirstMissing(script, i + 1)
  }

  /** A run that ends at a missing step leaves every field as the steps before it left it. */
  lemma {:induction false} OverflowLeaves(pwm: seq<Binding>, gpio: seq<Binding>, script: Script, i: nat, fuel: nat,
                                          speeds: seq<byte>, readings: Readings)
    requires i <= |script| && InRange(pwm, |speeds|)
    requires BoundExec(pwm, gpio, script, i, fuel, speeds, readings).error == Some(BufferOverflow)
    ensures var o, j := BoundExec(pwm, gpio, script, i, fuel, speeds, readings), FirstMissing(script, i);
            && j < |script| && |o.speeds| == |speeds|
            && forall f | 0 <= f < |speeds| :: o.speeds[f] == Held(pwm, script[..j], i, f, speeds)
    decreases |script| - i
  {
    hide PinError;
    if script[i].Some? {
      var step := script[i].value;
      if step.AssertOrYield? {
        PinErrorKinds(gpio, false, i, step.pin, step.expected, readings);
      }
      OverflowLeaves(pwm, gpio, script, i + 1, Left(step, fuel), Applied(pwm, step, speeds), readings);
    }
  }

  lemma {:induction false} PinErrorKinds(gpio: seq<Binding>, bound: bool, i: nat, pin: byte, expected: byte, readings: Readings)
    ensures PinError(gpio, bound, i, pin, expected, readings) != Some(BufferOverflow)
  {
    if gpio != [] {
      PinErrorKinds(gpio[1..], bound, i, pin, expected, readings);
      PinErrorKinds(gpio[1..], true, i, pin, expected, readings);
    }
  }

  ghost predicate AtRest(pwm: seq<Binding>, speeds: seq<byte>)
    requires InRange(pwm, |speeds|)
  {
    forall b | b in pwm :: speeds[b.field] == 0
  }

  /**
   * A trapped run leaves all bound motors at rest exactly when the trap was not a missing step, or when the last speed
   * each was sent before it, or failing that its old one, was 0 already.
   */
  lemma TrapRestsIff(pwm: seq<Binding>, gpio: seq<Binding>, script: Script, fuel: nat, speeds: seq<byte>, readings: Readings)
    requires InRange(pwm, |speeds|)
    requires BoundExec(pwm, gpio, script, 0, fuel, speeds, readings).error.Some?
    ensures var o := BoundExec(pwm, gpio, script, 0, fuel, speeds, readings);
            && |o.speeds| == |speeds|
            && (AtRest(pwm, o.speeds) <==>
                  o.error != Some(BufferOverflow)
                  || forall b | b in pwm :: Held(pwm, script[..FirstMissing(script, 0)], 0, b.field, speeds) == 0)
  {
    hide BoundExec, Held, FirstMissing;
    var o := BoundExec(pwm, gpio, script, 0, fuel, speeds, readings);
    if o.error == Some(BufferOverflow) {
      OverflowLeaves(pwm, gpio, script, 0, fuel, speeds, readings);
    } else if pwm != [] {
      forall b | b in pwm
        ensures |o.speeds| == |speeds| && o.speeds[b.field] == 0
      {
        TrapStopsAll(pwm, gpio, script, 0, fuel, speeds, readings, b);
      }
      assert pwm[0] in pwm;
    } else {
      SameFields(pwm, gpio, script, 0, fuel, speeds, readings);
    }
  }

  lemma {:induction false} SameFields(pwm: seq<Binding>, gpio: seq<Binding>, script: Script, i: nat, fuel: nat,
                                      speeds: seq<byte>, readings: Readings)
    requires i <= |script| && InRange(pwm, |speeds|)
    ensures |BoundExec(pwm, gpio, script, i, fuel, speeds, readings).speeds| == |speeds|
    decreases |script| - i
  {
    hide PinError;
    if i < |script| && fuel > 0 && script[i].Some? && BoundStepError(pwm, gpio, script[i].value, i, readings).None? {
      var step := script[i].value;
      SameFields(pwm, gpio, script, i + 1, Left(step, fuel), Applied(pwm, step, speeds), readings);
    }
  }

  /** Such a run exists for every bound channel and speed: one command, then a missing step. */
  lemma MissingStepKeepsRunning(pwm: seq<Binding>, gpio: seq<Binding>, channel: byte, speed: byte, fuel: nat,
                                speeds: seq<byte>, readings: Readings)
    requires InRange(pwm, |speeds|) && Route(pwm, channel).Some? && fuel >= 2
    ensures var o := BoundExec(pwm, gpio, [Some(SetPwm(channel, speed)), None], 0, fuel, speeds, readings);
            && o.error == Some(BufferOverflow) && |o.speeds| == |speeds|
            && o.speeds[Route(pwm, channel).value] == speed
  {
    var script, step := [Some(SetPwm(channel, speed)), None], SetPwm(channel, speed);
    var next := Applied(pwm, step, speeds);
    assert BoundExec(pwm, gpio, script, 1, fuel - 1, next, readings) == BoundOutcome(Some(BufferOverflow), fuel - 2, next);
  }

  // ---------- agreement with the micro VM ----------

  /** Bindings within the hardware's range, and fields that read their pins as the board does. */
  ghost predicate Wired(pwm: seq<Binding>, gpio: seq<Binding>, readings: Readings, pins: Pins) {
    && (forall b | b in pwm :: b.channel < 8)
    && (forall b | b in gpio :: b.channel < 32)
    && (forall b, i | b in gpio :: readings(i, b.field, b.channel) == pins(i, b.channel))
  }

  /** The step names only bound channels and pins. */
  predicate UsesBound(pwm: seq<Binding>, gpio: seq<Binding>, step: VmStep) {
    match step
    case SetPwm(channel, _) => exists b | b in pwm :: b.channel == channel
    case Delay(_) => true
    case AssertOrYield(pin, _) => exists b | b in gpio :: b.channel == pin
  }

  lemma {:induction false} PinErrorAgrees(gpio: seq<Binding>, bound: bool, i: nat, pin: byte, expected: byte,
                                          readings: Readings, pins: Pins)
    requires forall b, k | b in gpio :: readings(k, b.field, b.channel) == pins(k, b.channel)
    requires bound ==> pins(i, pin) == expected
    ensures var e := PinError(gpio, bound, i, pin, expected, readings);
            if bound || exists b | b in gpio :: b.channel == pin
            then e == if pins(i, pin) == expected then None else Some(AssertionFailed(pin, expected, pins(i, pin)))
            else e == Some(UnauthorizedAccess)
  {
    if gpio != [] {
      assert gpio == [gpio[0]] + gpio[1..];
      if gpio[0].channel != pin {
        PinErrorAgrees(gpio[1..], bound, i, pin, expected, readings, pins);
      } else if readings(i, gpio[0].field, pin) == expected {
        PinErrorAgrees(gpio[1..], true, i, pin, expected, readings, pins);
      }
    }
  }

  lemma StepErrorsAgree(pwm: seq<Binding>, gpio: seq<Binding>, script: Script, i: nat, readings: Readings, pins: Pins)
    requires Wired(pwm, gpio, readings, pins) && i < |script| && script[i].Some?
    ensures var e := BoundStepError(pwm, gpio, script[i].value, i, readings);
            if UsesBound(pwm, gpio, script[i].value) then e == StepError(script, i, pins)
            else e == Some(UnauthorizedAccess)
  {
    if script[i].value.AssertOrYield? {
      PinErrorAgrees(gpio, false, i, script[i].value.pin, script[i].value.expected, readings, pins);
    }
  }

  ghost predicate AllBound(pwm: seq<Binding>, gpio: seq<Binding>, script: Script, i: nat) {
    forall k | i <= k < |script| :: script[k].Some? ==> UsesBound(pwm, gpio, script[k].value)
  }

  /** On a script that names only bound channels and pins the two executors end alike, with the same fuel. */
  lemma {:induction false} ExecutorsAgree(pwm: seq<Binding>, gpio: seq<Binding>, script: Script, i: nat, fuel: nat,
                                          speeds: seq<byte>, readings: Readings, pins: Pins)
    requires Wired(pwm, gpio, readings, pins) && i <= |script| && InRange(pwm, |speeds|)
    requires AllBound(pwm, gpio, script, i)
    ensures var bound := BoundExec(pwm, gpio, script, i, fuel, speeds, readings);
            var micro := Exec(script, i, fuel, pins);
            bound.error == micro.error && bound.fuel == micro.fuel
    decreases |script| - i
  {
    if i < |script| && fuel > 0 && script[i].Some? {
      var step := script[i].value;
      StepErrorsAgree(pwm, gpio, script, i, readings, pins);
      if StepError(script, i, pins).None? {
        ExecutorsAgree(pwm, gpio, script, i + 1, Left(step, fuel), Applied(pwm, step, speeds), readings, pins);
      }
    }
  }

  /**
   * The generated executor completes exactly when the micro VM does and every step names bound channels and pins; then
   * each field holds the last speed sent to it, or its old speed.
   */
  lemma {:induction false} CompletesIff(pwm: seq<Binding>, gpio: seq<Binding>, script: Script, i: nat, fuel: nat,
                                        speeds: seq<byte>, readings: Readings, pins: Pins)
    requires Wired(pwm, gpio, readings, pins) && i <= |script| && InRange(pwm, |speeds|)
    ensures var bound := BoundExec(pwm, gpio, script, i, fuel, speeds, readings);
            var micro := Exec(script, i, fuel, pins);
            && (bound.error == None <==> micro.error == None && AllBound(pwm, gpio, script, i))
            && (bound.error == None ==>
                  && bound.fuel == micro.fuel && |bound.speeds| == |speeds|
                  && forall f | 0 <= f < |speeds| :: bound.speeds[f] == Held(pwm, script, i, f, speeds))
    decreases |script| - i
  {
    if i < |script| && fuel > 0 && script[i].Some? {
      var step := script[i].value;
      StepErrorsAgree(pwm, gpio, script, i, readings, pins);
      if BoundStepError(pwm, gpio, step, i, readings).None? {
        CompletesIff(pwm, gpio, script, i + 1, Left(step, fuel), Applied(pwm, step, speeds), readings, pins);
        assert AllBound(pwm, gpio, script, i) <==> UsesBound(pwm, gpio, step) && AllBound(pwm, gpio, script, i + 1);
      }
    }
  }
}
