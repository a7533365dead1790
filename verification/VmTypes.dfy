/** Errors, script steps and the motor, shared by the executors. */
module VmTypes {
  import opened Bytes

  datatype VmError =
    | OutOfFuel
    | AssertionFailed(pin: byte, expected: byte, actual: byte)
    | VibrationHazard(hz: nat, amplitude: nat)
    | MultiBandSpectrumHazard
    | AcousticFailureDetected
    | EnvelopeViolation
    | InvalidStdOpCode
    | UnauthorizedAccess
    | SensorFusionHazard
    | PidHazard
    | SpatialRangingHazard
    | BufferOverflow

  datatype VmStep =
    | SetPwm(channel: byte, speed: byte)
    | Delay(ticks: nat)
    | AssertOrYield(pin: byte, expected: byte)

  /** A motor that remembers every speed it was given; stopping is speed 0. */
  class Motor {
    var history: seq<byte>

    method SetSpeed(speed: byte)
      modifies this
      ensures history == old(history) + [speed]
    {
      history := history + [speed];
    }

    method Stop()
      modifies this
      ensures history == old(history) + [0]
    {
      history := history + [0];
    }

    /** The default fade jumps to the target. */
    method FadeTo(channel: byte, target: byte, fadeMs: nat)
      modifies this
      ensures history == old(history) + [target]
    {
      SetSpeed(target);
    }
  }
}
