/** Whole runs of standard-library bytecode, as a function, and their fuel law. */
module StdRun {
  import opened Wrappers
  import opened Bytes
  import opened Protocol
  import opened VmTypes
  import opened Gossip
  import opened StdStep

  /** What each instruction observes: by its index and its pin. */
  type Sense = (nat, byte) -> Sensing

  /** What a build with or without the clock observes. */
  ghost predicate Built(sense: Sense, clock: bool) {
    forall i: nat, pin: byte :: sense(i, pin).clock.Absent? <==> !clock
  }

  /**
   * `stop` is the index of the instruction that ended the run; `recorded` says whether the loop itself raised the
   * error.
   */
  datatype StdOutcome = StdOutcome(error: Option<VmError>, fuel: nat, speeds: seq<byte>, sent: seq<Message>,
                                   stop: nat, recorded: bool)

  function InstrResult(bytecode: Bytes, k: nat, sense: Sense, ctx: Option<Context>): StepResult
    requires 8 * k + 8 <= |bytecode|
  {
    var ins := DecodeAt(bytecode, k);
    if ins.pin >= 32 then Refuse(UnauthorizedAccess) else StepSpec(ins, sense(k, ins.pin), ctx)
  }

  function AfterStep(r: StepResult, rest: StdOutcome): StdOutcome {
    rest.(speeds := r.speeds + rest.speeds, sent := r.sent + rest.sent)
  }

  /** The run from instruction `k` on; bytes short of a whole instruction are ignored. */
  function ExecStd(bytecode: Bytes, k: nat, fuel: nat, sense: Sense, ctx: Option<Context>): StdOutcome
    decreases |bytecode| - 8 * k
  {
    if 8 * k + 8 > |bytecode| then StdOutcome(None, fuel, [], [], k, false)
    else if fuel == 0 then StdOutcome(Some(OutOfFuel), 0, [], [], k, true)
    else
      var r := InstrResult(bytecode, k, sense, ctx);
      if r.error.Some?
      then StdOutcome(r.error, fuel - 1, r.speeds, r.sent, k, DecodeAt(bytecode, k).pin >= 32)
      else AfterStep(r, ExecStd(bytecode, k + 1, fuel - 1, sense, ctx))
  }

  /** Instructions begun when fuel is no obstacle. */
  function Begun(bytecode: Bytes, k: nat, sense: Sense, ctx: Option<Context>): nat
    decreases |bytecode| - 8 * k
  {
    if 8 * k + 8 > |bytecode| then 0
    else if InstrResult(bytecode, k, sense, ctx).error.Some? then 1
    else 1 + Begun(bytecode, k + 1, sense, ctx)
  }

  /** The loop runs dry exactly when fuel is less than the instructions it would begin, and each of them burns one. */
  lemma {:induction false} StdFuelLaw(bytecode: Bytes, k: nat, fuel: nat, sense: Sense, ctx: Option<Context>)
    ensures var o, begun := ExecStd(bytecode, k, fuel, sense, ctx), Begun(bytecode, k, sense, ctx);
            && (o.error == Some(OutOfFuel) && o.recorded <==> fuel < begun)
            && o.fuel == if fuel < begun then 0 else fuel - begun
    decreases |bytecode| - 8 * k
  {
    hide StepSpec, DecodeAt;
    if 8 * k + 8 <= |bytecode| && fuel > 0 {
      StdFuelLaw(bytecode, k + 1, fuel - 1, sense, ctx);
    }
  }

  lemma OnlyClocksRunOut(ins: Instr, s: Sensing, ctx: Option<Context>)
    ensures StepSpec(ins, s, ctx).error == Some(OutOfFuel) ==> ins.opcode in {0x86, 0x8B} && s.clock.Late?
  {}

  /**
   * So fuel equal to the instruction count always suffices, as the report promises; only a clock timeout can still
   * say `OutOfFuel`.
   */
  lemma {:induction false} InstructionCountSuffices(bytecode: Bytes, k: nat, fuel: nat, sense: Sense, ctx: Option<Context>)
    requires k + fuel >= |bytecode| / 8
    ensures var o := ExecStd(bytecode, k, fuel, sense, ctx);
            o.error == Some(OutOfFuel) ==>
              && 8 * o.stop + 8 <= |bytecode|
              && var ins := DecodeAt(bytecode, o.stop);
                 ins.opcode in {0x86, 0x8B} && sense(o.stop, ins.pin).clock.Late?
    decreases |bytecode| - 8 * k
  {
    hide StepSpec;
    if 8 * k + 8 <= |bytecode| {
      var ins := DecodeAt(bytecode, k);
      OnlyClocksRunOut(ins, sense(k, ins.pin), ctx);
      InstructionCountSuffices(bytecode, k + 1, fuel - 1, sense, ctx);
    }
  }

  lemma StdUnfolds(bytecode: Bytes, k: nat, fuel: nat, sense: Sense, ctx: Option<Context>)
    ensures 8 * k + 8 > |bytecode| ==> ExecStd(bytecode, k, fuel, sense, ctx) == StdOutcome(None, fuel, [], [], k, false)
    ensures 8 * k + 8 <= |bytecode| && fuel == 0 ==>
              ExecStd(bytecode, k, fuel, sense, ctx) == StdOutcome(Some(OutOfFuel), 0, [], [], k, true)
    ensures 8 * k + 8 <= |bytecode| && fuel > 0 ==>
              var r := InstrResult(bytecode, k, sense, ctx);
              ExecStd(bytecode, k, fuel, sense, ctx) ==
              if r.error.Some?
              then StdOutcome(r.error, fuel - 1, r.speeds, r.sent, k, DecodeAt(bytecode, k).pin >= 32)
              else AfterStep(r, ExecStd(bytecode, k + 1, fuel - 1, sense, ctx))
  {}
}
