/** What a step computes from its samples, and what follows for the opcodes that look at the spectrum. */
module Sensors {
  import opened Wrappers
  import opened Bytes
  import opened ComplexNumbers
  import opened Dft
  import opened Spectrum
  import opened MiddleBin
  import opened Protocol
  import opened VmTypes
  import opened Gossip
  import opened StdStep
  import opened StdRun

  const SAMPLE_RATE := 1000.0

  ghost predicate HasEnergies(s: Sensing, mags: seq<real>) {
    && |mags| == 128
    && s.low == Q15(BandSum(mags, SAMPLE_RATE, Low, 128))
    && s.mid == Q15(BandSum(mags, SAMPLE_RATE, Mid, 128))
    && s.high == Q15(BandSum(mags, SAMPLE_RATE, High, 128))
  }

  ghost predicate PeakAt(s: Sensing, mags: seq<real>, peak: nat) {
    IsPeak(mags, peak) && peak < |mags| && s.peakHz == ToU32(Freq(peak, SAMPLE_RATE)) && s.peakAmp == Q15(mags[peak])
  }

  ghost predicate HasPeak(s: Sensing, mags: seq<real>) {
    |mags| == 128 && exists peak: nat :: PeakAt(s, mags, peak)
  }

  /** Peak and energies are those of the spectrum of the samples. */
  ghost predicate Spectral(s: Sensing, w: nat -> Complex, sqrt: real -> real) {
    var mags := Magnitudes(s.samples, 8, w, sqrt);
    HasPeak(s, mags) && HasEnergies(s, mags)
  }

  lemma {:induction false} BandSumIsNonNegative(mags: seq<real>, sampleRate: real, band: Band, i: nat)
    requires i <= |mags| && forall j | 0 <= j < |mags| :: mags[j] >= 0.0
    ensures BandSum(mags, sampleRate, band, i) >= 0.0
  {
    if i > 1 {
      BandSumIsNonNegative(mags, sampleRate, band, i - 1);
    }
  }

  lemma PeakFits(peak: nat)
    requires peak < 128
    ensures ToU32(Freq(peak, SAMPLE_RATE)) <= 496
  {
    assert Freq(peak, SAMPLE_RATE) <= 497.0 - 0.5;
  }

  /** The spectrum of one buffer of samples, as the opcodes see it. */
  method Observe(samples: Samples, w: nat -> Complex, sqrt: real -> real, tilted: bool, clock: Clock) returns (s: Sensing)
    requires IsTwiddle(w, 8) && IsSqrt(sqrt)
    ensures Spectral(s, w, sqrt) && s.samples == samples && s.tilted == tilted && s.clock == clock
  {
    hide IsPeak, Magnitude, IsTwiddle, IsSqrt, BandSum, Q15, Freq, ToU32;
    var hz, amp := LocalFixedFft(samples, SAMPLE_RATE, w, sqrt);
    ghost var peak: nat :| Strongest(samples, SAMPLE_RATE, w, sqrt, peak, hz, amp);
    var mags := KeptMagnitudes(samples, 8, w, sqrt);
    var low, mid, high := BandEnergies(mags, SAMPLE_RATE);
    MagnitudesNonNegative(samples, 8, w, sqrt);
    BandSumIsNonNegative(mags, SAMPLE_RATE, Low, 128);
    BandSumIsNonNegative(mags, SAMPLE_RATE, Mid, 128);
    BandSumIsNonNegative(mags, SAMPLE_RATE, High, 128);
    PeakFits(peak);
    s := Sensing(samples, hz, amp, low, mid, high, tilted, clock);
    assert PeakAt(s, mags, peak);
  }

  /** One step, from raw samples to motor command: the spectrum is computed, then the opcode decides. */
  method SenseAndExecute(ins: Instr, samples: Samples, w: nat -> Complex, sqrt: real -> real, tilted: bool, clock: Clock,
                         ctx: Option<Context>, motor: Motor)
    returns (error: Option<VmError>, sent: seq<Message>, ghost s: Sensing)
    requires IsTwiddle(w, 8) && IsSqrt(sqrt)
    modifies motor
    ensures Spectral(s, w, sqrt) && s.samples == samples && s.tilted == tilted && s.clock == clock
    ensures var r := StepSpec(ins, s, ctx);
            error == r.error && sent == r.sent && motor.history == old(motor.history) + r.speeds
  {
    hide StepSpec, Spectral, IsTwiddle, IsSqrt;
    var observed := Observe(samples, w, sqrt, tilted, clock);
    s := observed;
    error, sent := ExecuteStep(ins, observed, ctx, motor);
  }

  // ---------- the empty high band ----------

  lemma HighEnergyIsZero(s: Sensing, mags: seq<real>)
    requires HasEnergies(s, mags)
    ensures s.high == 0
  {
    HighBandIsSilent(mags, 128);
  }

  /** Whatever the magnitudes, the acoustic shutdown of 0x84 does not fire. */
  lemma AcousticShutdownIsDead(ins: Instr, s: Sensing, mags: seq<real>, ctx: Option<Context>)
    requires HasEnergies(s, mags)
    ensures StepSpec(ins, s, ctx).error != Some(AcousticFailureDetected)
  {
    HighEnergyIsZero(s, mags);
  }

  ghost predicate Energetic(s: Sensing) {
    exists mags :: HasEnergies(s, mags)
  }

  /** No run of any bytecode reports an acoustic failure. */
  lemma {:induction false} NoRunReportsAcoustics(bytecode: Bytes, k: nat, fuel: nat, sense: Sense, ctx: Option<Context>)
    requires forall i: nat, pin: byte :: Energetic(sense(i, pin))
    ensures ExecStd(bytecode, k, fuel, sense, ctx).error != Some(AcousticFailureDetected)
    decreases |bytecode| - 8 * k
  {
    hide StepSpec, HasEnergies, DecodeAt;
    if 8 * k + 8 <= |bytecode| && fuel > 0 {
      var ins := DecodeAt(bytecode, k);
      assert Energetic(sense(k, ins.pin));
      var mags :| HasEnergies(sense(k, ins.pin), mags);
      AcousticShutdownIsDead(ins, sense(k, ins.pin), mags, ctx);
      NoRunReportsAcoustics(bytecode, k + 1, fuel - 1, sense, ctx);
    }
  }

  /** 0x83 with AND never trips on a mask that selects the high band; with OR the other two bands decide alone. */
  lemma HighBandNeverTrips(ins: Instr, s: Sensing, mags: seq<real>)
    requires HasEnergies(s, mags) && ins.a % 0x100 / 4 % 2 == 1
    ensures var mask := ins.a % 0x100;
            BandHazard(ins, s) <==>
            && ins.a / 0x100 != 0
            && ((mask % 2 == 1 && s.low > HighHalf(ins.b)) || (mask / 2 % 2 == 1 && s.mid > HighHalf(ins.b)))
  {
    hide HasEnergies;
    HighEnergyIsZero(s, mags);
  }

  // ---------- what the peak covers ----------

  lemma Q15Monotone(a: real, b: real)
    requires a <= b
    ensures Q15(a) <= Q15(b)
  {}

  /** The amplitude that 0x80 compares is at least that of every bin but DC and the middle one. */
  lemma AmplitudeCovers(s: Sensing, w: nat -> Complex, sqrt: real -> real, k: nat)
    requires IsTwiddle(w, 8) && Spectral(s, w, sqrt) && 1 <= k < 256 && k != 128
    ensures Q15(Magnitude(sqrt, BinOf(s.samples, w, 8, k))) <= s.peakAmp
  {
    hide IsPeak, Magnitude, IsTwiddle, HasEnergies, Q15, BinOf;
    Size256();
    var mags := Magnitudes(s.samples, 8, w, sqrt);
    var peak: nat :| PeakAt(s, mags, peak);
    PeakIsGlobal(s.samples, w, sqrt, 8, peak, k);
    Q15Monotone(Magnitude(sqrt, BinOf(s.samples, w, 8, k)), mags[peak]);
  }

  /** Some spectrum trips the instruction. */
  ghost predicate CanTrip(ins: Instr, ctx: Option<Context>) {
    exists s, mags :: HasPeak(s, mags) && StepSpec(ins, s, ctx).error.Some?
  }

  /** A peak of full amplitude in the highest bin kept. */
  function HighestPeak(): seq<real> {
    seq(128, i => if i == 127 then 512.0 else 0.0)
  }

  lemma HighestPeakSeen(s: Sensing)
    requires s.peakHz == 496 && s.peakAmp == 65535
    ensures HasPeak(s, HighestPeak())
  {
    var mags := HighestPeak();
    assert IsPeak(mags, 127);
    assert Freq(127, SAMPLE_RATE) == 496.09375;
    assert PeakAt(s, mags, 127);
  }

  /** At this sampling rate no frequency limit of 496 Hz or more is ever exceeded. */
  lemma FrequencyLimitIsDead(ins: Instr, s: Sensing, mags: seq<real>, ctx: Option<Context>)
    requires HasPeak(s, mags) && ins.opcode == 0x80 && ins.b >= 496
    ensures StepSpec(ins, s, ctx) == QUIET
  {
    hide IsPeak, Q15, Freq, ToU32;
    var peak: nat :| PeakAt(s, mags, peak);
    PeakFits(peak);
  }

  /** An assertion 0x80 can trip exactly when its frequency limit is below 496 Hz and its threshold below full scale. */
  lemma VibrationTripsIff(ins: Instr, ctx: Option<Context>)
    requires ins.opcode == 0x80
    ensures CanTrip(ins, ctx) <==> ins.b < 496 && ins.a < 65535
  {
    hide HasPeak, Magnitudes;
    if CanTrip(ins, ctx) {
      var s, mags :| HasPeak(s, mags) && StepSpec(ins, s, ctx).error.Some?;
      if ins.b >= 496 {
        FrequencyLimitIsDead(ins, s, mags, ctx);
      }
    }
    if ins.b < 496 && ins.a < 65535 {
      var s := Sensing(seq(256, _ => 0), 496, 65535, 0, 0, 0, false, Absent);
      HighestPeakSeen(s);
      assert StepSpec(ins, s, ctx).error.Some?;
    }
  }

  // ---------- a vibration that nothing sees ----------

  lemma {:induction false} SilentBands(mags: seq<real>, band: Band, i: nat)
    requires i <= |mags| && forall j | 0 <= j < |mags| :: mags[j] == 0.0
    ensures BandSum(mags, SAMPLE_RATE, band, i) == 0.0
  {
    if i > 1 {
      SilentBands(mags, band, i - 1);
    }
  }

  /**
   * A vibration at half the sampling rate, of any amplitude, shows in no peak and no energy, so no opcode that looks at
   * amplitudes or energies reacts to it, whatever its thresholds.
   */
  lemma FastestVibrationIsUnseen(a: int, ins: Instr, s: Sensing, w: nat -> Complex, sqrt: real -> real,
                                 ctx: Option<Context>)
    requires IsTwiddle(w, 8) && IsSqrt(sqrt) && Spectral(s, w, sqrt)
    requires s.samples == Alternating(a, 256)
    ensures s.peakAmp == s.low == s.mid == s.high == 0
    ensures ins.opcode in {0x80, 0x83, 0x84, 0x87} ==>
              StepSpec(ins, s, ctx) == QUIET || StepSpec(ins, s, ctx) == Refuse(UnauthorizedAccess)
  {
    NothingKept(a, s.samples, w, sqrt);
    ZeroSpectrum(s, Magnitudes(s.samples, 8, w, sqrt));
  }

  lemma NothingKept(a: int, samples: seq<int>, w: nat -> Complex, sqrt: real -> real)
    requires IsTwiddle(w, 8) && IsSqrt(sqrt) && samples == Alternating(a, 256)
    ensures var mags := Magnitudes(samples, 8, w, sqrt); forall i | 0 <= i < |mags| :: mags[i] == 0.0
  {
    hide BinOf, IsTwiddle, Alternating;
    Size256();
    MiddleBinIsLost(a, w, 8);
    RootOfZero(sqrt);
  }

  lemma RootOfZero(sqrt: real -> real)
    requires IsSqrt(sqrt)
    ensures sqrt(0.0) == 0.0
  {
    var r := sqrt(0.0);
    assert r * r == 0.0 * 0.0;
    SquaresEqual(r, 0.0);
  }

  lemma ZeroSpectrum(s: Sensing, mags: seq<real>)
    requires HasPeak(s, mags) && HasEnergies(s, mags)
    requires forall i | 0 <= i < |mags| :: mags[i] == 0.0
    ensures s.peakAmp == s.low == s.mid == s.high == 0
  {
    hide BandSum;
    SilentBands(mags, Low, 128);
    SilentBands(mags, Mid, 128);
    SilentBands(mags, High, 128);
  }
}
