/** What each opcode does, from the arguments of a builder call or the numbers of an instruction to the motor command. */
module StepLaws {
  import opened Wrappers
  import opened Bytes
  import opened Protocol
  import opened VmTypes
  import opened Spectrum
  import opened Gossip
  import opened RangingFilter
  import opened StdStep
  import opened Sensors
  import opened ScriptBuilder

  // ---------- 0x80 ----------

  /** Trips exactly when both the frequency and the amplitude of the peak exceed their limits, and reports both. */
  lemma VibrationLaw(pin: int, maxHz: U32, threshold: U16, s: Sensing, ctx: Option<Context>)
    ensures StepSpec(Packed(AssertVibration(pin, maxHz, threshold)), s, ctx) ==
            if s.peakHz > maxHz && s.peakAmp > threshold
            then StepResult(Some(VibrationHazard(s.peakHz, s.peakAmp)), [0], [])
            else StepResult(None, [], [])
  {
    hide Byte2, Byte0;
  }

  // ---------- 0x81 ----------

  lemma ResonanceAt(pin: int, channel: int, hz: U16, tolerance: byte, s: Sensing, ctx: Option<Context>)
    requires 0 <= channel < 8
    ensures StepSpec(Packed(AvoidResonance(pin, channel, hz, tolerance)), s, ctx) ==
            StepResult(None, if hz - tolerance <= s.peakHz <= hz + tolerance then [110] else [], [])
  {
    hide Packed, Byte2, Byte3;
    FieldsRecovered(AvoidResonance(pin, channel, hz, tolerance));
    PackedOpcode(AvoidResonance(pin, channel, hz, tolerance));
  }

  lemma PeakHertz(s: Sensing, mags: seq<real>, peak: nat)
    requires PeakAt(s, mags, peak) && peak < 128
    ensures s.peakHz == 125 * peak / 32
  {
    hide IsPeak, Freq, ToU32, Q15;
    Hertz(peak);
  }

  /** The amplitude of the peak is the whole part of 128 times its magnitude, up to 65535. */
  lemma PeakAmplitude(s: Sensing, mags: seq<real>, peak: nat)
    requires PeakAt(s, mags, peak) && mags[peak] >= 0.0
    ensures s.peakAmp == 65535 <==> 128.0 * mags[peak] >= 65535.0
    ensures s.peakAmp < 65535 ==> s.peakAmp as real <= 128.0 * mags[peak] < s.peakAmp as real + 1.0
  {
    hide IsPeak, Freq, ToU32, Q15;
    Q15Law(mags[peak]);
  }

  /** Commands 110 exactly when the strongest bin lies within the tolerance of the resonance, on both sides. */
  lemma ResonanceLaw(pin: int, channel: int, hz: U16, tolerance: byte, s: Sensing, mags: seq<real>, peak: nat,
                     ctx: Option<Context>)
    requires 0 <= channel < 8 && PeakAt(s, mags, peak) && peak < 128
    ensures StepSpec(Packed(AvoidResonance(pin, channel, hz, tolerance)), s, ctx) ==
            StepResult(None, if hz - tolerance <= 125 * peak / 32 <= hz + tolerance then [110] else [], [])
  {
    hide PeakAt, Packed, StepSpec;
    PeakHertz(s, mags, peak);
    ResonanceAt(pin, channel, hz, tolerance, s, ctx);
  }

  lemma PackedOpcode(call: Call)
    ensures Packed(call).opcode ==
            match call
            case AssertVibration(_, _, _) => 0x80
            case AvoidResonance(_, _, _, _) => 0x81
            case AssertMultiBand(_, _, _, _, _) => 0x83
            case AdaptiveControl(_, _, _, _, _) => 0x84
            case CheckEnvelope(_, _, _) => 0x85
            case SpatialConsensus(_, _, _, _, _) => 0x87
  {}

  // ---------- 0x83 ----------

  /** Under AND every selected band must exceed its threshold, and one be selected; under OR some selected band must. */
  lemma MultiBandLaw(pin: int, low: bool, mid: bool, high: bool, op: byte, lowMid: U16, highQ15: U16, s: Sensing,
                     ctx: Option<Context>)
    ensures var bands := (if low then 1 else 0) + (if mid then 2 else 0) + (if high then 4 else 0);
            StepSpec(Packed(AssertMultiBand(pin, bands, op, lowMid, highQ15)), s, ctx) ==
            if (if op == 0
                then (low || mid || high) && (low ==> s.low > lowMid) && (mid ==> s.mid > lowMid) && (high ==> s.high > highQ15)
                else (low && s.low > lowMid) || (mid && s.mid > lowMid) || (high && s.high > highQ15))
            then StepResult(Some(MultiBandSpectrumHazard), [0], [])
            else StepResult(None, [], [])
  {
    hide Packed, HighHalf, LowHalf;
    var bands := (if low then 1 else 0) + (if mid then 2 else 0) + (if high then 4 else 0);
    var call := AssertMultiBand(pin, bands, op, lowMid, highQ15);
    FieldsRecovered(call);
    PackedOpcode(call);
  }

  // ---------- 0x84 ----------

  /** With the energies of a spectrum: 115 if the middle band exceeds its threshold, else 70 if the low one does, else nothing. */
  lemma AdaptiveLaw(pin: int, channel: int, tolerance: int, low: U16, mid: U16, s: Sensing, mags: seq<real>,
                    ctx: Option<Context>)
    requires 0 <= channel < 8 && HasEnergies(s, mags)
    ensures StepSpec(Packed(AdaptiveControl(pin, channel, tolerance, low, mid)), s, ctx) ==
            StepResult(None, if s.mid > mid then [115] else if s.low > low then [70] else [], [])
  {
    hide Packed, HighHalf, LowHalf, HasEnergies;
    HighEnergyIsZero(s, mags);
    FieldsRecovered(AdaptiveControl(pin, channel, tolerance, low, mid));
    PackedOpcode(AdaptiveControl(pin, channel, tolerance, low, mid));
  }

  /** The shutdown that no spectrum reaches asks for more than half of full scale. */
  lemma AcousticArm(pin: byte, a: U16, b: U32, s: Sensing, ctx: Option<Context>)
    requires a / 256 < 8
    ensures var r := StepSpec(Instr(0x84, pin, a, b), s, ctx);
            r == StepResult(Some(AcousticFailureDetected), [0], []) <==> s.high > 32768
  {}

  /** Those energies: the low band is bins 1 to 25, the middle one bins 26 to 127, and the high one nothing. */
  lemma EnergiesLaw(s: Sensing, mags: seq<real>)
    requires HasEnergies(s, mags)
    ensures s.low == Q15(PlainSum(mags, 26)) && s.mid == Q15(PlainSum(mags, 128) - PlainSum(mags, 26)) && s.high == 0
  {
    hide Q15, BandSum;
    BandsAt1000(mags, 128);
    HighEnergyIsZero(s, mags);
  }

  // ---------- 0x87 ----------

  /**
   * With enough local energy it broadcasts, and then trips exactly when `k` others have an assertion of at least the score that
   * is no older than the window.
   */
  lemma ConsensusLaw(pin: int, threshold: U16, k: byte, windowMs: byte, score: U16, s: Sensing, ctx: Context)
    requires |ctx.recent| <= 8
    ensures var r := StepSpec(Packed(SpatialConsensus(pin, threshold, k, windowMs, score)), s, Some(ctx));
            var energy := if s.low + s.mid > 65535 then 65535 else s.low + s.mid;
            var others := set a | a in ctx.recent
              && ctx.now <= a.timestamp + 1000 * windowMs as int && a.score >= score && a.mac != ctx.myMac :: a.mac;
            r ==
            if energy <= threshold then StepResult(None, [], [])
            else
              var report := Message(SpatialGossip, GossipPayload(ctx.myMac, ctx.now, energy));
              if |others| >= k then StepResult(Some(MultiBandSpectrumHazard), [0], [report])
              else StepResult(None, [], [report])
  {
    hide Packed, LowHalf, Byte2, Byte3, Confirming, GossipPayload;
    var call := SpatialConsensus(pin, threshold, k, windowMs, score);
    FieldsRecovered(call);
    PackedOpcode(call);
    var window := 1000 * windowMs as int;
    var others := set a | a in ctx.recent && ctx.now <= a.timestamp + window && a.score >= score && a.mac != ctx.myMac :: a.mac;
    forall m
      ensures m in others <==> m in Confirming(ctx, window, score, |ctx.recent|)
    {
      ConfirmingMembers(ctx, window, score, m);
    }
    assert others == Confirming(ctx, window, score, |ctx.recent|);
    ConfirmingFits(ctx, window, score, |ctx.recent|);
  }

  // ---------- opcodes the builder does not offer ----------

  /**
   * 0x88 fades to the low byte of its first parameter; 0x89 trips on a tilt; the clock opcodes wait; and without a network
   * 0x87 does nothing.
   */
  lemma PlainOpcodes(pin: byte, a: U16, b: U32, s: Sensing, ctx: Option<Context>)
    ensures StepSpec(Instr(0x88, pin, a, b), s, ctx) == StepResult(None, [a % 256], [])
    ensures StepSpec(Instr(0x89, pin, a, b), s, ctx) ==
            if s.tilted then StepResult(Some(SensorFusionHazard), [0], []) else StepResult(None, [], [])
    ensures forall opcode | opcode == 0x86 || opcode == 0x8B ::
              StepSpec(Instr(opcode, pin, a, b), s, ctx) ==
              match s.clock
              case Absent => StepResult(Some(InvalidStdOpCode), [], [])
              case OnTime => StepResult(None, [], [])
              case Late => StepResult(Some(OutOfFuel), [], [])
    ensures StepSpec(Instr(0x87, pin, a, b), s, None) == StepResult(None, [], [])
  {}

  /**
   * 0x8A: the error is the setpoint less the average reading, rounded toward zero; the speed is a hundredth of gain times
   * error, within 0..255; more than 10000 units either way are a hazard, reported after the command.
   */
  lemma ControlLaw(pin: byte, setpoint: U16, gain: byte, channel: byte, s: Sensing, average: int, ctx: Option<Context>)
    requires channel < 8
    requires var sum := Sum(s.samples);
             if sum >= 0 then 256 * average <= sum < 256 * average + 256 else 256 * average - 256 < sum <= 256 * average
    ensures var r := StepSpec(Instr(0x8A, pin, setpoint, 0x100_0000 * gain as int + channel), s, ctx);
            var e := setpoint - average;
            && r.error == (if e > 10000 || e < -10000 then Some(PidHazard) else None) && r.sent == []
            && |r.speeds| == 1
            && (r.speeds[0] == 0 <==> gain * e < 100)
            && (r.speeds[0] == 255 <==> gain * e >= 25500)
            && (0 < r.speeds[0] < 255 ==> 100 * r.speeds[0] as int <= gain * e < 100 * r.speeds[0] as int + 100)
  {
    var ins := Instr(0x8A, pin, setpoint, 0x100_0000 * gain as int + channel);
    assert Byte3(ins.b) == gain && Byte0(ins.b) == channel;
    hide Byte3, Byte0, Sum, PidSpeed;
    assert PidError(ins, s) == setpoint - average;
    PidLaw(ins, s);
  }

  /** 0x8C on readings in 0..99: the step stops exactly when the upper median exceeds the threshold. */
  lemma RangingLaw(pin: byte, threshold: U16, window: byte, s: Sensing, ctx: Option<Context>)
    requires threshold < 0x8000 && 1 <= window <= 128
    requires forall i | 0 <= i < 256 :: 0 <= s.samples[i] < 100
    ensures StepSpec(Instr(0x8C, pin, threshold, window), s, ctx) ==
            if |set i | 0 <= i < window && s.samples[i] > threshold| >= window - window / 2
            then StepResult(Some(SpatialRangingHazard), [0], []) else StepResult(None, [], [])
  {
    hide RangingTrips;
    PlainReadings(s.samples, threshold, window);
  }

  // ---------- byte for byte ----------

  /** An instruction in its 8 bytes: opcode, pin, and two numbers, lowest byte first. */
  lemma InstrBytes(b: Bytes, k: nat)
    requires 8 * k + 8 <= |b|
    ensures var at := 8 * k;
            DecodeAt(b, k) ==
            Instr(b[at], b[at + 1], b[at + 2] as int + 0x100 * b[at + 3] as int,
                  b[at + 4] as int + 0x100 * b[at + 5] as int + 0x1_0000 * b[at + 6] as int + 0x100_0000 * b[at + 7] as int)
  {
    hide Le16, Le32;
    LowestFirst(b, 8 * k + 2);
    LowestFirst(b, 8 * k + 4);
  }

  lemma EncodedBytes(ins: Instr)
    ensures Encoded(ins) == [ins.opcode, ins.pin, ins.a % 0x100, ins.a / 0x100, ins.b % 0x100, ins.b / 0x100 % 0x100,
                             ins.b / 0x1_0000 % 0x100, ins.b / 0x100_0000]
  {
    hide ToLittleEndian;
    WrittenLowestFirst(ins.a);
    WrittenLowestFirst(ins.b);
    assert ins.a / 0x100 % 0x100 == ins.a / 0x100;
    assert ins.b / 0x100_0000 % 0x100 == ins.b / 0x100_0000;
  }

  lemma BytesOfFields(b: U32)
    ensures b % 0x100 == LowHalf(b) % 0x100 && b / 0x100 % 0x100 == LowHalf(b) / 0x100
    ensures b / 0x1_0000 % 0x100 == HighHalf(b) % 0x100 == Byte2(b)
    ensures b / 0x100_0000 == HighHalf(b) / 0x100 == Byte3(b)
  {
    var low, high := b % 0x1_0000, b / 0x1_0000;
    assert b == 0x100 * (0x100 * high + low / 0x100) + low % 0x100;
    assert b / 0x100 == 0x100 * high + low / 0x100;
  }

  lemma EncodedFields(ins: Instr)
    ensures Encoded(ins) == [ins.opcode, ins.pin, ins.a % 0x100, ins.a / 0x100,
                             LowHalf(ins.b) % 0x100, LowHalf(ins.b) / 0x100, Byte2(ins.b), Byte3(ins.b)]
    ensures Byte2(ins.b) == HighHalf(ins.b) % 0x100 && Byte3(ins.b) == HighHalf(ins.b) / 0x100
  {
    hide Encoded;
    EncodedBytes(ins);
    BytesOfFields(ins.b);
  }

  lemma WithinFields(n: U16, m: byte)
    ensures Low16(n) == n && Low8(m) == m
  {}

  lemma WithinWord(n: U32)
    ensures Low32(n) == n
  {}

  lemma ResonanceLow(pin: byte, channel: byte, hz: U16, tolerance: byte)
    ensures LowHalf(Packed(AvoidResonance(pin, channel, hz, tolerance)).b) == 0
  {
    WordOfThree(tolerance, channel, 0);
  }

  lemma ResonanceBytes(pin: byte, channel: byte, hz: U16, tolerance: byte)
    ensures Encoded(Packed(AvoidResonance(pin, channel, hz, tolerance)))
         == [0x81, pin, hz % 256, hz / 256, 0, 0, channel, tolerance]
  {
    hide *;
    var call := AvoidResonance(pin, channel, hz, tolerance);
    FieldsRecovered(call);
    PackedOpcode(call);
    WithinFields(hz, channel);
    WithinFields(hz, tolerance);
    WithinFields(hz, pin);
    ResonanceLow(pin, channel, hz, tolerance);
    EncodedFields(Packed(call));
    Channel81(Packed(call));
  }

  lemma Channel81(ins: Instr)
    ensures ins.opcode == 0x81 ==> MotorChannel(ins) == Some(Byte2(ins.b))
    ensures ins.opcode == 0x84 ==> MotorChannel(ins) == Some(ins.a / 0x100)
  {}

  lemma AdaptiveBytes(pin: byte, channel: byte, tolerance: byte, low: U16, mid: U16)
    ensures Encoded(Packed(AdaptiveControl(pin, channel, tolerance, low, mid)))
         == [0x84, pin, tolerance, channel, mid % 256, mid / 256, low % 256, low / 256]
  {
    hide *;
    var call := AdaptiveControl(pin, channel, tolerance, low, mid);
    FieldsRecovered(call);
    PackedOpcode(call);
    WithinFields(low, tolerance);
    WithinFields(mid, channel);
    WithinFields(mid, pin);
    EncodedFields(Packed(call));
    Channel81(Packed(call));
  }

  lemma ConsensusBytes(pin: byte, threshold: U16, k: byte, windowMs: byte, score: U16)
    ensures Encoded(Packed(SpatialConsensus(pin, threshold, k, windowMs, score)))
         == [0x87, pin, threshold % 256, threshold / 256, score % 256, score / 256, windowMs, k]
  {
    hide *;
    var call := SpatialConsensus(pin, threshold, k, windowMs, score);
    FieldsRecovered(call);
    PackedOpcode(call);
    WithinFields(threshold, k);
    WithinFields(score, windowMs);
    WithinFields(score, pin);
    EncodedFields(Packed(call));
  }

  lemma MultiBandBytes(pin: byte, bands: byte, op: byte, lowMid: U16, high: U16)
    ensures Encoded(Packed(AssertMultiBand(pin, bands, op, lowMid, high)))
         == [0x83, pin, bands, op, high % 256, high / 256, lowMid % 256, lowMid / 256]
  {
    hide *;
    var call := AssertMultiBand(pin, bands, op, lowMid, high);
    FieldsRecovered(call);
    PackedOpcode(call);
    WithinFields(lowMid, bands);
    WithinFields(high, op);
    WithinFields(high, pin);
    EncodedFields(Packed(call));
  }

  lemma VibrationBytes(pin: byte, maxHz: U32, threshold: U16)
    ensures Encoded(Packed(AssertVibration(pin, maxHz, threshold)))
         == [0x80, pin, threshold % 256, threshold / 256, maxHz % 0x100, maxHz / 0x100 % 0x100,
             maxHz / 0x1_0000 % 0x100, maxHz / 0x100_0000]
  {
    hide *;
    var call := AssertVibration(pin, maxHz, threshold);
    FieldsRecovered(call);
    PackedOpcode(call);
    WithinFields(threshold, pin);
    WithinWord(maxHz);
    EncodedBytes(Packed(call));
  }
}
