/** What the kept half of a real spectrum determines, the peak finder, and the three energy bands. */
module Spectrum {
  import opened ComplexNumbers
  import opened Dft
  import opened Fft

  // ---------- conjugate symmetry ----------

  lemma {:induction false} TwiddleIsUnit(w: nat -> Complex, bits: nat, s: nat)
    requires IsTwiddle(w, bits) && 1 <= s <= bits
    ensures w(Pow2(s)).NormSq() == 1.0
  {
    if s == 1 {
      assert Pow2(1) == 2;
    } else {
      var z := w(Pow2(s));
      TwiddleIsUnit(w, bits, s - 1);
      assert Pow2(s) == 2 * Pow2(s - 1);
      NormSqMul(z, z);
      OnlyRoot(z.NormSq());
    }
  }

  lemma PositiveProduct(p: real, q: real)
    requires p > 0.0 && q > 0.0
    ensures p * q > 0.0
  {}

  lemma OnlyRoot(a: real)
    requires a >= 0.0 && a * a == 1.0
    ensures a == 1.0
  {
    if a > 1.0 {
      PositiveProduct(a - 1.0, a);
    } else if 0.0 < a < 1.0 {
      PositiveProduct(1.0 - a, a);
    }
  }

  lemma {:induction false} PowIsUnit(z: Complex, k: nat)
    requires z.NormSq() == 1.0
    ensures Pow(z, k).NormSq() == 1.0
  {
    hide Complex.Mul;
    if k > 0 {
      PowIsUnit(z, k - 1);
      NormSqMul(z, Pow(z, k - 1));
    }
  }

  lemma UnitTimesConj(z: Complex)
    requires z.NormSq() == 1.0
    ensures z.Mul(z.Conj()) == ONE
  {}

  lemma InverseIsConj(u: Complex, z: Complex)
    requires z.NormSq() == 1.0 && u.Mul(z) == ONE
    ensures u == z.Conj()
  {
    hide Complex.Mul;
    UnitTimesConj(z);
    MulAssociates(u, z, z.Conj());
    MulOne(u);
    MulCommutes(ONE, z.Conj());
    MulOne(z.Conj());
  }

  lemma InversePowers(w: Complex, p: nat, q: nat)
    requires w.NormSq() == 1.0 && Pow(w, p + q) == ONE
    ensures Pow(w, p) == Pow(w, q).Conj()
  {
    hide Complex.Mul;
    PowAdd(w, p, q);
    PowIsUnit(w, q);
    InverseIsConj(Pow(w, p), Pow(w, q));
  }

  lemma ProductsAdd(n: nat, k: nat, m: nat)
    requires k <= n
    ensures (n - k) * m >= 0 && k * m >= 0 && (n - k) * m + k * m == n * m
  {
    Distrib(n, k, m);
    MulMonotone(k, n, m);
  }

  /** The powers used by bin `n - k` are the conjugates of those used by bin `k`. */
  lemma MirroredPower(w: Complex, n: nat, k: nat, m: nat)
    requires k <= n && w.NormSq() == 1.0 && Pow(w, n) == ONE
    ensures (n - k) * m >= 0 && k * m >= 0 && Pow(w, (n - k) * m) == Pow(w, k * m).Conj()
  {
    hide Complex.Mul, Complex.NormSq, Pow;
    ProductsAdd(n, k, m);
    PowMul(w, n, m);
    PowOfOne(m);
    InversePowers(w, (n - k) * m, k * m);
  }

  lemma ConjOfTerm(acc: Complex, a: Complex, z: Complex)
    requires a.im == 0.0
    ensures acc.Add(a.Mul(z)).Conj() == acc.Conj().Add(a.Mul(z.Conj()))
  {}

  lemma {:induction false} MirroredSum(x: seq<Complex>, w: Complex, n: nat, k: nat, m: nat)
    requires forall i | 0 <= i < |x| :: x[i].im == 0.0
    requires k <= n && m <= |x| && w.NormSq() == 1.0 && Pow(w, n) == ONE
    ensures DftSum(x, w, n - k, m) == DftSum(x, w, k, m).Conj()
  {
    hide Complex.Mul;
    if m > 0 {
      MirroredSum(x, w, n, k, m - 1);
      MirroredPower(w, n, k, m - 1);
      ConjOfTerm(DftSum(x, w, k, m - 1), x[m - 1], Pow(w, k * (m - 1)));
    }
  }

  lemma ConjNorm(z: Complex)
    ensures z.Conj().NormSq() == z.NormSq()
  {}

  /** Bin `k` of the real samples. */
  function BinOf(samples: seq<int>, w: nat -> Complex, bits: nat, k: nat): Complex {
    DftSum(Padded(samples, Pow2(bits)), w(Pow2(bits)), k, Pow2(bits))
  }

  /** For real samples bin `n - k` is the conjugate of bin `k`, so their magnitudes agree. */
  lemma RealSpectrumIsSymmetric(samples: seq<int>, w: nat -> Complex, bits: nat, k: nat)
    requires IsTwiddle(w, bits) && 1 <= bits && k <= Pow2(bits)
    ensures BinOf(samples, w, bits, Pow2(bits) - k) == BinOf(samples, w, bits, k).Conj()
    ensures BinOf(samples, w, bits, Pow2(bits) - k).NormSq() == BinOf(samples, w, bits, k).NormSq()
  {
    hide Complex.Mul;
    hide DftSum;
    TwiddleIsUnit(w, bits, bits);
    FullTurn(w, bits, bits);
    MirroredSum(Padded(samples, Pow2(bits)), w(Pow2(bits)), Pow2(bits), k, Pow2(bits));
    ConjNorm(BinOf(samples, w, bits, k));
  }

  /** An impulse at place `at` gives bin `k` its value times `w^(k * at)`. With linearity that determines every bin. */
  lemma ImpulseBin(samples: seq<int>, at: nat, w: nat -> Complex, bits: nat, k: nat)
    requires at < |samples| && at < Pow2(bits) && forall i | 0 <= i < |samples| && i != at :: samples[i] == 0
    ensures BinOf(samples, w, bits, k) == Complex(samples[at] as real, 0.0).Mul(Pow(w(Pow2(bits)), k * at))
  {
    hide Complex.Mul, Pow;
    ImpulseSum(Padded(samples, Pow2(bits)), at, w(Pow2(bits)), k, Pow2(bits));
  }

  // ---------- magnitudes and their peak ----------

  /** A square root of every non-negative real. */
  ghost predicate IsSqrt(sqrt: real -> real) {
    forall x | x >= 0.0 :: sqrt(x) >= 0.0 && sqrt(x) * sqrt(x) == x
  }

  function Magnitude(sqrt: real -> real, z: Complex): real {
    sqrt(z.NormSq())
  }

  lemma NormSqIsNonNegative(z: Complex)
    ensures z.NormSq() >= 0.0
  {}

  lemma SquareGrows(a: real, b: real)
    requires a > b >= 0.0
    ensures a * a > b * b
  {
    PositiveProduct(a - b, a);
    assert (a - b) * b >= 0.0;
  }

  lemma SquaresEqual(a: real, b: real)
    requires a >= 0.0 && b >= 0.0 && a * a == b * b
    ensures a == b
  {
    if a > b {
      SquareGrows(a, b);
    } else if a < b {
      SquareGrows(b, a);
    }
  }

  lemma MagnitudeOrder(sqrt: real -> real, a: Complex, b: Complex)
    requires IsSqrt(sqrt)
    ensures Magnitude(sqrt, a) >= 0.0
    ensures Magnitude(sqrt, a) <= Magnitude(sqrt, b) <==> a.NormSq() <= b.NormSq()
  {
    NormSqIsNonNegative(a);
    NormSqIsNonNegative(b);
    hide Complex.NormSq;
    var p, q := Magnitude(sqrt, a), Magnitude(sqrt, b);
    if p > q {
      SquareGrows(p, q);
    } else if p < q {
      SquareGrows(q, p);
    }
  }

  /** A magnitude is the length of its bin. */
  lemma MagnitudeLaw(sqrt: real -> real, z: Complex)
    requires IsSqrt(sqrt)
    ensures var m := Magnitude(sqrt, z); m >= 0.0 && m * m == z.re * z.re + z.im * z.im
  {
    NormSqIsNonNegative(z);
  }

  /** The kept half of the spectrum. */
  function Magnitudes(samples: seq<int>, bits: nat, w: nat -> Complex, sqrt: real -> real): seq<real> {
    seq(Pow2(bits) / 2, k requires 0 <= k => Magnitude(sqrt, BinOf(samples, w, bits, k)))
  }

  method KeptMagnitudes(samples: seq<int>, bits: nat, w: nat -> Complex, sqrt: real -> real) returns (mags: seq<real>)
    requires IsTwiddle(w, bits)
    ensures mags == Magnitudes(samples, bits, w, sqrt)
  {
    hide Magnitude, DftSum;
    var data := HeaplessFft(samples, bits, w, Padded(samples, Pow2(bits)));
    mags := [];
    for i := 0 to Pow2(bits) / 2
      invariant |mags| == i
      invariant forall k | 0 <= k < i :: mags[k] == Magnitude(sqrt, data[k])
    {
      mags := mags + [Magnitude(sqrt, data[i])];
    }
  }

  /** The first largest entry outside the DC bin; 0 when there is none. */
  ghost predicate IsPeak(mags: seq<real>, peak: nat) {
    if |mags| <= 1 then peak == 0
    else
      && 1 <= peak < |mags|
      && (forall i | 1 <= i < |mags| :: mags[i] <= mags[peak])
      && (forall i | 1 <= i < peak :: mags[i] < mags[peak])
  }

  method PeakBin(mags: seq<real>) returns (peak: nat, maxMag: real)
    requires forall i | 0 <= i < |mags| :: mags[i] >= 0.0
    requires |mags| > 1
    ensures 1 <= peak < |mags| && maxMag == mags[peak]
    ensures forall i | 1 <= i < |mags| :: mags[i] <= mags[peak]
    ensures forall i | 1 <= i < peak :: mags[i] < mags[peak]
    ensures IsPeak(mags, peak)
  {
    maxMag := -1.0;
    peak := 0;
    for i := 1 to |mags|
      invariant i == 1 ==> maxMag == -1.0
      invariant i > 1 ==> peak < i && maxMag == mags[peak]
      invariant IsPeak(mags[..i], peak)
    {
      if mags[i] > maxMag {
        maxMag := mags[i];
        peak := i;
      }
    }
    assert mags[..|mags|] == mags;
  }

  /** The peak of the kept half is a peak of the whole spectrum outside the DC and the middle bin. */
  lemma PeakIsGlobal(samples: seq<int>, w: nat -> Complex, sqrt: real -> real, bits: nat, peak: nat, k: nat)
    requires IsTwiddle(w, bits) && 1 <= bits
    requires IsPeak(Magnitudes(samples, bits, w, sqrt), peak)
    requires 1 <= k < Pow2(bits) && k != Pow2(bits) / 2
    ensures Magnitude(sqrt, BinOf(samples, w, bits, k)) <= Magnitudes(samples, bits, w, sqrt)[peak]
  {
    hide BinOf, IsTwiddle, Magnitude;
    if k > Pow2(bits) / 2 {
      SymmetricMagnitude(samples, w, sqrt, bits, Pow2(bits) - k);
      assert Magnitude(sqrt, BinOf(samples, w, bits, k)) == Magnitudes(samples, bits, w, sqrt)[Pow2(bits) - k];
    } else {
      assert Magnitude(sqrt, BinOf(samples, w, bits, k)) == Magnitudes(samples, bits, w, sqrt)[k];
    }
  }

  lemma SymmetricMagnitude(samples: seq<int>, w: nat -> Complex, sqrt: real -> real, bits: nat, k: nat)
    requires IsTwiddle(w, bits) && 1 <= bits && k <= Pow2(bits)
    ensures Magnitude(sqrt, BinOf(samples, w, bits, Pow2(bits) - k)) == Magnitude(sqrt, BinOf(samples, w, bits, k))
  {
    hide BinOf, IsTwiddle;
    RealSpectrumIsSymmetric(samples, w, bits, k);
  }

  lemma Size256()
    ensures Pow2(8) == 256
  {
    assert Pow2(4) == 16;
  }

  /** A cast to an unsigned 32-bit integer saturates. */
  function ToU32(x: real): (n: nat)
    ensures n < 0x1_0000_0000
  {
    if x < 0.0 then 0 else if x >= 4294967295.0 then 0xFFFF_FFFF else x.Floor
  }

  /**
   * Frequency and amplitude of the strongest vibration: those of the first strongest of bins 1..127, which is at least
   * every bin of the whole spectrum but DC and the middle one.
   */
  ghost predicate Strongest(samples: seq<int>, sampleRate: real, w: nat -> Complex, sqrt: real -> real, peak: nat,
                            hz: nat, amp: int)
  {
    var mags := Magnitudes(samples, 8, w, sqrt);
    && IsPeak(mags, peak) && peak < |mags| == 128
    && hz == ToU32(Freq(peak, sampleRate)) && amp == Q15(mags[peak])
    && forall k | 1 <= k < 256 && k != 128 :: Magnitude(sqrt, BinOf(samples, w, 8, k)) <= mags[peak]
  }

  /** At 1000 samples a second bin `k` lies at `125 k / 32` hertz. */
  lemma Hertz(k: nat)
    requires k < 128
    ensures 32 * ToU32(Freq(k, 1000.0)) <= 125 * k < 32 * ToU32(Freq(k, 1000.0)) + 32
  {
    assert Freq(k, 1000.0) == (125 * k) as real / 32.0;
  }

  /** The Q15 amplitude is the whole part of 128 times the value, up to 65535. */
  lemma Q15Law(x: real)
    requires x >= 0.0
    ensures Q15(x) == 65535 <==> 128.0 * x >= 65535.0
    ensures Q15(x) < 65535 ==> Q15(x) as real <= 128.0 * x < Q15(x) as real + 1.0
  {}

  method LocalFixedFft(samples: seq<int>, sampleRate: real, w: nat -> Complex, sqrt: real -> real)
    returns (hz: nat, amp: int)
    requires IsTwiddle(w, 8) && IsSqrt(sqrt)
    ensures exists peak: nat :: Strongest(samples, sampleRate, w, sqrt, peak, hz, amp)
  {
    hide BinOf, IsTwiddle, Q15, Magnitude;
    Size256();
    var mags := KeptMagnitudes(samples, 8, w, sqrt);
    MagnitudesNonNegative(samples, 8, w, sqrt);
    var peak, maxMag := PeakBin(mags);
    hz, amp := ToU32(peak as real * (sampleRate / 256.0)), Q15(maxMag);
    forall k | 1 <= k < 256 && k != 128
      ensures Magnitude(sqrt, BinOf(samples, w, 8, k)) <= mags[peak]
    {
      PeakIsGlobal(samples, w, sqrt, 8, peak, k);
    }
    assert Strongest(samples, sampleRate, w, sqrt, peak, hz, amp);
  }

  lemma MagnitudesNonNegative(samples: seq<int>, bits: nat, w: nat -> Complex, sqrt: real -> real)
    requires IsSqrt(sqrt)
    ensures var mags := Magnitudes(samples, bits, w, sqrt); forall i | 0 <= i < |mags| :: mags[i] >= 0.0
  {
    hide BinOf, Magnitude, IsSqrt;
    forall k: nat
      ensures Magnitude(sqrt, BinOf(samples, w, bits, k)) >= 0.0
    {
      MagnitudeOrder(sqrt, BinOf(samples, w, bits, k), ZERO);
    }
  }

  // ---------- bands ----------

  /** Frequency of bin `i`. */
  function Freq(i: nat, sampleRate: real): real {
    i as real * (sampleRate / 256.0)
  }

  datatype Band = Low | Mid | High

  function BandOf(freq: real): Band {
    if freq < 100.0 then Low else if freq < 1000.0 then Mid else High
  }

  /** The magnitudes of bins `1..i` that lie in `band`, summed. */
  function BandSum(mags: seq<real>, sampleRate: real, band: Band, i: nat): real
    requires i <= |mags|
  {
    if i <= 1 then 0.0
    else BandSum(mags, sampleRate, band, i - 1)
         + if BandOf(Freq(i - 1, sampleRate)) == band then mags[i - 1] else 0.0
  }

  /** Q15 conversion: a saturating cast to 16 bits. */
  function Q15(sum: real): (q: int)
    ensures sum >= 0.0 ==> 0 <= q <= 65535
  {
    var scaled := sum / 256.0 * 32768.0;
    if scaled < 65535.0 then scaled.Floor else 65535
  }

  method BandEnergies(mags: seq<real>, sampleRate: real) returns (low: int, mid: int, high: int)
    requires |mags| == 128
    ensures low == Q15(BandSum(mags, sampleRate, Low, 128))
    ensures mid == Q15(BandSum(mags, sampleRate, Mid, 128))
    ensures high == Q15(BandSum(mags, sampleRate, High, 128))
  {
    var lowSum, midSum, highSum := 0.0, 0.0, 0.0;
    for i := 1 to 128
      invariant lowSum == BandSum(mags, sampleRate, Low, i)
      invariant midSum == BandSum(mags, sampleRate, Mid, i)
      invariant highSum == BandSum(mags, sampleRate, High, i)
    {
      var freq := i as real * (sampleRate / 256.0);
      if freq < 100.0 {
        lowSum := lowSum + mags[i];
      } else if freq < 1000.0 {
        midSum := midSum + mags[i];
      } else {
        highSum := highSum + mags[i];
      }
    }
    low, mid, high := Q15(lowSum), Q15(midSum), Q15(highSum);
  }

  /** Which band bin `i` counts in: it lies at `i / 256` of the rate, and the edges are at 100 and 1000 Hz; bin 0 in none. */
  lemma BandEdges(mags: seq<real>, sampleRate: real, i: nat)
    requires 1 <= i < |mags|
    ensures forall band :: BandSum(mags, sampleRate, band, 1) == 0.0
    ensures BandSum(mags, sampleRate, Low, i + 1)
         == BandSum(mags, sampleRate, Low, i) + if i as real * sampleRate < 25600.0 then mags[i] else 0.0
    ensures BandSum(mags, sampleRate, Mid, i + 1)
         == BandSum(mags, sampleRate, Mid, i) + if 25600.0 <= i as real * sampleRate < 256000.0 then mags[i] else 0.0
    ensures BandSum(mags, sampleRate, High, i + 1)
         == BandSum(mags, sampleRate, High, i) + if i as real * sampleRate >= 256000.0 then mags[i] else 0.0
  {
    assert Freq(i, sampleRate) == i as real * sampleRate / 256.0;
  }

  /** At 1000 Hz the low band is bins 1 to 25, and the middle band all the others. */
  lemma {:induction false} BandsAt1000(mags: seq<real>, i: nat)
    requires i <= |mags| && i <= 128
    ensures BandSum(mags, 1000.0, Low, i) == PlainSum(mags, if i <= 26 then i else 26)
    ensures BandSum(mags, 1000.0, Mid, i) == PlainSum(mags, i) - PlainSum(mags, if i <= 26 then i else 26)
  {
    if i > 1 {
      BandsAt1000(mags, i - 1);
      BandEdges(mags, 1000.0, i - 1);
    }
  }

  /** Nothing is lost between the bands. */
  lemma {:induction false} BandsPartition(mags: seq<real>, sampleRate: real, i: nat)
    requires i <= |mags|
    ensures BandSum(mags, sampleRate, Low, i) + BandSum(mags, sampleRate, Mid, i) + BandSum(mags, sampleRate, High, i)
         == PlainSum(mags, i)
  {
    if i > 1 {
      BandsPartition(mags, sampleRate, i - 1);
    }
  }

  function PlainSum(mags: seq<real>, i: nat): real
    requires i <= |mags|
  {
    if i <= 1 then 0.0 else PlainSum(mags, i - 1) + mags[i - 1]
  }

  /**
   * At the constant 1000 Hz rate every kept bin lies below 500 Hz, so the high band is empty and its energy is
   * always 0.
   */
  lemma {:induction false} HighBandIsSilent(mags: seq<real>, i: nat)
    requires i <= |mags| && i <= 128
    ensures BandSum(mags, 1000.0, High, i) == 0.0
    ensures Q15(BandSum(mags, 1000.0, High, i)) == 0
  {
    if i > 1 {
      HighBandIsSilent(mags, i - 1);
      assert Freq(i - 1, 1000.0) < 500.0;
    }
  }
}
