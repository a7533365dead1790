/** What the kept half of a spectrum says about the rest of it: everything but the middle bin. */
module MiddleBin {
  import opened ComplexNumbers
  import opened Dft
  import opened Fft
  import opened Spectrum

  // ---------- a constant signal ----------

  function Constant(c: Complex, n: nat): (x: seq<Complex>)
    ensures |x| == n
  {
    seq(n, _ => c)
  }

  lemma {:induction false} EvalConstant(c: Complex, n: nat, z: Complex)
    ensures Eval(Constant(c, n), z) == c.Mul(Eval(Constant(ONE, n), z))
  {
    hide Complex.Mul;
    if n == 0 {
      MulZero(c);
    } else {
      var rest := Eval(Constant(ONE, n - 1), z);
      assert Constant(c, n)[1..] == Constant(c, n - 1) && Constant(ONE, n)[1..] == Constant(ONE, n - 1);
      EvalConstant(c, n - 1, z);
      MulDistributes(c, ONE, z.Mul(rest));
      MulOne(c);
      MulAssociates(z, c, rest);
      MulCommutes(z, c);
      MulAssociates(c, z, rest);
    }
  }

  /** Pairing the terms takes out a factor `1 + z`. */
  lemma PairOnes(t: nat, z: Complex)
    ensures Eval(Constant(ONE, Pow2(t + 1)), z) == ONE.Add(z).Mul(Eval(Constant(ONE, Pow2(t)), z.Mul(z)))
  {
    hide Complex.Mul;
    var x, e := Constant(ONE, Pow2(t + 1)), Eval(Constant(ONE, Pow2(t)), z.Mul(z));
    EvalSplit(x, z);
    assert Evens(x) == Constant(ONE, Pow2(t)) && Odds(x) == Constant(ONE, Pow2(t));
    MulCommutes(ONE.Add(z), e);
    MulDistributes(e, ONE, z);
    MulOne(e);
    MulCommutes(e, z);
  }

  lemma OddMultiple(k: nat, p: nat)
    requires p > 0 && k % p == 0 && k % (2 * p) != 0
    ensures k == p * (k / p) && k / p % 2 == 1
  {
    var q := k / p;
    assert k == p * q;
    if q % 2 == 0 {
      var h := q / 2;
      assert k == h * (2 * p);
      DivModAt(h, 0, 2 * p);
    }
  }

  lemma {:induction false} OddPowerOfMinusOne(q: nat)
    requires q % 2 == 1
    ensures Pow(MINUS_ONE, q) == MINUS_ONE
  {
    if q == 1 {
      MulOne(MINUS_ONE);
    } else {
      OddPowerOfMinusOne(q - 2);
      assert Pow(MINUS_ONE, q) == MINUS_ONE.Mul(MINUS_ONE.Mul(Pow(MINUS_ONE, q - 2)));
    }
  }

  /** A constant signal has nothing in any bin but those at multiples of its length. */
  lemma {:induction false} ConstantIsDc(w: nat -> Complex, bits: nat, t: nat, k: nat)
    requires IsTwiddle(w, bits) && t <= bits && k % Pow2(t) != 0
    ensures Eval(Constant(ONE, Pow2(t)), Pow(w(Pow2(t)), k)) == ZERO
  {
    hide Complex.Mul;
    var z, half := Pow(w(Pow2(t)), k), Pow2(t - 1);
    PairOnes(t - 1, z);
    if k % half == 0 {
      OddMultiple(k, half);
      PowMul(w(Pow2(t)), half, k / half);
      HalfTurn(w, bits, t);
      OddPowerOfMinusOne(k / half);
      MulCommutes(ZERO, Eval(Constant(ONE, half), z.Mul(z)));
      MulZero(Eval(Constant(ONE, half), z.Mul(z)));
    } else {
      ConstantIsDc(w, bits, t - 1, k);
      PowSquare(w(Pow2(t)), k);
      assert Pow2(t) == 2 * half;
      MulZero(ONE.Add(z));
    }
  }

  lemma {:induction false} OnesAtOne(n: nat)
    ensures Eval(Constant(ONE, n), ONE) == Complex(n as real, 0.0)
  {
    if n > 0 {
      assert Constant(ONE, n)[1..] == Constant(ONE, n - 1);
      OnesAtOne(n - 1);
    }
  }

  // ---------- the alternating signal ----------

  /** The fastest vibration there is at this sampling rate, of any amplitude. */
  function Alternating(a: int, n: nat): seq<int> {
    seq(n, i => if i % 2 == 0 then a else -a)
  }

  function Silence(n: nat): seq<int> {
    seq(n, _ => 0)
  }

  lemma Negated(c: Complex, e: Complex, z: Complex)
    ensures c.Mul(e).Add(z.Mul(MINUS_ONE.Mul(c).Mul(e))) == ONE.Sub(z).Mul(c.Mul(e))
  {
    hide Complex.Mul;
    var q := c.Mul(e);
    MulAssociates(MINUS_ONE, c, e);
    MulAssociates(z, MINUS_ONE, q);
    MulCommutes(z, MINUS_ONE);
    MulMinusOne(z);
    MulCommutes(ONE.Sub(z), q);
    MulDistributes(q, ONE, MINUS_ONE.Mul(z));
    MulOne(q);
    MulCommutes(q, MINUS_ONE.Mul(z));
  }

  lemma AlternatingEval(a: int, t: nat, z: Complex)
    ensures Eval(Padded(Alternating(a, Pow2(t + 1)), Pow2(t + 1)), z)
         == ONE.Sub(z).Mul(Complex(a as real, 0.0).Mul(Eval(Constant(ONE, Pow2(t)), z.Mul(z))))
  {
    hide Complex.Mul;
    var x, c := Padded(Alternating(a, Pow2(t + 1)), Pow2(t + 1)), Complex(a as real, 0.0);
    EvalSplit(x, z);
    assert Evens(x) == Constant(c, Pow2(t));
    assert Odds(x) == Constant(MINUS_ONE.Mul(c), Pow2(t)) by {
      MulMinusOne(c);
    }
    hide Eval, Constant, Padded, Alternating, Pow2, Evens, Odds;
    EvalConstant(c, Pow2(t), z.Mul(z));
    EvalConstant(MINUS_ONE.Mul(c), Pow2(t), z.Mul(z));
    Negated(c, Eval(Constant(ONE, Pow2(t)), z.Mul(z)), z);
  }

  lemma BinIsEval(samples: seq<int>, w: nat -> Complex, bits: nat, k: nat)
    ensures BinOf(samples, w, bits, k) == Eval(Padded(samples, Pow2(bits)), Pow(w(Pow2(bits)), k))
  {
    var x := Padded(samples, Pow2(bits));
    DftSumIsEval(x, w(Pow2(bits)), k, Pow2(bits));
    assert x[..Pow2(bits)] == x;
  }

  /** Below the middle bin one of the two factors vanishes. */
  lemma FactorVanishes(w: nat -> Complex, bits: nat, k: nat)
    requires IsTwiddle(w, bits) && 1 <= bits && k < Pow2(bits - 1)
    ensures var z := Pow(w(Pow2(bits)), k);
            z == ONE || Eval(Constant(ONE, Pow2(bits - 1)), z.Mul(z)) == ZERO
  {
    hide Complex.Mul, Eval, Constant;
    if k > 0 {
      DivModAt(0, k, Pow2(bits - 1));
      assert k % Pow2(bits - 1) == k;
      ConstantIsDc(w, bits, bits - 1, k);
      PowSquare(w(Pow2(bits)), k);
      assert bits > 1 && Pow2(bits) == 2 * Pow2(bits - 1);
    }
  }

  lemma MiddleFactors(w: nat -> Complex, bits: nat)
    requires IsTwiddle(w, bits) && 1 <= bits
    ensures var z := Pow(w(Pow2(bits)), Pow2(bits - 1));
            z == MINUS_ONE && Eval(Constant(ONE, Pow2(bits - 1)), z.Mul(z)) == Complex(Pow2(bits - 1) as real, 0.0)
  {
    hide Complex.Mul, Eval, Constant;
    HalfTurn(w, bits, bits);
    MulMinusOne(MINUS_ONE);
    OnesAtOne(Pow2(bits - 1));
  }

  lemma AlternatingBin(a: int, w: nat -> Complex, bits: nat, k: nat)
    requires 1 <= bits
    ensures var z := Pow(w(Pow2(bits)), k);
            BinOf(Alternating(a, Pow2(bits)), w, bits, k) ==
            ONE.Sub(z).Mul(Complex(a as real, 0.0).Mul(Eval(Constant(ONE, Pow2(bits - 1)), z.Mul(z))))
  {
    hide *;
    BinIsEval(Alternating(a, Pow2(bits)), w, bits, k);
    AlternatingEval(a, bits - 1, Pow(w(Pow2(bits)), k));
  }

  lemma AlternatingKept(a: int, w: nat -> Complex, bits: nat, k: nat)
    requires IsTwiddle(w, bits) && 1 <= bits && k < Pow2(bits - 1)
    ensures BinOf(Alternating(a, Pow2(bits)), w, bits, k) == ZERO
  {
    hide *;
    var z := Pow(w(Pow2(bits)), k);
    AlternatingBin(a, w, bits, k);
    FactorVanishes(w, bits, k);
    ZeroFactor(z, Complex(a as real, 0.0), Eval(Constant(ONE, Pow2(bits - 1)), z.Mul(z)));
  }

  lemma AlternatingMiddle(a: int, w: nat -> Complex, bits: nat)
    requires IsTwiddle(w, bits) && 1 <= bits
    ensures BinOf(Alternating(a, Pow2(bits)), w, bits, Pow2(bits - 1)) == RealProduct(a, Pow2(bits))
  {
    assert Pow2(bits) == 2 * Pow2(bits - 1);
    hide *;
    AlternatingBin(a, w, bits, Pow2(bits - 1));
    MiddleFactors(w, bits);
    TwiceReal(a, Pow2(bits - 1), Pow2(bits));
  }

  lemma ZeroFactor(z: Complex, c: Complex, e: Complex)
    requires z == ONE || e == ZERO
    ensures ONE.Sub(z).Mul(c.Mul(e)) == ZERO
  {}

  function RealProduct(a: int, n: nat): Complex {
    Complex(a as real * n as real, 0.0)
  }

  lemma TwiceReal(a: int, half: nat, n: nat)
    requires n == 2 * half
    ensures ONE.Sub(MINUS_ONE).Mul(Complex(a as real, 0.0).Mul(Complex(half as real, 0.0))) == RealProduct(a, n)
  {
    var p, q := a as real, half as real;
    assert Complex(p, 0.0).Mul(Complex(q, 0.0)) == Complex(p * q, 0.0);
    assert n as real == 2.0 * q;
  }

  lemma {:induction false} SilentSum(x: seq<Complex>, w: Complex, k: nat, m: nat)
    requires m <= |x| && forall i | 0 <= i < |x| :: x[i] == ZERO
    ensures DftSum(x, w, k, m) == ZERO
  {
    hide Complex.Mul, Pow;
    if m > 0 {
      SilentSum(x, w, k, m - 1);
      MulCommutes(ZERO, Pow(w, k * (m - 1)));
      MulZero(Pow(w, k * (m - 1)));
    }
  }

  /**
   * At every size and amplitude the alternating signal has the same kept half as silence, nothing at all; its middle bin
   * has its amplitude times the size, that of silence 0.
   */
  lemma MiddleBinIsLost(a: int, w: nat -> Complex, bits: nat)
    requires IsTwiddle(w, bits) && 1 <= bits
    ensures var n := Pow2(bits);
            && (forall k: nat | k < n / 2 :: BinOf(Alternating(a, n), w, bits, k).NormSq() == 0.0)
            && (forall k: nat :: BinOf(Silence(n), w, bits, k).NormSq() == 0.0)
            && BinOf(Alternating(a, n), w, bits, n / 2) == RealProduct(a, n)
  {
    hide BinOf, Alternating, Silence;
    var n := Pow2(bits);
    assert n == 2 * Pow2(bits - 1);
    forall k: nat | k < n / 2
      ensures BinOf(Alternating(a, n), w, bits, k).NormSq() == 0.0
    {
      AlternatingKept(a, w, bits, k);
    }
    forall k: nat
      ensures BinOf(Silence(n), w, bits, k).NormSq() == 0.0
    {
      SilentBin(w, bits, k);
    }
    AlternatingMiddle(a, w, bits);
  }

  lemma SilentBin(w: nat -> Complex, bits: nat, k: nat)
    ensures BinOf(Silence(Pow2(bits)), w, bits, k) == ZERO
  {
    SilentSum(Padded(Silence(Pow2(bits)), Pow2(bits)), w(Pow2(bits)), k, Pow2(bits));
  }

  // ---------- what is determined ----------

  /** The kept magnitudes of two signals agree. */
  ghost predicate SameKept(w: nat -> Complex, bits: nat, x: seq<int>, y: seq<int>) {
    forall k: nat | k < Pow2(bits) / 2 :: BinOf(x, w, bits, k).NormSq() == BinOf(y, w, bits, k).NormSq()
  }

  /** The kept magnitudes determine the magnitude of bin `k`. */
  ghost predicate Determined(w: nat -> Complex, bits: nat, k: nat) {
    forall x, y | SameKept(w, bits, x, y) :: BinOf(x, w, bits, k).NormSq() == BinOf(y, w, bits, k).NormSq()
  }

  /** They determine every bin but the middle one. */
  lemma DeterminedIff(w: nat -> Complex, bits: nat, k: nat)
    requires IsTwiddle(w, bits) && 1 <= bits && k < Pow2(bits)
    ensures Determined(w, bits, k) <==> k != Pow2(bits) / 2
  {
    hide BinOf, IsTwiddle;
    var n := Pow2(bits);
    if k == n / 2 {
      MiddleBinIsLost(1, w, bits);
      assert SameKept(w, bits, Alternating(1, n), Silence(n));
      assert RealProduct(1, n).re >= 1.0;
    } else if k > n / 2 {
      forall x, y | SameKept(w, bits, x, y)
        ensures BinOf(x, w, bits, k).NormSq() == BinOf(y, w, bits, k).NormSq()
      {
        RealSpectrumIsSymmetric(x, w, bits, n - k);
        RealSpectrumIsSymmetric(y, w, bits, n - k);
      }
    }
  }
}
