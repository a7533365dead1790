/**
 * Exact twiddles exist wherever non-negative reals have square roots: the half-angle construction from the angle
 * of minus pi.
 */
module Twiddles {
  import opened ComplexNumbers
  import opened Dft
  import opened Spectrum

  /** Cosine and sine of minus 2 pi over `2^s`, by halving the angle `s - 1` times. */
  function HalfAngle(sqrt: real -> real, s: nat): Complex {
    if s <= 1 then MINUS_ONE else Halved(sqrt, HalfAngle(sqrt, s - 1))
  }

  function Halved(sqrt: real -> real, z: Complex): Complex {
    Complex(sqrt((1.0 + z.re) / 2.0), -sqrt((1.0 - z.re) / 2.0))
  }

  lemma MinusOneIsUnit()
    ensures MINUS_ONE.NormSq() == 1.0
  {}

  lemma UnitBounds(z: Complex)
    requires z.NormSq() == 1.0
    ensures -1.0 <= z.re <= 1.0
  {
    var re := z.re;
    if re > 1.0 {
      PositiveProduct(re - 1.0, re);
    } else if re < -1.0 {
      PositiveProduct(-1.0 - re, -re);
    }
  }

  /** Squares of the two components and of twice their product. */
  lemma RootParts(z: Complex, a: real, b: real)
    requires z.NormSq() == 1.0 && z.im <= 0.0 && a >= 0.0 && b >= 0.0
    requires a * a == (1.0 + z.re) / 2.0 && b * b == (1.0 - z.re) / 2.0
    ensures Complex(a, -b).Mul(Complex(a, -b)) == z
    ensures Complex(a, -b).NormSq() == 1.0
  {
    var p := a * b;
    assert p >= 0.0;
    assert p * p == (a * a) * (b * b);
    assert (2.0 * p) * (2.0 * p) == 4.0 * (p * p);
    assert (1.0 + z.re) * (1.0 - z.re) == 1.0 - z.re * z.re;
    assert ((1.0 + z.re) / 2.0) * ((1.0 - z.re) / 2.0) == (1.0 - z.re * z.re) / 4.0;
    SquaresEqual(2.0 * p, -z.im);
  }

  lemma HalvedSquares(sqrt: real -> real, z: Complex)
    requires IsSqrt(sqrt) && z.NormSq() == 1.0 && z.im <= 0.0
    ensures var r := Halved(sqrt, z); r.Mul(r) == z && r.NormSq() == 1.0 && r.im <= 0.0
  {
    UnitBounds(z);
    var p, q := (1.0 + z.re) / 2.0, (1.0 - z.re) / 2.0;
    assert sqrt(p) >= 0.0 && sqrt(p) * sqrt(p) == p;
    assert sqrt(q) >= 0.0 && sqrt(q) * sqrt(q) == q;
    hide Complex.Mul, Complex.NormSq, IsSqrt;
    RootParts(z, sqrt(p), sqrt(q));
  }

  lemma {:induction false} HalfAngleSquares(sqrt: real -> real, s: nat)
    requires IsSqrt(sqrt) && s >= 1
    ensures var z := HalfAngle(sqrt, s); z.NormSq() == 1.0 && z.im <= 0.0
    ensures s > 1 ==> HalfAngle(sqrt, s).Mul(HalfAngle(sqrt, s)) == HalfAngle(sqrt, s - 1)
  {
    hide Complex.Mul, Complex.NormSq, IsSqrt, Halved;
    if s == 1 {
      MinusOneIsUnit();
    } else {
      HalfAngleSquares(sqrt, s - 1);
      HalvedSquares(sqrt, HalfAngle(sqrt, s - 1));
    }
  }

  function Log2(n: nat): nat {
    if n <= 1 then 0 else 1 + Log2(n / 2)
  }

  lemma {:induction false} Log2OfPow2(s: nat)
    ensures Log2(Pow2(s)) == s
  {
    if s > 0 {
      Log2OfPow2(s - 1);
    }
  }

  lemma FirstHalfAngle(sqrt: real -> real)
    ensures HalfAngle(sqrt, Log2(2)) == MINUS_ONE
  {
    assert Log2(1) == 0;
  }

  /** So the transform's assumption can be met for every size. */
  lemma TwiddlesExist(sqrt: real -> real, bits: nat)
    requires IsSqrt(sqrt)
    ensures exists w :: IsTwiddle(w, bits)
  {
    hide Complex.Mul, HalfAngle, Log2;
    var w := (n: nat) => HalfAngle(sqrt, Log2(n));
    assert w(2) == MINUS_ONE by {
      FirstHalfAngle(sqrt);
    }
    forall s | 1 <= s < bits
      ensures w(2 * Pow2(s)).Mul(w(2 * Pow2(s))) == w(Pow2(s))
    {
      assert Pow2(s + 1) == 2 * Pow2(s);
      Log2OfPow2(s);
      Log2OfPow2(s + 1);
      HalfAngleSquares(sqrt, s + 1);
    }
    assert IsTwiddle(w, bits);
  }
}
