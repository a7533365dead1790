/** Exact complex arithmetic: the `Complex32` operations over reals, and the ring facts the transform needs. */
module ComplexNumbers {

  datatype Complex = Complex(re: real, im: real) {
    function Add(other: Complex): Complex {
      Complex(re + other.re, im + other.im)
    }

    function Sub(other: Complex): Complex {
      Complex(re - other.re, im - other.im)
    }

    function Mul(other: Complex): Complex {
      Complex(re * other.re - im * other.im, re * other.im + im * other.re)
    }

    /** The square of the magnitude; the source takes its root. */
    function NormSq(): real {
      re * re + im * im
    }

    function Conj(): Complex {
      Complex(re, -im)
    }
  }

  const ZERO := Complex(0.0, 0.0)
  const ONE := Complex(1.0, 0.0)
  const MINUS_ONE := Complex(-1.0, 0.0)

  function Pow(z: Complex, n: nat): Complex {
    if n == 0 then ONE else z.Mul(Pow(z, n - 1))
  }

  lemma MulCommutes(a: Complex, b: Complex)
    ensures a.Mul(b) == b.Mul(a)
  {}

  lemma MulOne(a: Complex)
    ensures a.Mul(ONE) == a
  {}

  lemma MulZero(a: Complex)
    ensures a.Mul(ZERO) == ZERO
  {}

  lemma MulMinusOne(a: Complex)
    ensures MINUS_ONE.Mul(a) == Complex(-a.re, -a.im)
  {}

  lemma MulAssociates(a: Complex, b: Complex, c: Complex)
    ensures a.Mul(b).Mul(c) == a.Mul(b.Mul(c))
  {
    assert (a.re * b.re - a.im * b.im) * c.re - (a.re * b.im + a.im * b.re) * c.im
        == a.re * (b.re * c.re - b.im * c.im) - a.im * (b.re * c.im + b.im * c.re);
    assert (a.re * b.re - a.im * b.im) * c.im + (a.re * b.im + a.im * b.re) * c.re
        == a.re * (b.re * c.im + b.im * c.re) + a.im * (b.re * c.re - b.im * c.im);
  }

  lemma MulDistributes(a: Complex, b: Complex, c: Complex)
    ensures a.Mul(b.Add(c)) == a.Mul(b).Add(a.Mul(c))
  {}

  lemma {:induction false} PowAdd(z: Complex, a: nat, b: nat)
    ensures Pow(z, a + b) == Pow(z, a).Mul(Pow(z, b))
  {
    if a > 0 {
      PowAdd(z, a - 1, b);
      MulAssociates(z, Pow(z, a - 1), Pow(z, b));
    }
  }

  lemma {:induction false} PowMul(z: Complex, a: nat, b: nat)
    ensures a * b >= 0 && Pow(Pow(z, a), b) == Pow(z, a * b)
  {
    if b > 0 {
      PowMul(z, a, b - 1);
      assert a * b == a + a * (b - 1);
      PowAdd(z, a, a * (b - 1));
    }
  }

  lemma {:induction false} PowSquare(z: Complex, k: nat)
    ensures Pow(z.Mul(z), k) == Pow(z, k).Mul(Pow(z, k))
  {
    if k > 0 {
      var p := Pow(z, k - 1);
      PowSquare(z, k - 1);
      MulAssociates(z, z, p.Mul(p));
      MulAssociates(z, p, p);
      MulCommutes(z.Mul(p), p);
      MulAssociates(z, p, z.Mul(p));
    }
  }

  lemma PowOfOne(k: nat)
    ensures Pow(ONE, k) == ONE
  {
    PowMul(ZERO, 0, k);
  }

  lemma ConjMul(a: Complex, b: Complex)
    ensures a.Mul(b).Conj() == a.Conj().Mul(b.Conj())
  {}

  lemma {:induction false} ConjPow(z: Complex, k: nat)
    ensures Pow(z, k).Conj() == Pow(z.Conj(), k)
  {
    if k > 0 {
      ConjPow(z, k - 1);
      ConjMul(z, Pow(z, k - 1));
    }
  }

  /** The norm is multiplicative, so a square root of a unit is a unit. */
  lemma NormSqMul(a: Complex, b: Complex)
    ensures a.Mul(b).NormSq() == a.NormSq() * b.NormSq()
  {
    var p, q, r, s := a.re * b.re, a.im * b.im, a.re * b.im, a.im * b.re;
    assert p * q == r * s;
    assert p * p == (a.re * a.re) * (b.re * b.re);
    assert q * q == (a.im * a.im) * (b.im * b.im);
    assert r * r == (a.re * a.re) * (b.im * b.im);
    assert s * s == (a.im * a.im) * (b.re * b.re);
    assert (p - q) * (p - q) + (r + s) * (r + s) == p * p + q * q + r * r + s * s;
  }
}
