/** The discrete Fourier transform as a plain sum, and why one butterfly stage doubles the block it is known for. */
module Dft {
  import opened ComplexNumbers

  function Pow2(k: nat): (r: nat)
    ensures r >= 1
  {
    if k == 0 then 1 else 2 * Pow2(k - 1)
  }

  /** The first `m` terms of the defining sum of bin `k`. */
  function DftSum(x: seq<Complex>, w: Complex, k: nat, m: nat): Complex
    requires m <= |x|
  {
    if m == 0 then ZERO else DftSum(x, w, k, m - 1).Add(x[m - 1].Mul(Pow(w, k * (m - 1))))
  }

  /** The polynomial with coefficients `x`, at `z`. */
  function Eval(x: seq<Complex>, z: Complex): Complex {
    if x == [] then ZERO else x[0].Add(z.Mul(Eval(x[1..], z)))
  }

  lemma {:induction false} EvalSnoc(x: seq<Complex>, a: Complex, z: Complex)
    ensures Eval(x + [a], z) == Eval(x, z).Add(a.Mul(Pow(z, |x|)))
  {
    hide Complex.Mul;
    if x == [] {
      assert (x + [a])[1..] == [];
      MulZero(z);
      MulOne(a);
    } else {
      var p := Pow(z, |x| - 1);
      assert (x + [a])[1..] == x[1..] + [a];
      EvalSnoc(x[1..], a, z);
      MulDistributes(z, Eval(x[1..], z), a.Mul(p));
      MulAssociates(z, a, p);
      MulCommutes(z, a);
      MulAssociates(a, z, p);
    }
  }

  /** Bin `k` is the polynomial at `w^k`. */
  lemma {:induction false} DftSumIsEval(x: seq<Complex>, w: Complex, k: nat, m: nat)
    requires m <= |x|
    ensures DftSum(x, w, k, m) == Eval(x[..m], Pow(w, k))
  {
    hide Complex.Mul;
    if m > 0 {
      DftSumIsEval(x, w, k, m - 1);
      assert x[..m] == x[..m - 1] + [x[m - 1]];
      EvalSnoc(x[..m - 1], x[m - 1], Pow(w, k));
      PowMul(w, k, m - 1);
    }
  }

  function Evens(x: seq<Complex>): (r: seq<Complex>)
    ensures |r| == (|x| + 1) / 2
  {
    seq((|x| + 1) / 2, i requires 0 <= i < (|x| + 1) / 2 => x[2 * i])
  }

  function Odds(x: seq<Complex>): (r: seq<Complex>)
    ensures |r| == |x| / 2
  {
    seq(|x| / 2, i requires 0 <= i < |x| / 2 => x[2 * i + 1])
  }

  /** Splitting a polynomial into its even and odd coefficients. */
  lemma {:induction false} EvalSplit(x: seq<Complex>, z: Complex)
    ensures Eval(x, z) == Eval(Evens(x), z.Mul(z)).Add(z.Mul(Eval(Odds(x), z.Mul(z))))
  {
    hide Complex.Mul;
    if x == [] {
      MulZero(z);
    } else {
      var e, o := Eval(Evens(x[1..]), z.Mul(z)), Eval(Odds(x[1..]), z.Mul(z));
      EvalSplit(x[1..], z);
      assert Evens(x)[1..] == Odds(x[1..]);
      assert Odds(x) == Evens(x[1..]);
      MulDistributes(z, e, z.Mul(o));
      MulAssociates(z, z, o);
    }
  }

  /** The samples that block `b` of size `|x| / 2^t` transforms: the low bit of `b` chose last. */
  function Sub(x: seq<Complex>, t: nat, b: nat): seq<Complex> {
    if t == 0 then x
    else if b % 2 == 0 then Evens(Sub(x, t - 1, b / 2))
    else Odds(Sub(x, t - 1, b / 2))
  }

  /** The low `t` bits of `b`, reversed. */
  function Rev(t: nat, b: nat): (r: nat)
    ensures r < Pow2(t)
  {
    if t == 0 then 0 else (if b % 2 == 1 then Pow2(t - 1) else 0) + Rev(t - 1, b / 2)
  }

  /** Where sample `j` of the subsequence of block `b` lies: at stride `2^t`, from the reversal of `b`. */
  function StrideIndex(t: nat, b: nat, j: nat): nat {
    j * Pow2(t) + Rev(t, b)
  }

  lemma StrideStep(t: nat, b: nat, j: nat)
    requires t > 0
    ensures StrideIndex(t, b, j) == StrideIndex(t - 1, b / 2, 2 * j + b % 2)
  {
    RegroupIndex(j, b % 2, Pow2(t - 1), Rev(t - 1, b / 2));
  }

  lemma {:induction false} SubAt(x: seq<Complex>, bits: nat, t: nat, b: nat)
    requires |x| == Pow2(bits) && t <= bits
    ensures |Sub(x, t, b)| == Pow2(bits - t)
    ensures forall j | 0 <= j < Pow2(bits - t) ::
              StrideIndex(t, b, j) < |x| && Sub(x, t, b)[j] == x[StrideIndex(t, b, j)]
  {
    if t == 0 {
      forall j | 0 <= j < Pow2(bits)
        ensures StrideIndex(0, b, j) == j
      {
        assert Pow2(0) == 1;
      }
    } else {
      hide StrideIndex;
      SubAt(x, bits, t - 1, b / 2);
      forall j | 0 <= j < Pow2(bits - t)
        ensures StrideIndex(t, b, j) < |x| && Sub(x, t, b)[j] == x[StrideIndex(t, b, j)]
      {
        StrideStep(t, b, j);
        assert Sub(x, t, b)[j] == Sub(x, t - 1, b / 2)[2 * j + b % 2];
      }
    }
  }

  lemma RegroupIndex(j: nat, bit: nat, p: nat, r: nat)
    requires bit < 2
    ensures (2 * j + bit) * p + r == j * (2 * p) + ((if bit == 1 then p else 0) + r)
  {}

  /** Exact twiddles: `w(len)` is the source's `w_len`, a square root of the twiddle of the stage before. */
  ghost predicate IsTwiddle(w: nat -> Complex, bits: nat) {
    && w(2) == MINUS_ONE
    && forall s {:trigger Pow2(s)} :: 1 <= s < bits ==> w(2 * Pow2(s)).Mul(w(2 * Pow2(s))) == w(Pow2(s))
  }

  lemma {:induction false} HalfTurn(w: nat -> Complex, bits: nat, s: nat)
    requires IsTwiddle(w, bits) && 1 <= s <= bits
    ensures Pow(w(Pow2(s)), Pow2(s - 1)) == MINUS_ONE
  {
    hide Complex.Mul;
    if s == 1 {
      assert Pow2(1) == 2 && Pow2(0) == 1;
      MulOne(w(2));
    } else {
      var z := w(Pow2(s));
      HalfTurn(w, bits, s - 1);
      assert Pow2(s) == 2 * Pow2(s - 1);
      PowSquare(z, Pow2(s - 2));
      PowAdd(z, Pow2(s - 2), Pow2(s - 2));
      assert Pow2(s - 1) == Pow2(s - 2) + Pow2(s - 2);
    }
  }

  lemma FullTurn(w: nat -> Complex, bits: nat, s: nat)
    requires IsTwiddle(w, bits) && 1 <= s <= bits
    ensures Pow(w(Pow2(s)), Pow2(s)) == ONE
  {
    hide Complex.Mul;
    HalfTurn(w, bits, s);
    PowAdd(w(Pow2(s)), Pow2(s - 1), Pow2(s - 1));
    MulMinusOne(MINUS_ONE);
  }

  function Quot(p: nat, n: nat): nat
    requires n > 0
  {
    p / n
  }

  function Rem(p: nat, n: nat): nat
    requires n > 0
  {
    p % n
  }

  /** What cell `p` holds once every block of size `2^s` has been transformed. */
  function Bin(x: seq<Complex>, w: nat -> Complex, bits: nat, s: nat, p: nat): Complex
    requires s <= bits
  {
    Eval(Sub(x, bits - s, Quot(p, Pow2(s))), Pow(w(Pow2(s)), Rem(p, Pow2(s))))
  }

  lemma MulAtLeast(d: int, n: nat)
    requires d >= 1
    ensures d * n >= n
  {}

  lemma Distrib(a: int, b: int, n: int)
    ensures (a - b) * n == a * n - b * n
  {}

  lemma QuotientIsUnique(q: int, r: int, b: int, j: int, n: nat)
    requires q * n + r == b * n + j && 0 <= r < n && 0 <= j < n
    ensures q == b && r == j
  {
    Distrib(q, b, n);
    Distrib(b, q, n);
    if q > b {
      MulAtLeast(q - b, n);
    } else if q < b {
      MulAtLeast(b - q, n);
    }
  }

  lemma DivModAt(b: nat, j: nat, n: nat)
    requires j < n
    ensures b * n + j >= 0 && (b * n + j) / n == b && (b * n + j) % n == j
  {
    var a := b * n + j;
    assert a == (a / n) * n + a % n;
    QuotientIsUnique(a / n, a % n, b, j, n);
  }

  lemma SquareOfNegation(z: Complex)
    ensures MINUS_ONE.Mul(z).Mul(MINUS_ONE.Mul(z)) == z.Mul(z)
  {}

  /** Evaluating at `z` and at `-z` needs the two halves once each. */
  lemma EvalAtBothRoots(x: seq<Complex>, z: Complex, e: Complex, o: Complex)
    requires e == Eval(Evens(x), z.Mul(z)) && o == Eval(Odds(x), z.Mul(z))
    ensures Eval(x, z) == e.Add(o.Mul(z))
    ensures Eval(x, MINUS_ONE.Mul(z)) == e.Sub(o.Mul(z))
  {
    hide Complex.Mul;
    var y := MINUS_ONE.Mul(z);
    SquareOfNegation(z);
    EvalSplit(x, z);
    EvalSplit(x, y);
    MulAssociates(MINUS_ONE, z, o);
    MulMinusOne(z.Mul(o));
    MulCommutes(z, o);
  }

  lemma CellAt(b: nat, j: nat, n: nat, p: nat)
    requires j < n && p == b * n + j
    ensures Quot(p, n) == b && Rem(p, n) == j
  {
    DivModAt(b, j, n);
  }

  lemma HalfBlocks(b: nat, half: nat)
    ensures b * (2 * half) == (2 * b) * half && (2 * b + 1) * half == (2 * b) * half + half
  {}

  /** Where cells `j` of blocks `2b` and `2b + 1` lie, as blocks of size `half` and joined. */
  lemma ButterflyCells(b: nat, j: nat, half: nat, p: nat)
    requires j < half && p == b * (2 * half) + j
    ensures Quot(p, half) == 2 * b && Rem(p, half) == j
    ensures Quot(p + half, half) == 2 * b + 1 && Rem(p + half, half) == j
    ensures Quot(p, 2 * half) == b && Rem(p, 2 * half) == j
    ensures Quot(p + half, 2 * half) == b && Rem(p + half, 2 * half) == j + half
  {
    hide Quot, Rem;
    HalfBlocks(b, half);
    CellAt(b, j, 2 * half, p);
    CellAt(b, j + half, 2 * half, p + half);
    CellAt(2 * b, j, half, p);
    CellAt(2 * b + 1, j, half, p + half);
  }

  /** The two points at which block `b` of the next stage is evaluated, and their common square. */
  lemma ButterflyPoints(w: nat -> Complex, bits: nat, s: nat, j: nat)
    requires IsTwiddle(w, bits) && s < bits && j < Pow2(s)
    ensures var z := Pow(w(Pow2(s + 1)), j);
            && z.Mul(z) == Pow(w(Pow2(s)), j)
            && Pow(w(Pow2(s + 1)), j + Pow2(s)) == MINUS_ONE.Mul(z)
  {
    hide Complex.Mul;
    var v := w(Pow2(s + 1));
    HalfTurn(w, bits, s + 1);
    PowAdd(v, Pow2(s), j);
    PowSquare(v, j);
    if s == 0 {
      MulOne(ONE);
    } else {
      assert v.Mul(v) == w(Pow2(s));
    }
  }

  /** One butterfly of the stage that joins blocks `2b` and `2b + 1` of size `2^s`. */
  lemma Butterfly(x: seq<Complex>, w: nat -> Complex, bits: nat, s: nat, b: nat, j: nat, p: nat)
    requires IsTwiddle(w, bits) && s < bits && j < Pow2(s)
    requires p == b * (2 * Pow2(s)) + j
    ensures var u := Bin(x, w, bits, s, p);
            var v := Bin(x, w, bits, s, p + Pow2(s)).Mul(Pow(w(2 * Pow2(s)), j));
            Bin(x, w, bits, s + 1, p) == u.Add(v) && Bin(x, w, bits, s + 1, p + Pow2(s)) == u.Sub(v)
  {
    hide Complex.Mul, Eval, Quot, Rem, Bin;
    var half := Pow2(s);
    assert Pow2(s + 1) == 2 * half;
    ButterflyCells(b, j, half, p);
    ButterflyPoints(w, bits, s, j);
    ButterflyValues(x, w, bits, s, b, j, p, Sub(x, bits - s - 1, b), Pow(w(2 * half), j));
  }

  lemma SubHalves(x: seq<Complex>, t: nat, b: nat)
    ensures Sub(x, t + 1, 2 * b) == Evens(Sub(x, t, b))
    ensures Sub(x, t + 1, 2 * b + 1) == Odds(Sub(x, t, b))
  {
    hide Evens, Odds;
    assert 2 * b % 2 == 0 && 2 * b / 2 == b;
    assert (2 * b + 1) % 2 == 1 && (2 * b + 1) / 2 == b;
  }

  lemma ButterflyValues(x: seq<Complex>, w: nat -> Complex, bits: nat, s: nat, b: nat, j: nat, p: nat,
                        y: seq<Complex>, z: Complex)
    requires s < bits
    requires Quot(p, Pow2(s)) == 2 * b && Quot(p + Pow2(s), Pow2(s)) == 2 * b + 1
    requires Rem(p, Pow2(s)) == Rem(p + Pow2(s), Pow2(s)) == j
    requires Quot(p, Pow2(s + 1)) == Quot(p + Pow2(s), Pow2(s + 1)) == b
    requires Rem(p, Pow2(s + 1)) == j && Rem(p + Pow2(s), Pow2(s + 1)) == j + Pow2(s)
    requires y == Sub(x, bits - s - 1, b) && z == Pow(w(Pow2(s + 1)), j)
    requires z.Mul(z) == Pow(w(Pow2(s)), j)
    requires Pow(w(Pow2(s + 1)), j + Pow2(s)) == MINUS_ONE.Mul(z)
    ensures var u := Bin(x, w, bits, s, p);
            var v := Bin(x, w, bits, s, p + Pow2(s)).Mul(z);
            Bin(x, w, bits, s + 1, p) == u.Add(v) && Bin(x, w, bits, s + 1, p + Pow2(s)) == u.Sub(v)
  {
    hide Complex.Mul, Eval, Quot, Rem, Pow, Pow2, Sub;
    SubHalves(x, bits - s - 1, b);
    EvalAtBothRoots(y, z, Bin(x, w, bits, s, p), Bin(x, w, bits, s, p + Pow2(s)));
  }

  /** Before the first stage each cell holds one sample, at the bit-reversed place. */
  lemma FirstStage(x: seq<Complex>, w: nat -> Complex, bits: nat, p: nat)
    requires |x| == Pow2(bits) && p < |x|
    ensures Bin(x, w, bits, 0, p) == x[Rev(bits, p)]
  {
    hide Complex.Mul;
    SubAt(x, bits, bits, p);
    assert Pow2(0) == 1 && p / 1 == p && p % 1 == 0;
    var y := Sub(x, bits, p);
    assert |y| == 1 && y[0] == x[StrideIndex(bits, p, 0)];
    assert y[1..] == [];
    MulZero(Pow(w(1), 0));
    assert Eval(y[1..], Pow(w(1), 0)) == ZERO;
    assert Eval(y, Pow(w(1), 0)) == y[0];
    assert Bin(x, w, bits, 0, p) == Eval(y, Pow(w(1), 0));
  }

  /** After the last stage the cells are the bins. */
  lemma LastStage(x: seq<Complex>, w: nat -> Complex, bits: nat, k: nat)
    requires |x| == Pow2(bits) && k < |x|
    ensures Bin(x, w, bits, bits, k) == DftSum(x, w(Pow2(bits)), k, |x|)
  {
    hide Complex.Mul;
    DivModAt(0, k, |x|);
    DftSumIsEval(x, w(Pow2(bits)), k, |x|);
    assert x[..|x|] == x;
  }
}
