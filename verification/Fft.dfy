/** The in-place radix-2 transform, for any power-of-two size, proved equal to the defining sum. */
module Fft {
  import opened ComplexNumbers
  import opened Dft

  /** Real samples as complex numbers, cut or zero-padded to `n`. */
  function Padded(samples: seq<int>, n: nat): (x: seq<Complex>)
    ensures |x| == n
  {
    seq(n, i requires 0 <= i < n => Complex(if i < |samples| then samples[i] as real else 0.0, 0.0))
  }

  // ---------- bit reversal ----------

  lemma HalfOf(half: nat, top: bool, d: nat)
    ensures var b := (if top then 2 * half else 0) + d;
            b % 2 == d % 2 && b / 2 == (if top then half else 0) + d / 2
  {}

  /** A bit put on top comes out at the bottom. */
  lemma {:induction false} RevTop(t: nat, top: bool, d: nat)
    requires d < Pow2(t)
    ensures Rev(t + 1, (if top then Pow2(t) else 0) + d) == 2 * Rev(t, d) + if top then 1 else 0
  {
    if t > 0 {
      var b := (if top then Pow2(t) else 0) + d;
      HalfOf(Pow2(t - 1), top, d);
      hide Pow2;
      RevTop(t - 1, top, d / 2);
    }
  }

  lemma {:induction false} RevInvolution(t: nat, b: nat)
    requires b < Pow2(t)
    ensures Rev(t, Rev(t, b)) == b
  {
    if t > 0 {
      var r := Rev(t - 1, b / 2);
      assert Rev(t, b) == (if b % 2 == 1 then Pow2(t - 1) else 0) + r && b / 2 < Pow2(t - 1);
      hide Rev, Pow2;
      RevInvolution(t - 1, b / 2);
      RevTop(t - 1, b % 2 == 1, r);
    }
  }

  method ReverseBits(bits: nat, i: nat) returns (rev: nat)
    ensures rev == Rev(bits, i)
  {
    rev := 0;
    var temp := i;
    for k := 0 to bits
      invariant Rev(bits, i) == rev * Pow2(bits - k) + Rev(bits - k, temp)
    {
      RegroupIndex(rev, temp % 2, Pow2(bits - k - 1), Rev(bits - k - 1, temp / 2));
      rev := 2 * rev + temp % 2;
      temp := temp / 2;
    }
  }

  /**
   * `x` is the samples in order, as real parts, cut or zero-padded. Each cell is written once, with the one at the reversed
   * place.
   */
  method LoadReversed(data: array<Complex>, samples: seq<int>, bits: nat, ghost x: seq<Complex>)
    requires data.Length == Pow2(bits) == |x|
    requires forall i | 0 <= i < |x| :: x[i] == Complex(if i < |samples| then samples[i] as real else 0.0, 0.0)
    modifies data
    ensures forall p | 0 <= p < data.Length :: data[p] == x[Rev(bits, p)]
  {
    var n := data.Length;
    for i := 0 to n
      invariant forall k | 0 <= k < i :: data[Rev(bits, k)] == x[k]
    {
      var rev := ReverseBits(bits, i);
      var val := if i < |samples| then samples[i] as real else 0.0;
      forall k | 0 <= k < i
        ensures Rev(bits, k) != rev
      {
        RevInvolution(bits, k);
        RevInvolution(bits, i);
      }
      data[rev] := Complex(val, 0.0);
    }
    forall p | 0 <= p < n
      ensures data[p] == x[Rev(bits, p)]
    {
      RevInvolution(bits, p);
    }
  }

  // ---------- butterflies ----------

  lemma {:induction false} Pow2Split(bits: nat, s: nat)
    requires s <= bits
    ensures Pow2(bits) == Pow2(bits - s) * Pow2(s)
  {
    if s > 0 {
      Pow2Split(bits, s - 1);
      assert Pow2(bits - s + 1) == 2 * Pow2(bits - s);
    }
  }

  lemma MulMonotone(a: nat, b: nat, n: nat)
    requires a <= b
    ensures a * n <= b * n
  {
    Distrib(b, a, n);
    assert (b - a) * n >= 0;
  }

  lemma BlockFits(b: nat, m: nat, len: nat)
    requires b * len < m * len
    ensures b * len + len <= m * len && (b + 1) * len == b * len + len
  {
    if b >= m {
      MulMonotone(m, b, len);
    } else {
      MulMonotone(b + 1, m, len);
    }
  }

  /** One block of one stage: the innermost loop. */
  method ButterflyBlock(data: array<Complex>, ghost x: seq<Complex>, w: nat -> Complex, ghost bits: nat, ghost s: nat,
                        ghost b: nat, i: nat, len: nat)
    requires IsTwiddle(w, bits) && s < bits && data.Length == Pow2(bits)
    requires len == 2 * Pow2(s) && i == b * len && i + len <= data.Length
    requires forall p | 0 <= p < i :: data[p] == Bin(x, w, bits, s + 1, p)
    requires forall p | i <= p < data.Length :: data[p] == Bin(x, w, bits, s, p)
    modifies data
    ensures forall p | 0 <= p < i + len :: data[p] == Bin(x, w, bits, s + 1, p)
    ensures forall p | i + len <= p < data.Length :: data[p] == Bin(x, w, bits, s, p)
  {
    hide Complex.Mul;
    hide Bin;
    var wLen := w(len);
    var omega := ONE;
    var half := len / 2;
    for j := 0 to half
      invariant omega == Pow(wLen, j)
      invariant forall p | 0 <= p < i + j :: data[p] == Bin(x, w, bits, s + 1, p)
      invariant forall p | i + j <= p < i + half :: data[p] == Bin(x, w, bits, s, p)
      invariant forall p | i + half <= p < i + half + j :: data[p] == Bin(x, w, bits, s + 1, p)
      invariant forall p | i + half + j <= p < data.Length :: data[p] == Bin(x, w, bits, s, p)
    {
      Butterfly(x, w, bits, s, b, j, i + j);
      var u := data[i + j];
      var v := data[i + j + half].Mul(omega);
      data[i + j] := u.Add(v);
      data[i + j + half] := u.Sub(v);
      MulCommutes(omega, wLen);
      omega := omega.Mul(wLen);
    }
  }

  /** One stage: every block of size `len`. */
  method ButterflyStage(data: array<Complex>, ghost x: seq<Complex>, w: nat -> Complex, ghost bits: nat, ghost s: nat, len: nat)
    requires IsTwiddle(w, bits) && s < bits && data.Length == Pow2(bits) && len == 2 * Pow2(s)
    requires forall p | 0 <= p < data.Length :: data[p] == Bin(x, w, bits, s, p)
    modifies data
    ensures forall p | 0 <= p < data.Length :: data[p] == Bin(x, w, bits, s + 1, p)
  {
    hide Bin;
    ghost var m := Pow2(bits - s - 1);
    Pow2Split(bits, s + 1);
    var i: nat := 0;
    ghost var b: nat := 0;
    while i < data.Length
      invariant i == b * len && i <= data.Length
      invariant forall p | 0 <= p < i :: data[p] == Bin(x, w, bits, s + 1, p)
      invariant forall p | i <= p < data.Length :: data[p] == Bin(x, w, bits, s, p)
    {
      BlockFits(b, m, len);
      ButterflyBlock(data, x, w, bits, s, b, i, len);
      i := i + len;
      b := b + 1;
    }
  }

  lemma {:induction false} Pow2Monotone(a: nat, b: nat)
    requires a <= b
    ensures Pow2(a) <= Pow2(b)
  {
    if a < b {
      Pow2Monotone(a, b - 1);
    }
  }

  /**
   * The spectrum of the samples: with `x` the samples in order, as real parts, cut or zero-padded, every cell ends as the
   * defining sum of its bin.
   */
  method HeaplessFft(samples: seq<int>, bits: nat, w: nat -> Complex, ghost x: seq<Complex>) returns (data: array<Complex>)
    requires IsTwiddle(w, bits)
    requires |x| == Pow2(bits)
    requires forall i | 0 <= i < |x| :: x[i] == Complex(if i < |samples| then samples[i] as real else 0.0, 0.0)
    ensures fresh(data) && data.Length == |x|
    ensures forall k | 0 <= k < |x| :: data[k] == DftSum(x, w(|x|), k, |x|)
  {
    var n := Pow2(bits);
    data := new Complex[n];
    LoadReversed(data, samples, bits, x);
    forall p | 0 <= p < n
      ensures data[p] == Bin(x, w, bits, 0, p)
    {
      FirstStage(x, w, bits, p);
    }
    var len := 2;
    ghost var s: nat := 0;
    while len <= n
      invariant s <= bits && len == 2 * Pow2(s)
      invariant forall p | 0 <= p < n :: data[p] == Bin(x, w, bits, s, p)
      decreases bits - s
    {
      ButterflyStage(data, x, w, bits, s, len);
      len := 2 * len;
      s := s + 1;
    }
    if s < bits {
      Pow2Monotone(s + 1, bits);
    }
    forall k | 0 <= k < n
      ensures data[k] == DftSum(x, w(n), k, |x|)
    {
      LastStage(x, w, bits, k);
    }
  }

  // ---------- what determines the bins ----------

  /** Both signals have the length of the transform, and the samples of one follow in the other's place. */
  function Superposed(x: seq<Complex>, y: seq<Complex>): (s: seq<Complex>)
    requires |x| == |y|
    ensures |s| == |x|
  {
    seq(|x|, i requires 0 <= i < |x| => x[i].Add(y[i]))
  }

  /** The transform of a sum is the sum of the transforms. */
  lemma {:induction false} DftIsLinear(x: seq<Complex>, y: seq<Complex>, w: Complex, k: nat, m: nat)
    requires |x| == |y| && m <= |x|
    ensures DftSum(Superposed(x, y), w, k, m) == DftSum(x, w, k, m).Add(DftSum(y, w, k, m))
  {
    hide Complex.Mul;
    if m > 0 {
      var p := Pow(w, k * (m - 1));
      DftIsLinear(x, y, w, k, m - 1);
      MulCommutes(x[m - 1].Add(y[m - 1]), p);
      MulDistributes(p, x[m - 1], y[m - 1]);
      MulCommutes(p, x[m - 1]);
      MulCommutes(p, y[m - 1]);
    }
  }

  /** An impulse at place `at` gives bin `k` its value times `w^(k * at)`. */
  lemma {:induction false} ImpulseSum(x: seq<Complex>, at: nat, w: Complex, k: nat, m: nat)
    requires at < |x| && m <= |x| && forall i | 0 <= i < |x| && i != at :: x[i] == Complex(0.0, 0.0)
    ensures DftSum(x, w, k, m) == if at < m then x[at].Mul(Pow(w, k * at)) else Complex(0.0, 0.0)
  {
    hide Complex.Mul, Pow;
    if m > 0 {
      ImpulseSum(x, at, w, k, m - 1);
      MulCommutes(ZERO, Pow(w, k * (m - 1)));
      MulZero(Pow(w, k * (m - 1)));
    }
  }
}
