/** SpatialRanging (0x8C): the median filter over a bubble-sorted window. */
module RangingFilter {

  // ---------- bubble sort ----------

  ghost predicate Sorted(s: seq<int>) {
    forall p, q | 0 <= p < q < |s| :: s[p] <= s[q]
  }

  ghost predicate Permutation(a: seq<int>, b: seq<int>) {
    multiset(a) == multiset(b)
  }

  lemma PermutationRefl(s: seq<int>)
    ensures Permutation(s, s)
  {}

  lemma SwapPermutes(s: seq<int>, j: nat, original: seq<int>)
    requires j + 1 < |s| && Permutation(s, original)
    ensures Permutation(s[j := s[j + 1]][j + 1 := s[j]], original)
  {}

  lemma PermutedPrefix(a: seq<int>, b: seq<int>, w: nat)
    requires Permutation(a, b) && |a| == |b| && w <= |a| && a[w..] == b[w..]
    ensures Permutation(a[..w], b[..w])
  {
    var p, q := a[..w], b[..w];
    assert a == p + a[w..] && b == q + a[w..];
    assert multiset(p) == multiset(a) - multiset(a[w..]);
    assert multiset(q) == multiset(b) - multiset(a[w..]);
  }

  /** Carries the largest of the first `last + 1` cells to place `last`; from `last + 1` on the cells are settled. */
  method BubblePass(a: array<int>, w: nat, last: nat, ghost original: seq<int>)
    requires last < w <= a.Length
    requires forall p, q | 0 <= p < q < w && last < q :: a[p] <= a[q]
    requires Permutation(a[..], original)
    modifies a
    ensures forall p, q | 0 <= p < q < w && last <= q :: a[p] <= a[q]
    ensures Permutation(a[..], original)
    ensures forall p | w <= p < a.Length :: a[p] == old(a[p])
  {
    hide Permutation;
    for j := 0 to last
      invariant forall p, q | 0 <= p < q < w && last < q :: a[p] <= a[q]
      invariant forall p | 0 <= p < j :: a[p] <= a[j]
      invariant Permutation(a[..], original)
      invariant forall p | w <= p < a.Length :: a[p] == old(a[p])
    {
      if a[j] > a[j + 1] {
        SwapPermutes(a[..], j, original);
        a[j], a[j + 1] := a[j + 1], a[j];
      }
    }
  }

  /** Sorts the first `w` cells and leaves the rest alone. */
  method BubbleSort(a: array<int>, w: nat)
    requires w <= a.Length
    modifies a
    ensures Sorted(a[..w])
    ensures Permutation(a[..w], old(a[..w]))
    ensures a[w..] == old(a[w..])
  {
    hide Permutation;
    ghost var original := a[..];
    PermutationRefl(original);
    for i := 0 to w
      invariant forall p, q | 0 <= p < q < w && w - i <= q :: a[p] <= a[q]
      invariant Permutation(a[..], original)
      invariant forall p | w <= p < a.Length :: a[p] == original[p]
    {
      BubblePass(a, w, w - 1 - i, original);
    }
    PermutedPrefix(a[..], original, w);
    assert a[..][..w] == a[..w] && original[..w] == old(a[..w]);
  }

  // ---------- what the median decides ----------

  function CountAbove(s: seq<int>, t: int): (c: nat)
    ensures c <= |s|
  {
    if s == [] then 0 else (if s[0] > t then 1 else 0) + CountAbove(s[1..], t)
  }

  lemma {:induction false} CountAboveConcat(a: seq<int>, b: seq<int>, t: int)
    ensures CountAbove(a + b, t) == CountAbove(a, t) + CountAbove(b, t)
  {
    if a == [] {
      assert a + b == b;
    } else {
      assert (a + b)[1..] == a[1..] + b;
      CountAboveConcat(a[1..], b, t);
    }
  }

  lemma {:induction false} CountAboveUniform(s: seq<int>, t: int, above: bool)
    requires forall i | 0 <= i < |s| :: (s[i] > t) == above
    ensures CountAbove(s, t) == if above then |s| else 0
  {
    if s != [] {
      CountAboveUniform(s[1..], t, above);
    }
  }

  lemma SomewherePermuted(a: seq<int>, b: seq<int>)
    requires Permutation(a, b)
    ensures a == [] ==> b == []
    ensures a != [] ==> a[0] in b
  {
    if a == [] {
      assert |multiset(b)| == |b|;
    } else {
      assert a[0] in multiset(b);
    }
  }

  lemma PermutedRest(a: seq<int>, b: seq<int>, k: nat)
    requires Permutation(a, b) && a != [] && k < |b| && b[k] == a[0]
    ensures Permutation(a[1..], b[..k] + b[k + 1..])
  {
    assert b == b[..k] + [b[k]] + b[k + 1..];
    assert a == [a[0]] + a[1..];
    assert multiset(a[1..]) == multiset(a) - multiset{a[0]};
    assert multiset(b[..k] + b[k + 1..]) == multiset(b) - multiset{b[k]};
  }

  /** The count depends on the readings, not on their order. */
  lemma {:induction false} CountAbovePermuted(a: seq<int>, b: seq<int>, t: int)
    requires Permutation(a, b)
    ensures CountAbove(a, t) == CountAbove(b, t)
  {
    hide Permutation;
    SomewherePermuted(a, b);
    if a != [] {
      var k :| 0 <= k < |b| && b[k] == a[0];
      PermutedRest(a, b, k);
      CountAbovePermuted(a[1..], b[..k] + b[k + 1..], t);
      CountAboveWithout(b, k, t);
    }
  }

  lemma CountAboveWithout(b: seq<int>, k: nat, t: int)
    requires k < |b|
    ensures CountAbove(b, t) == CountAbove(b[..k] + b[k + 1..], t) + if b[k] > t then 1 else 0
  {
    assert b == b[..k] + [b[k]] + b[k + 1..];
    CountAboveConcat(b[..k], [b[k]], t);
    CountAboveConcat(b[..k] + [b[k]], b[k + 1..], t);
    CountAboveConcat(b[..k], b[k + 1..], t);
  }

  /** The upper median exceeds `t` exactly when at least `|s| - |s| / 2` values do. */
  lemma MedianDecides(s: seq<int>, t: int)
    requires Sorted(s) && s != []
    ensures s[|s| / 2] > t <==> CountAbove(s, t) >= |s| - |s| / 2
  {
    var m := |s| / 2;
    if s[m] > t {
      var low, high := s[..m], s[m..];
      assert s == low + high;
      assert forall i | 0 <= i < |high| :: high[i] >= s[m];
      CountAboveConcat(low, high, t);
      CountAboveUniform(high, t, true);
    } else {
      var low, high := s[..m + 1], s[m + 1..];
      assert s == low + high;
      assert forall i | 0 <= i < |low| :: low[i] <= s[m];
      CountAboveConcat(low, high, t);
      CountAboveUniform(low, t, false);
    }
  }

  // ---------- the step ----------

  predicate IsI16(v: int) {
    -0x8000 <= v < 0x8000
  }

  /** `i16::abs` of an optimised build: the one value without an absolute value is left alone. */
  function Abs16(v: int): int {
    if v < 0 && v != -0x8000 then -v else v
  }

  /** The reading of one sample; the remainder takes the sign of its left operand. */
  function Reading(v: int): int {
    var a := Abs16(v);
    if a >= 0 then a % 100 else -((-a) % 100)
  }

  function Readings(samples: seq<int>, w: nat): (r: seq<int>)
    requires w <= |samples|
    ensures |r| == w
  {
    seq(w, i requires 0 <= i < w => Reading(samples[i]))
  }

  /** `param_b & 0xFF`, clamped to the window's capacity. */
  function WindowSize(paramB: nat): (w: nat)
    ensures 1 <= w <= 128
  {
    var size := paramB % 256;
    if size < 1 then 1 else if size > 128 then 128 else size
  }

  /** `param_a as i16`. */
  function Threshold(paramA: nat): int
    requires paramA < 0x1_0000
  {
    if paramA < 0x8000 then paramA else paramA - 0x1_0000
  }

  /** The order-free meaning of the step. */
  predicate RangingTrips(samples: seq<int>, paramA: nat, paramB: nat)
    requires |samples| == 256 && paramA < 0x1_0000
  {
    var w := WindowSize(paramB);
    CountAbove(Readings(samples, w), Threshold(paramA)) >= w - w / 2
  }

  method SpatialRanging(samples: seq<int>, paramA: nat, paramB: nat) returns (hazard: bool)
    requires |samples| == 256 && paramA < 0x1_0000
    ensures hazard <==> RangingTrips(samples, paramA, paramB)
  {
    var w := WindowSize(paramB);
    var window := new int[128](_ => 0);
    for i := 0 to w
      invariant window[..i] == Readings(samples, w)[..i]
    {
      window[i] := Reading(samples[i]);
    }
    ghost var readings := Readings(samples, w);
    assert window[..w] == readings;
    BubbleSort(window, w);
    MedianDecides(window[..w], Threshold(paramA));
    CountAbovePermuted(window[..w], readings, Threshold(paramA));
    hazard := window[w / 2] > Threshold(paramA);
  }

  /** Every sample but the least one reads in 0..99; that one reads -68, where a checked build stops instead. */
  lemma ReadingRange(v: int)
    requires IsI16(v)
    ensures if v == -0x8000 then Reading(v) == -68 else 0 <= Reading(v) < 100
  {}

  /** So a non-negative threshold of 99 or more never trips, and one below -68 always does. */
  lemma ThresholdExtremes(samples: seq<int>, paramA: nat, paramB: nat)
    requires |samples| == 256 && paramA < 0x1_0000
    requires forall i | 0 <= i < 256 :: IsI16(samples[i])
    ensures Threshold(paramA) >= 99 ==> !RangingTrips(samples, paramA, paramB)
    ensures Threshold(paramA) < -68 ==> RangingTrips(samples, paramA, paramB)
  {
    var w, t := WindowSize(paramB), Threshold(paramA);
    forall i | 0 <= i < w
      ensures -68 <= Readings(samples, w)[i] < 100
    {
      ReadingRange(samples[i]);
    }
    if t >= 99 {
      CountAboveUniform(Readings(samples, w), t, false);
    } else if t < -68 {
      CountAboveUniform(Readings(samples, w), t, true);
    }
  }

  /** Samples that read as themselves: sign and whole hundreds are dropped, so the reading is the last two digits. */
  lemma ReadingDigits(v: int)
    requires IsI16(v) && v != -0x8000
    ensures exists h: nat :: v == 100 * h + Reading(v) || -v == 100 * h + Reading(v)
  {
    var a := if v < 0 then -v else v;
    assert a == 100 * (a / 100) + a % 100;
  }

  /** The window is the low byte of the parameter, at least 1 and at most 128; the threshold is signed. */
  lemma Parameters(a: nat, b: nat)
    requires a < 0x1_0000
    ensures 1 <= b % 256 <= 128 ==> WindowSize(b) == b % 256
    ensures b % 256 == 0 ==> WindowSize(b) == 1
    ensures b % 256 > 128 ==> WindowSize(b) == 128
    ensures -32768 <= Threshold(a) <= 32767 && (Threshold(a) == a || Threshold(a) == a - 65536)
  {}

  /** On readings already in 0..99 the step trips exactly when at least `w - w / 2` of the first `w` exceed the threshold. */
  lemma PlainReadings(samples: seq<int>, a: nat, b: nat)
    requires |samples| == 256 && a < 0x8000 && 1 <= b <= 128
    requires forall i | 0 <= i < 256 :: 0 <= samples[i] < 100
    ensures RangingTrips(samples, a, b) <==> |set i | 0 <= i < b && samples[i] > a| >= b - b / 2
  {
    assert Readings(samples, b) == samples[..b];
    CountIsSize(samples, a, b);
  }

  lemma OneMoreAbove(s: seq<int>, t: int, n: nat)
    requires 0 < n <= |s|
    ensures |set i | 0 <= i < n && s[i] > t| == |set i | 0 <= i < n - 1 && s[i] > t| + if s[n - 1] > t then 1 else 0
  {
    var front, whole := set i | 0 <= i < n - 1 && s[i] > t, set i | 0 <= i < n && s[i] > t;
    assert whole == if s[n - 1] > t then front + {n - 1} else front;
  }

  lemma {:induction false} CountIsSize(s: seq<int>, t: int, n: nat)
    requires n <= |s|
    ensures CountAbove(s[..n], t) == |set i | 0 <= i < n && s[i] > t|
  {
    if n > 0 {
      CountIsSize(s, t, n - 1);
      assert s[..n] == s[..n - 1] + [s[n - 1]];
      CountAboveConcat(s[..n - 1], [s[n - 1]], t);
      OneMoreAbove(s, t, n);
    }
  }
}
