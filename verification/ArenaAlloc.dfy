/** Allocation with no other thread running, as a function and as a run of steps, and how often it succeeds. */
module ArenaAlloc {
  import opened Wrappers
  import opened ArenaSteps

  /** The first slot from `i` on whose count is 0. */
  function FirstFree(counts: seq<Count>, i: nat): (r: Option<nat>)
    ensures r.Some? ==> i <= r.value < |counts| && counts[r.value] == 0
    decreases |counts| - i
  {
    if i >= |counts| then None else if counts[i] == 0 then Some(i) else FirstFree(counts, i + 1)
  }

  function FreeSlots(counts: seq<Count>): nat {
    if counts == [] then 0 else (if counts[0] == 0 then 1 else 0) + FreeSlots(counts[1..])
  }

  lemma {:induction false} FreeSlotsConcat(a: seq<Count>, b: seq<Count>)
    ensures FreeSlots(a + b) == FreeSlots(a) + FreeSlots(b)
  {
    if a == [] {
      assert a + b == b;
    } else {
      assert (a + b)[1..] == a[1..] + b;
      FreeSlotsConcat(a[1..], b);
    }
  }

  lemma {:induction false} FirstFreeFinds(counts: seq<Count>, i: nat)
    requires i <= |counts|
    ensures var r := FirstFree(counts, i);
            && (r.None? <==> FreeSlots(counts[i..]) == 0)
            && (r.Some? ==> FreeSlots(counts[r.value := 1]) == FreeSlots(counts) - 1)
    decreases |counts| - i
  {
    if i < |counts| {
      assert counts[i..][1..] == counts[i + 1..];
      if counts[i] == 0 {
        var taken := counts[i := 1];
        assert counts == counts[..i] + counts[i..] && taken == counts[..i] + taken[i..];
        FreeSlotsConcat(counts[..i], counts[i..]);
        FreeSlotsConcat(counts[..i], taken[i..]);
        assert taken[i..][1..] == counts[i + 1..];
      } else {
        FirstFreeFinds(counts, i + 1);
      }
    }
  }

  /** What one allocation does: it takes the first free slot, or nothing when there is none. */
  function Attempt<T>(w: World<T>, value: T): World<T>
    requires Shape(w)
  {
    match FirstFree(w.counts, 0)
    case Some(i) => World(w.counts[i := 1], w.data[i := Some(value)], w.tasks + [Holding(i, value)])
    case None => w
  }

  /** Allocations in a row. */
  function Attempts<T>(w: World<T>, values: seq<T>): (r: World<T>)
    requires Shape(w)
    ensures Shape(r) && |r.counts| == |w.counts|
  {
    if values == [] then w else Attempt(Attempts(w, values[..|values| - 1]), values[|values| - 1])
  }

  /** Allocations fail only when nothing is free: every free slot is found, and found once. */
  lemma {:induction false} AllocationsSucceed<T>(w: World<T>, values: seq<T>)
    requires Shape(w)
    ensures var r, m := Attempts(w, values), Min(|values|, FreeSlots(w.counts));
            |r.tasks| == |w.tasks| + m && FreeSlots(r.counts) == FreeSlots(w.counts) - m
  {
    if values != [] {
      var before := Attempts(w, values[..|values| - 1]);
      AllocationsSucceed(w, values[..|values| - 1]);
      FirstFreeFinds(before.counts, 0);
      assert before.counts[0..] == before.counts;
    }
  }

  // ---------- refilling ----------

  lemma {:induction false} FirstFreeAt(counts: seq<Count>, i: nat, m: nat)
    requires i <= m <= |counts| && (forall j | i <= j < m :: counts[j] != 0) && (m < |counts| ==> counts[m] == 0)
    ensures FirstFree(counts, i) == if m < |counts| then Some(m) else None
    decreases m - i
  {
    if i < m {
      FirstFreeAt(counts, i + 1, m);
    }
  }

  /** The first `m` slots taken by the first `m` of the values. */
  ghost predicate FilledTo<T>(w: World<T>, r: World<T>, values: seq<T>, m: nat)
    requires Shape(w)
  {
    && m <= |values| && m <= |w.counts|
    && |r.counts| == |w.counts| == |r.data|
    && (forall j | 0 <= j < |w.counts| :: r.counts[j] == if j < m then 1 else 0)
    && (forall j | 0 <= j < |w.counts| :: r.data[j] == if j < m then Some(values[j]) else w.data[j])
    && r.tasks == w.tasks + seq(m, j requires 0 <= j < m => Holding(j, values[j]))
  }

  lemma {:induction false} Refilled<T>(w: World<T>, values: seq<T>)
    requires Shape(w) && forall j | 0 <= j < |w.counts| :: w.counts[j] == 0
    ensures FilledTo(w, Attempts(w, values), values, Min(|values|, |w.counts|))
  {
    if values == [] {
      assert w.tasks + [] == w.tasks;
    } else {
      var shorter := values[..|values| - 1];
      var before, m := Attempts(w, shorter), Min(|shorter|, |w.counts|);
      Refilled(w, shorter);
      FirstFreeAt(before.counts, 0, m);
      var handles := seq(m, j requires 0 <= j < m => Holding(j, shorter[j]));
      assert handles == seq(m, j requires 0 <= j < m => Holding(j, values[j]));
      if m < |w.counts| {
        assert w.tasks + handles + [Holding(m, values[m])] == w.tasks + (handles + [Holding(m, values[m])]);
      }
    }
  }

  /**
   * After any run that has let go of everything, allocations fill the arena again from end to end, in order; those
   * beyond its size fail.
   */
  lemma ArenaIsReusable<T>(n: nat, steps: seq<Step<T>>, limit: nat, values: seq<T>)
    requires Legal(New<T>(n), steps, limit)
    requires forall t | t in Run(New<T>(n), steps, limit).tasks :: t.Scanning?
    ensures var w := Run(New<T>(n), steps, limit);
            Shape(w) && |w.counts| == n && FilledTo(w, Attempts(w, values), values, Min(|values|, n))
  {
    CountedRun(New<T>(n), steps, limit);
    NoLeak<T>(n, steps, limit);
    SizeKept(New<T>(n), steps, limit);
    Refilled(Run(New<T>(n), steps, limit), values);
  }

  // ---------- as a run of steps ----------

  function Probes<T>(k: nat, m: nat): seq<Step<T>> {
    seq(m, _ => Probe(k))
  }

  /** An allocation searching from slot `j`. */
  function Searching<T>(w: World<T>, value: T, j: nat): World<T> {
    w.(tasks := w.tasks + [Scanning(j, value)])
  }

  lemma SearchingHolds<T>(w: World<T>, value: T, j: nat, limit: nat)
    requires Bounded(w, limit)
    ensures Bounded(Searching(w, value, j), limit)
  {
    forall i | 0 <= i < |w.counts|
      ensures Holders(Searching(w, value, j).tasks, i) <= limit
    {
      HoldersConcat(w.tasks, [Scanning(j, value)], i);
    }
  }

  lemma {:induction false} SearchRun<T>(w: World<T>, value: T, j: nat, m: nat, limit: nat)
    requires Shape(w) && Bounded(w, limit) && j + m <= |w.counts|
    requires forall i | j <= i < j + m :: w.counts[i] != 0
    ensures var s := Searching(w, value, j);
            Legal(s, Probes<T>(|w.tasks|, m), limit)
            && Run(s, Probes<T>(|w.tasks|, m), limit) == Searching(w, value, j + m)
    decreases m
  {
    if m > 0 {
      var s, k := Searching(w, value, j), |w.tasks|;
      SearchingHolds(w, value, j, limit);
      assert Next(s, Probe(k)) == Searching(w, value, j + 1);
      SearchRun(w, value, j + 1, m - 1, limit);
      RunOne(s, Probe(k), Probes<T>(k, m - 1), limit);
      assert Probes<T>(k, m) == [Probe(k)] + Probes<T>(k, m - 1);
    }
  }

  lemma {:induction false} FirstFreeIsFirst(counts: seq<Count>, i: nat)
    requires i <= |counts|
    ensures var r := FirstFree(counts, i);
            forall j | i <= j < (if r.Some? then r.value else |counts|) :: counts[j] != 0
    decreases |counts| - i
  {
    if i < |counts| && counts[i] != 0 {
      FirstFreeIsFirst(counts, i + 1);
    }
  }

  /** The steps of one allocation with nothing in between: probes up to the free slot, or past the last one. */
  function AllocSteps<T>(w: World<T>, value: T): seq<Step<T>> {
    var k := |w.tasks|;
    match FirstFree(w.counts, 0)
    case Some(i) => [Start(value)] + (Probes<T>(k, i) + ([Probe(k)] + [Publish(k)]))
    case None => [Start(value)] + (Probes<T>(k, |w.counts|) + [Probe(k)])
  }

  /** The reservation of slot `i`, which nothing held. */
  function Reserved<T>(w: World<T>, value: T, i: nat): World<T>
    requires i < |w.counts|
  {
    World(w.counts[i := 1], w.data, w.tasks + [Reserving(i, value)])
  }

  lemma ReservedHolds<T>(w: World<T>, t: Task<T>, i: nat, limit: nat)
    requires Counted(w) && Bounded(w, limit) && 1 <= limit < WRAP && i < |w.counts| && w.counts[i] == 0
    requires !t.Scanning? && t.slot == i
    ensures forall j | 0 <= j < |w.counts| :: Holders(w.tasks + [t], j) == Holders(w.tasks, j) + if j == i then 1 else 0
    ensures forall j | 0 <= j < |w.counts| :: Holders(w.tasks + [t], j) <= limit
  {
    assert Holders(w.tasks, i) == 0;
    forall j | 0 <= j < |w.counts|
      ensures Holders(w.tasks + [t], j) == Holders(w.tasks, j) + if j == i then 1 else 0
    {
      HoldersConcat(w.tasks, [t], j);
      assert [t][1..] == [];
    }
  }

  lemma TakeRun<T>(w: World<T>, value: T, i: nat, limit: nat)
    requires Counted(w) && Bounded(w, limit) && 1 <= limit < WRAP
    requires i < |w.counts| && w.counts[i] == 0
    ensures var s, k := Searching(w, value, i), |w.tasks|;
            && Legal(s, [Probe(k)] + [Publish(k)], limit)
            && Run(s, [Probe(k)] + [Publish(k)], limit)
            == World(w.counts[i := 1], w.data[i := Some(value)], w.tasks + [Holding(i, value)])
  {
    hide Holders;
    var s, k, r := Searching(w, value, i), |w.tasks|, Reserved(w, value, i);
    SearchingHolds(w, value, i, limit);
    assert Next(s, Probe(k)) == r;
    ReservedHolds(w, Reserving(i, value), i, limit);
    assert Next(r, Publish(k)).tasks == w.tasks + [Holding(i, value)];
    RunOne(r, Publish(k), [], limit);
    assert [Step<T>.Publish(k)] + [] == [Publish(k)];
    RunOne(s, Probe(k), [Publish(k)], limit);
  }

  lemma GiveUpRun<T>(w: World<T>, value: T, limit: nat)
    requires Shape(w) && Bounded(w, limit)
    ensures var s, k := Searching(w, value, |w.counts|), |w.tasks|;
            Legal(s, [Probe(k)], limit) && Run(s, [Probe(k)], limit) == w
  {
    var s, k := Searching(w, value, |w.counts|), |w.tasks|;
    SearchingHolds(w, value, |w.counts|, limit);
    assert Next(s, Probe(k)).tasks == w.tasks;
    RunOne(s, Probe(k), [], limit);
    assert [Step<T>.Probe(k)] + [] == [Probe(k)];
  }

  /** An allocation alone is a run of steps, and one that no bound of at least one holder per slot forbids. */
  lemma AttemptIsRun<T>(w: World<T>, value: T, limit: nat)
    requires Counted(w) && Bounded(w, limit) && 1 <= limit < WRAP
    ensures Legal(w, AllocSteps(w, value), limit) && Run(w, AllocSteps(w, value), limit) == Attempt(w, value)
    ensures Counted(Attempt(w, value)) && Bounded(Attempt(w, value), limit)
  {
    hide Legal, Run, Holders;
    var k, i := |w.tasks|, FirstFree(w.counts, 0);
    var m := if i.Some? then i.value else |w.counts|;
    var last: seq<Step<T>> := if i.Some? then [Probe(k)] + [Publish(k)] else [Probe(k)];
    FirstFreeIsFirst(w.counts, 0);
    SearchRun(w, value, 0, m, limit);
    if i.Some? {
      TakeRun(w, value, m, limit);
      ReservedHolds(w, Holding(m, value), m, limit);
    } else {
      GiveUpRun(w, value, limit);
    }
    RunAppend(Searching(w, value, 0), Probes<T>(k, m), last, limit);
    RunOne(w, Start(value), Probes<T>(k, m) + last, limit);
    CountedRun(w, AllocSteps(w, value), limit);
  }

  function AllSteps<T>(w: World<T>, values: seq<T>): seq<Step<T>>
    requires Shape(w)
  {
    if values == [] then []
    else
      var shorter := values[..|values| - 1];
      AllSteps(w, shorter) + AllocSteps(Attempts(w, shorter), values[|values| - 1])
  }

  lemma {:induction false} AttemptsAreRun<T>(w: World<T>, values: seq<T>, limit: nat)
    requires Counted(w) && Bounded(w, limit) && 1 <= limit < WRAP
    ensures Legal(w, AllSteps(w, values), limit) && Run(w, AllSteps(w, values), limit) == Attempts(w, values)
    ensures Counted(Attempts(w, values)) && Bounded(Attempts(w, values), limit)
  {
    hide Legal, Run, Bounded, Attempt, AllocSteps, Holders;
    if values == [] {
      EmptyRun(w, limit);
    } else {
      var shorter := values[..|values| - 1];
      AttemptsAreRun(w, shorter, limit);
      AttemptIsRun(Attempts(w, shorter), values[|values| - 1], limit);
      RunAppend(w, AllSteps(w, shorter), AllocSteps(Attempts(w, shorter), values[|values| - 1]), limit);
    }
  }

  lemma EmptyRun<T>(w: World<T>, limit: nat)
    ensures Legal(w, [], limit) && Run(w, [], limit) == w
  {}
}
