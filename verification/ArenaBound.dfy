/** The exact bound under which every interleaving is safe, and the two ways past it. */
module ArenaBound {
  import opened Wrappers
  import opened ArenaSteps
  import opened ArenaAlloc

  /** Every run of a fresh arena that keeps to `limit` holders per slot is safe. */
  ghost predicate SafeUpTo<T(!new)>(n: nat, limit: nat) {
    forall steps: seq<Step<T>> :: Legal(New<T>(n), steps, limit) ==> Safe(Run(New<T>(n), steps, limit))
  }

  // ---------- the bound is exact ----------

  /** A world whose only slot in use is slot 0, held by `h` handles on the same value. */
  function Crowd<T>(n: nat, a: T, h: nat): World<T>
    requires n >= 1
  {
    World(New<T>(n).counts[0 := h % WRAP], New<T>(n).data[0 := Some(a)], seq(h, _ => Holding(0, a)))
  }

  lemma {:induction false} CrowdHolders<T>(a: T, h: nat, i: nat)
    ensures Holders(seq(h, _ => Holding(0, a)), i) == if i == 0 then h else 0
  {
    if h > 0 {
      assert seq(h, _ => Holding(0, a))[1..] == seq(h - 1, _ => Holding(0, a));
      CrowdHolders(a, h - 1, i);
    }
  }

  /** Cloning one handle over and over. */
  lemma {:induction false} CrowdGrows<T>(n: nat, a: T, h: nat, more: nat, limit: nat)
    requires n >= 1 && h >= 1 && h + more <= limit
    ensures Legal(Crowd(n, a, h), Clones<T>(more), limit)
    ensures Run(Crowd(n, a, h), Clones<T>(more), limit) == Crowd(n, a, h + more)
    decreases more
  {
    if more > 0 {
      var w := Crowd(n, a, h);
      forall i | 0 <= i < n
        ensures Holders(w.tasks, i) <= limit
      {
        CrowdHolders(a, h, i);
      }
      assert Clones<T>(more)[0] == Clone(0) && Clones<T>(more)[1..] == Clones<T>(more - 1);
      assert Next(w, Clone(0)).counts == Crowd(n, a, h + 1).counts;
      assert Next(w, Clone(0)).tasks == Crowd(n, a, h + 1).tasks;
      CrowdGrows(n, a, h + 1, more - 1, limit);
    }
  }

  function Clones<T>(more: nat): seq<Step<T>> {
    seq(more, _ => Clone(0))
  }

  /** The wrap: 65536 handles on one slot, then an allocation that takes the slot for free. */
  function Overflow<T>(a: T, b: T): seq<Step<T>> {
    [Start(a), Probe(0), Publish(0)] + Clones<T>(WRAP - 1) + [Start(b), Probe(WRAP)]
  }

  lemma CrowdReached<T>(n: nat, a: T, limit: nat)
    requires n >= 1 && limit >= WRAP
    ensures var steps := [Start(a), Probe(0), Publish(0)] + Clones<T>(WRAP - 1);
            Legal(New<T>(n), steps, limit) && Run(New<T>(n), steps, limit) == Crowd(n, a, WRAP)
  {
    var w0 := New<T>(n);
    var w1 := Next(w0, Start(a));
    var w2 := Next(w1, Probe(0));
    var w3 := Next(w2, Publish(0));
    assert w1.tasks == [Scanning(0, a)] && w2.tasks == [Reserving(0, a)];
    assert w3.tasks == Crowd(n, a, 1).tasks && w3.counts == Crowd(n, a, 1).counts && w3.data == Crowd(n, a, 1).data;
    var tail := Clones<T>(WRAP - 1);
    CrowdGrows(n, a, 1, WRAP - 1, limit);
    assert w3 == Crowd(n, a, 1);
    RunOne(w2, Publish(0), tail, limit);
    RunOne(w1, Probe(0), [Publish(0)] + tail, limit);
    RunOne(w0, Start(a), [Probe(0)] + ([Publish(0)] + tail), limit);
    assert [Start(a), Probe(0), Publish(0)] + tail == [Start(a)] + ([Probe(0)] + ([Publish(0)] + tail));
  }

  /** The reservation that the wrapped count lets through. */
  lemma WrapReserves<T>(n: nat, a: T, b: T, limit: nat)
    requires n >= 1 && limit >= WRAP
    ensures Legal(New<T>(n), Overflow(a, b), limit)
    ensures var w := Run(New<T>(n), Overflow(a, b), limit);
            && |w.counts| == |w.data| == n && |w.tasks| == WRAP + 1
            && w.tasks[0] == Holding(0, a) && w.tasks[WRAP] == Reserving(0, b) && Holders(w.tasks, 0) == WRAP + 1
  {
    var first := [Start(a), Probe(0), Publish(0)] + Clones<T>(WRAP - 1);
    var last := [Start(b), Probe(WRAP)];
    var c := Crowd(n, a, WRAP);
    CrowdReached(n, a, limit);
    var w1 := Next(c, Start(b));
    var w2 := Next(w1, Probe(WRAP));
    forall i | 0 <= i < n
      ensures Holders(c.tasks, i) <= WRAP && Holders(w1.tasks, i) <= WRAP
    {
      CrowdHolders(a, WRAP, i);
      StepHolders(c, Start(b), i);
    }
    CrowdHolders(a, WRAP, 0);
    StepHolders(c, Start(b), 0);
    StepHolders(w1, Probe(WRAP), 0);
    RunOne(w1, Probe(WRAP), [], limit);
    RunOne(c, Start(b), [Probe(WRAP)] + [], limit);
    assert last == [Start(b)] + ([Probe(WRAP)] + []);
    RunAppend(New<T>(n), first, last, limit);
  }

  // ---------- too many slots ----------

  /** One allocation for each of the first 65536 slots, and one more. */
  function OneTooMany<T>(a: T, b: T): seq<T> {
    seq(WRAP + 1, i => if i < WRAP then a else b)
  }

  lemma NewIsCounted<T>(n: nat, limit: nat)
    ensures Counted(New<T>(n)) && Safe(New<T>(n)) && Bounded(New<T>(n), limit)
  {}

  /** The handle of slot 65536 keeps index 0, and reads what slot 0 holds. */
  lemma LastHandleIsAstray<T>(n: nat, a: T, b: T, limit: nat)
    requires n > WRAP && 1 <= limit < WRAP
    ensures var w, steps := New<T>(n), AllSteps(New<T>(n), OneTooMany(a, b));
            && Legal(w, steps, limit)
            && |Run(w, steps, limit).tasks| == WRAP + 1 && Run(w, steps, limit).tasks[WRAP] == Holding(WRAP, b)
            && |Run(w, steps, limit).data| == n && Run(w, steps, limit).data[Index(WRAP)] == Some(a)
  {
    hide Legal, Run, Attempts, AllSteps;
    var w, values := New<T>(n), OneTooMany(a, b);
    NewIsCounted<T>(n, limit);
    AttemptsAreRun(w, values, limit);
    Refilled(w, values);
  }

  // ---------- exactly ----------

  /**
   * Every run within `limit` holders per slot is safe exactly when slots and holders both fit in 16 bits; or trivially,
   * when nothing may ever be held.
   */
  lemma BoundIsExact<T(!new)>(n: nat, a: T, b: T, limit: nat)
    requires n >= 1 && a != b
    ensures SafeUpTo<T>(n, limit) <==> limit == 0 || (limit < WRAP && n <= WRAP)
  {
    hide AllSteps, Overflow, Run, Legal;
    NewIsCounted<T>(n, limit);
    if limit >= WRAP {
      WrapReserves(n, a, b, limit);
      var w := Run(New<T>(n), Overflow(a, b), limit);
      assert w.tasks[WRAP] in w.tasks;
      assert !Safe(w);
    } else if limit > 0 && n > WRAP {
      LastHandleIsAstray(n, a, b, limit);
      var w := Run(New<T>(n), AllSteps(New<T>(n), OneTooMany(a, b)), limit);
      assert w.tasks[WRAP] in w.tasks;
      assert !Safe(w);
    } else {
      forall steps: seq<Step<T>> | Legal(New<T>(n), steps, limit)
        ensures Safe(Run(New<T>(n), steps, limit))
      {
        if limit == 0 {
          NothingHeld(New<T>(n), steps);
        } else {
          SafeRun(New<T>(n), steps, limit);
        }
      }
    }
  }

  /** Within a limit of 0 the first reservation ends the run. */
  lemma {:induction false} NothingHeld<T>(w: World<T>, steps: seq<Step<T>>)
    requires Counted(w) && Safe(w) && Legal(w, steps, 0) && forall t | t in w.tasks :: !t.Holding?
    ensures Safe(Run(w, steps, 0))
    decreases |steps|
  {
    if steps != [] {
      hide Holders;
      var w' := Next(w, steps[0]);
      CountedStep(w, steps[0]);
      forall t | t in w'.tasks
        ensures !t.Holding? && (t.Reserving? ==> Holders(w'.tasks, t.slot) == 1)
      {
        NoneHeldYet(w, steps[0], t);
      }
      NothingHeld(w', steps[1..]);
    }
  }

  lemma NoneHeldYet<T>(w: World<T>, step: Step<T>, t: Task<T>)
    requires Counted(w) && Enabled(w, step) && Bounded(w, 0) && t in Next(w, step).tasks
    ensures !t.Holding? && (t.Reserving? ==> Holders(Next(w, step).tasks, t.slot) == 1)
  {
    hide Holders;
    forall j | 0 <= j < |w.tasks|
      ensures w.tasks[j].Scanning?
    {
      if !w.tasks[j].Scanning? {
        SomeHolder(w.tasks, j, w.tasks[j].slot);
      }
    }
    if t.Reserving? {
      StepHolders(w, step, t.slot);
    }
  }

  /** Past the wrap the new value overwrites the old one under its live handles. */
  lemma WrapCorrupts<T>(n: nat, a: T, b: T)
    requires n >= 1
    ensures Legal(New<T>(n), Overflow(a, b), WRAP)
    ensures var w := Run(New<T>(n), Overflow(a, b), WRAP);
            && Shape(w) && Enabled(w, Publish(WRAP))
            && var w' := Next(w, Publish(WRAP));
               w'.tasks[0] == Holding(0, a) && w'.data[0] == Some(b)
  {
    WrapReserves(n, a, b, WRAP);
    CountedRun(New<T>(n), Overflow(a, b), WRAP);
  }
}
