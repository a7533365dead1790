/** The shared arena as interleaved atomic steps: every order of allocations, clones and drops is a list of steps. */
module ArenaSteps {
  import opened Wrappers

  /** Counts are 16 bits wide and wrap; so are the slot indices that handles keep. */
  const WRAP := 0x1_0000

  type Count = c: int | 0 <= c < WRAP

  /** The index that a handle keeps of its slot, and reads through. Its count it reaches by a pointer. */
  function Index(slot: nat): (i: Count)
    ensures i <= slot
  {
    slot % WRAP
  }

  /** An allocation still looking for a slot, one that has reserved its slot, or a live handle. */
  datatype Task<T> =
    | Scanning(next: nat, value: T)
    | Reserving(slot: nat, value: T)
    | Holding(slot: nat, value: T)
  {
    predicate Holds(i: nat) {
      !Scanning? && slot == i
    }
  }

  datatype World<T> = World(counts: seq<Count>, data: seq<Option<T>>, tasks: seq<Task<T>>)

  /** One atomic action; `k` names the task that takes it. */
  datatype Step<T> =
    | Start(value: T)
    | Probe(k: nat)
    | Publish(k: nat)
    | Clone(k: nat)
    | Drop(k: nat)

  function New<T>(n: nat): World<T> {
    World(seq(n, _ => 0), seq(n, _ => None), [])
  }

  ghost predicate Enabled<T>(w: World<T>, step: Step<T>) {
    match step
    case Start(_) => true
    case Probe(k) => k < |w.tasks| && w.tasks[k].Scanning?
    case Publish(k) => k < |w.tasks| && w.tasks[k].Reserving?
    case Clone(k) => k < |w.tasks| && w.tasks[k].Holding?
    case Drop(k) => k < |w.tasks| && w.tasks[k].Holding?
  }

  function Remove<T>(tasks: seq<Task<T>>, k: nat): seq<Task<T>>
    requires k < |tasks|
  {
    tasks[..k] + tasks[k + 1..]
  }

  function Next<T>(w: World<T>, step: Step<T>): World<T>
    requires Shape(w) && Enabled(w, step)
  {
    match step
    case Start(v) => w.(tasks := w.tasks + [Scanning(0, v)])
    case Probe(k) =>
      var i, v := w.tasks[k].next, w.tasks[k].value;
      if i >= |w.counts| then w.(tasks := Remove(w.tasks, k))
      else if w.counts[i] == 0 then w.(counts := w.counts[i := 1], tasks := w.tasks[k := Reserving(i, v)])
      else w.(tasks := w.tasks[k := Scanning(i + 1, v)])
    case Publish(k) =>
      var t := w.tasks[k];
      w.(data := w.data[t.slot := Some(t.value)], tasks := w.tasks[k := Holding(t.slot, t.value)])
    case Clone(k) =>
      var t := w.tasks[k];
      w.(counts := w.counts[t.slot := (w.counts[t.slot] + 1) % WRAP], tasks := w.tasks + [t])
    case Drop(k) =>
      var t := w.tasks[k];
      w.(counts := w.counts[t.slot := (w.counts[t.slot] - 1) % WRAP], tasks := Remove(w.tasks, k))
  }

  ghost predicate Shape<T>(w: World<T>) {
    && |w.data| == |w.counts|
    && forall k | 0 <= k < |w.tasks| :: w.tasks[k].Scanning? || w.tasks[k].slot < |w.counts|
  }

  /** Live handles and pending reservations of slot `i`. */
  function Holders<T>(tasks: seq<Task<T>>, i: nat): nat {
    if tasks == [] then 0 else (if tasks[0].Holds(i) then 1 else 0) + Holders(tasks[1..], i)
  }

  /** Each count is the number of holders, up to the wrap. */
  ghost predicate Counted<T>(w: World<T>) {
    && Shape(w)
    && forall i | 0 <= i < |w.counts| :: w.counts[i] == Holders(w.tasks, i) % WRAP
  }

  /** A reserved slot has no other holder, and every live handle reads the value it was allocated with. */
  ghost predicate Safe<T>(w: World<T>) {
    && Shape(w)
    && (forall t | t in w.tasks && t.Reserving? :: Holders(w.tasks, t.slot) == 1)
    && (forall t | t in w.tasks && t.Holding? :: w.data[Index(t.slot)] == Some(t.value))
  }

  ghost predicate Bounded<T>(w: World<T>, limit: nat) {
    forall i | 0 <= i < |w.counts| :: Holders(w.tasks, i) <= limit
  }

  // ---------- counting ----------

  lemma {:induction false} HoldersConcat<T>(a: seq<Task<T>>, b: seq<Task<T>>, i: nat)
    ensures Holders(a + b, i) == Holders(a, i) + Holders(b, i)
  {
    if a == [] {
      assert a + b == b;
    } else {
      assert (a + b)[1..] == a[1..] + b;
      HoldersConcat(a[1..], b, i);
    }
  }

  lemma HoldersSplit<T>(tasks: seq<Task<T>>, k: nat, i: nat)
    requires k < |tasks|
    ensures Holders(tasks, i) == Holders(tasks[..k], i) + (if tasks[k].Holds(i) then 1 else 0) + Holders(tasks[k + 1..], i)
  {
    assert tasks == tasks[..k] + tasks[k..];
    HoldersConcat(tasks[..k], tasks[k..], i);
    assert tasks[k..][1..] == tasks[k + 1..];
  }

  lemma HoldersRemove<T>(tasks: seq<Task<T>>, k: nat, i: nat)
    requires k < |tasks|
    ensures Holders(Remove(tasks, k), i) == Holders(tasks, i) - (if tasks[k].Holds(i) then 1 else 0)
  {
    HoldersSplit(tasks, k, i);
    HoldersConcat(tasks[..k], tasks[k + 1..], i);
  }

  lemma HoldersUpdate<T>(tasks: seq<Task<T>>, k: nat, t: Task<T>, i: nat)
    requires k < |tasks|
    ensures Holders(tasks[k := t], i)
         == Holders(tasks, i) - (if tasks[k].Holds(i) then 1 else 0) + (if t.Holds(i) then 1 else 0)
  {
    HoldersSplit(tasks, k, i);
    HoldersSplit(tasks[k := t], k, i);
    assert tasks[k := t][..k] == tasks[..k] && tasks[k := t][k + 1..] == tasks[k + 1..];
  }

  lemma {:induction false} SomeHolder<T>(tasks: seq<Task<T>>, k: nat, i: nat)
    requires k < |tasks| && tasks[k].Holds(i)
    ensures Holders(tasks, i) >= 1
  {
    HoldersSplit(tasks, k, i);
  }

  lemma SoleHolder<T>(tasks: seq<Task<T>>, k: nat, j: nat, i: nat)
    requires k < |tasks| && j < |tasks| && tasks[k].Holds(i) && tasks[j].Holds(i) && Holders(tasks, i) == 1
    ensures k == j
  {
    HoldersRemove(tasks, k, i);
    if j < k {
      SomeHolder(Remove(tasks, k), j, i);
    } else if k < j {
      SomeHolder(Remove(tasks, k), j - 1, i);
    }
  }

  // ---------- what every step keeps ----------

  /** How a step changes the number of holders of slot `i`. */
  lemma StepHolders<T>(w: World<T>, step: Step<T>, i: nat)
    requires Shape(w) && Enabled(w, step)
    ensures var before, after := Holders(w.tasks, i), Holders(Next(w, step).tasks, i);
            match step
            case Start(_) => after == before
            case Probe(k) => after == before + if w.tasks[k].next == i < |w.counts| && w.counts[i] == 0 then 1 else 0
            case Publish(_) => after == before
            case Clone(k) => after == before + if w.tasks[k].slot == i then 1 else 0
            case Drop(k) => after == before - if w.tasks[k].slot == i then 1 else 0
  {
    match step {
      case Start(v) => HoldersConcat(w.tasks, [Scanning(0, v)], i);
      case Probe(k) =>
        var j, v := w.tasks[k].next, w.tasks[k].value;
        HoldersRemove(w.tasks, k, i);
        HoldersUpdate(w.tasks, k, Reserving(j, v), i);
        HoldersUpdate(w.tasks, k, Scanning(j + 1, v), i);
      case Publish(k) => HoldersUpdate(w.tasks, k, Holding(w.tasks[k].slot, w.tasks[k].value), i);
      case Clone(k) => HoldersConcat(w.tasks, [w.tasks[k]], i);
      case Drop(k) => HoldersRemove(w.tasks, k, i);
    }
  }

  /** Counts track holders, whatever the number of holders. */
  lemma CountedStep<T>(w: World<T>, step: Step<T>)
    requires Counted(w) && Enabled(w, step)
    ensures Counted(Next(w, step))
  {
    hide Holders;
    var w' := Next(w, step);
    forall i | 0 <= i < |w'.counts|
      ensures w'.counts[i] == Holders(w'.tasks, i) % WRAP
    {
      StepHolders(w, step, i);
    }
  }

  /**
   * In an arena of at most 65536 slots, while no slot has 65536 holders, no step disturbs a live handle or shares a
   * reserved slot.
   */
  lemma SafeStep<T>(w: World<T>, step: Step<T>)
    requires Counted(w) && Safe(w) && Bounded(w, WRAP - 1) && |w.counts| <= WRAP && Enabled(w, step)
    ensures Safe(Next(w, step))
  {
    hide Holders;
    var w' := Next(w, step);
    CountedStep(w, step);
    forall t | t in w'.tasks && t.Reserving?
      ensures Holders(w'.tasks, t.slot) == 1
    {
      StepHolders(w, step, t.slot);
      if t in w.tasks {
        var j :| 0 <= j < |w.tasks| && w.tasks[j] == t;
        if step.Clone? || step.Drop? {
          if w.tasks[step.k].slot == t.slot {
            SoleHolder(w.tasks, j, step.k, t.slot);
          }
        }
      }
    }
    forall t | t in w'.tasks && t.Holding?
      ensures w'.data[Index(t.slot)] == Some(t.value)
    {
      var j :| 0 <= j < |w'.tasks| && w'.tasks[j] == t;
      if step.Publish? && w.tasks[step.k].slot == t.slot && j != step.k {
        SoleHolder(w.tasks, step.k, j, t.slot);
      }
    }
  }

  // ---------- runs ----------

  /** The steps can be taken in order, and no slot exceeds `limit` holders before any of them. */
  ghost predicate Legal<T>(w: World<T>, steps: seq<Step<T>>, limit: nat)
    decreases |steps|
  {
    steps == [] ||
    (Shape(w) && Enabled(w, steps[0]) && Bounded(w, limit) && Legal(Next(w, steps[0]), steps[1..], limit))
  }

  ghost function Run<T>(w: World<T>, steps: seq<Step<T>>, limit: nat): World<T>
    requires Legal(w, steps, limit)
    decreases |steps|
  {
    if steps == [] then w else Run(Next(w, steps[0]), steps[1..], limit)
  }

  lemma {:induction false} CountedRun<T>(w: World<T>, steps: seq<Step<T>>, limit: nat)
    requires Counted(w) && Legal(w, steps, limit)
    ensures Counted(Run(w, steps, limit))
    decreases |steps|
  {
    if steps != [] {
      CountedStep(w, steps[0]);
      CountedRun(Next(w, steps[0]), steps[1..], limit);
    }
  }

  lemma {:induction false} SafeRun<T>(w: World<T>, steps: seq<Step<T>>, limit: nat)
    requires Counted(w) && Safe(w) && Legal(w, steps, limit) && limit < WRAP && |w.counts| <= WRAP
    ensures Safe(Run(w, steps, limit))
    decreases |steps|
  {
    if steps != [] {
      CountedStep(w, steps[0]);
      SafeStep(w, steps[0]);
      SafeRun(Next(w, steps[0]), steps[1..], limit);
    }
  }

  lemma {:induction false} RunAppend<T>(w: World<T>, first: seq<Step<T>>, second: seq<Step<T>>, limit: nat)
    requires Legal(w, first, limit) && Legal(Run(w, first, limit), second, limit)
    ensures Legal(w, first + second, limit)
    ensures Run(w, first + second, limit) == Run(Run(w, first, limit), second, limit)
    decreases |first|
  {
    if first == [] {
      assert first + second == second;
    } else {
      assert (first + second)[1..] == first[1..] + second;
      RunAppend(Next(w, first[0]), first[1..], second, limit);
    }
  }

  lemma RunOne<T>(w: World<T>, step: Step<T>, rest: seq<Step<T>>, limit: nat)
    requires Shape(w) && Enabled(w, step) && Bounded(w, limit) && Legal(Next(w, step), rest, limit)
    ensures Legal(w, [step] + rest, limit) && Run(w, [step] + rest, limit) == Run(Next(w, step), rest, limit)
  {
    assert ([step] + rest)[1..] == rest;
  }

  /** Once nothing holds a slot, its count is 0 again. */
  lemma NoLeak<T>(n: nat, steps: seq<Step<T>>, limit: nat)
    requires Legal(New<T>(n), steps, limit)
    requires forall t | t in Run(New<T>(n), steps, limit).tasks :: t.Scanning?
    ensures forall i | 0 <= i < |Run(New<T>(n), steps, limit).counts| :: Run(New<T>(n), steps, limit).counts[i] == 0
  {
    var w := Run(New<T>(n), steps, limit);
    CountedRun(New<T>(n), steps, limit);
    forall i | 0 <= i < |w.counts|
      ensures w.counts[i] == 0
    {
      NoHolders(w.tasks, i);
    }
  }

  lemma {:induction false} NoHolders<T>(tasks: seq<Task<T>>, i: nat)
    requires forall t | t in tasks :: t.Scanning?
    ensures Holders(tasks, i) == 0
  {
    if tasks != [] {
      NoHolders(tasks[1..], i);
    }
  }

  lemma {:induction false} SizeKept<T>(w: World<T>, steps: seq<Step<T>>, limit: nat)
    requires Legal(w, steps, limit)
    ensures |Run(w, steps, limit).counts| == |w.counts|
    decreases |steps|
  {
    if steps != [] {
      SizeKept(Next(w, steps[0]), steps[1..], limit);
    }
  }
}
