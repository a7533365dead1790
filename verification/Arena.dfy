/** The arena object: its atomic operations refine the steps, and allocation alone takes the first free slot. */
module Arena {
  import opened Wrappers
  import opened ArenaSteps
  import opened ArenaAlloc

  /** A handle: the 16-bit index of its slot, and which count it points to. */
  datatype TinyArc = TinyArc(index: Count, slot: nat)

  /** The handle that allocation makes for slot `i`. */
  function FromRaw(i: nat): TinyArc {
    TinyArc(i % WRAP, i)
  }

  class Arena<T> {
    const data: array<Option<T>>
    const refCounts: array<Count>
    /** The allocations under way and the live handles, in no particular order. */
    ghost var tasks: seq<Task<T>>

    ghost function View(): World<T>
      reads this, data, refCounts
    {
      World(refCounts[..], data[..], tasks)
    }

    ghost predicate Valid()
      reads this, data, refCounts
    {
      Counted(View())
    }

    constructor (n: nat)
      ensures Valid() && View() == New<T>(n) && fresh(data) && fresh(refCounts)
    {
      data := new Option<T>[n](_ => None);
      refCounts := new Count[n](_ => 0);
      tasks := [];
    }

    /** `compare_exchange(0, 1)` on one count. */
    method Reserve(i: nat) returns (ok: bool)
      requires i < refCounts.Length
      modifies refCounts
      ensures ok <==> old(refCounts[i]) == 0
      ensures refCounts[..] == if ok then old(refCounts[..])[i := 1] else old(refCounts[..])
    {
      ok := refCounts[i] == 0;
      if ok {
        refCounts[i] := 1;
      }
    }

    method Begin(value: T)
      requires Valid()
      modifies this
      ensures Valid() && View() == Next(old(View()), Start(value))
    {
      CountedStep(View(), Start(value));
      tasks := tasks + [Scanning(0, value)];
    }

    /** One turn of the search loop of task `k`. */
    method ProbeSlot(ghost k: nat, i: nat) returns (reserved: bool)
      requires Valid() && Enabled(View(), Probe(k)) && tasks[k].next == i
      modifies this, refCounts
      ensures Valid() && View() == Next(old(View()), Probe(k))
      ensures reserved <==> i < refCounts.Length && old(refCounts[..])[i] == 0
    {
      CountedStep(View(), Probe(k));
      reserved := false;
      if i < refCounts.Length {
        reserved := Reserve(i);
        tasks := tasks[k := if reserved then Reserving(i, tasks[k].value) else Scanning(i + 1, tasks[k].value)];
      } else {
        tasks := Remove(tasks, k);
      }
    }

    /** Writes the reserved slot and hands out the handle. */
    method Fill(ghost k: nat, i: nat, value: T)
      requires Valid() && Enabled(View(), Publish(k)) && tasks[k] == Reserving(i, value)
      modifies this, data
      ensures Valid() && View() == Next(old(View()), Publish(k))
    {
      CountedStep(View(), Publish(k));
      data[i] := Some(value);
      tasks := tasks[k := Holding(i, value)];
    }

    method CloneHandle(ghost k: nat, arc: TinyArc) returns (copy: TinyArc)
      requires Valid() && Enabled(View(), Clone(k)) && arc == FromRaw(tasks[k].slot)
      modifies this, refCounts
      ensures Valid() && View() == Next(old(View()), Clone(k)) && copy == arc
    {
      CountedStep(View(), Clone(k));
      refCounts[arc.slot] := (refCounts[arc.slot] + 1) % WRAP;
      tasks := tasks + [tasks[k]];
      return arc;
    }

    method DropHandle(ghost k: nat, arc: TinyArc)
      requires Valid() && Enabled(View(), Drop(k)) && arc == FromRaw(tasks[k].slot)
      modifies this, refCounts
      ensures Valid() && View() == Next(old(View()), Drop(k))
    {
      CountedStep(View(), Drop(k));
      refCounts[arc.slot] := (refCounts[arc.slot] - 1) % WRAP;
      tasks := Remove(tasks, k);
    }

    /** Reading through a live handle of a safe arena gives the value it was allocated with. */
    method Get(ghost k: nat, arc: TinyArc) returns (r: Option<T>)
      requires Valid() && k < |tasks| && tasks[k].Holding? && arc == FromRaw(tasks[k].slot)
      ensures r == View().data[Index(tasks[k].slot)]
      ensures Safe(View()) ==> r == Some(tasks[k].value)
    {
      r := data[arc.index];
    }

    /** Allocation with no other thread running: the first free slot, or `None` when there is none. */
    method Alloc(value: T) returns (arc: Option<TinyArc>)
      requires Valid()
      modifies this, data, refCounts
      ensures Valid() && View() == Attempt(old(View()), value)
      ensures arc == match FirstFree(old(refCounts[..]), 0) case Some(i) => Some(FromRaw(i)) case None => None
    {
      Begin(value);
      ghost var k := |tasks| - 1;
      for i := 0 to refCounts.Length
        invariant Valid() && tasks == old(tasks) + [Scanning(i, value)]
        invariant refCounts[..] == old(refCounts[..]) && data[..] == old(data[..])
        invariant FirstFree(old(refCounts[..]), i) == FirstFree(old(refCounts[..]), 0)
      {
        var reserved := ProbeSlot(k, i);
        if reserved {
          Fill(k, i, value);
          return Some(FromRaw(i));
        }
      }
      var _ := ProbeSlot(k, refCounts.Length);
      return None;
    }
  }
}
