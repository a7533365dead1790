/** The bounded cache of neighbour assertions and the consensus count over it. */
module Gossip {
  import opened Wrappers
  import opened Bytes

  const CAPACITY := 8
  const VALIDITY_US := 5_000_000

  datatype Assertion = Assertion(mac: Mac, timestamp: U64, score: U16)

  function SaturatingSub(a: nat, b: nat): nat {
    if a >= b then a - b else 0
  }

  // ---------- the consensus count ----------

  datatype Context = Context(myMac: Mac, recent: seq<Assertion>, now: U64)

  predicate Confirms(ctx: Context, a: Assertion, windowUs: nat, threshold: nat) {
    SaturatingSub(ctx.now, a.timestamp) <= windowUs && a.mac != ctx.myMac && a.score >= threshold
  }

  /** The distinct other nodes with an in-window, high-enough assertion among the first `i`. */
  function Confirming(ctx: Context, windowUs: nat, threshold: nat, i: nat): set<Mac>
    requires i <= |ctx.recent|
  {
    set k | 0 <= k < i && Confirms(ctx, ctx.recent[k], windowUs, threshold) :: ctx.recent[k].mac
  }

  lemma ConfirmingStep(ctx: Context, windowUs: nat, threshold: nat, i: nat)
    requires i < |ctx.recent|
    ensures Confirming(ctx, windowUs, threshold, i + 1) == Confirming(ctx, windowUs, threshold, i)
         + if Confirms(ctx, ctx.recent[i], windowUs, threshold) then {ctx.recent[i].mac} else {}
  {}

  function Elements(s: seq<Mac>): set<Mac> {
    set m | m in s
  }

  lemma ElementsAdd(s: seq<Mac>, m: Mac)
    ensures Elements(s + [m]) == Elements(s) + {m}
    ensures m in Elements(s) <==> m in s
  {}

  lemma NothingYet(ctx: Context, windowUs: nat, threshold: nat)
    ensures Confirming(ctx, windowUs, threshold, 0) == {} && Elements([]) == {}
  {}

  /** Counts into a list of capacity 8, so the count is exact up to 8. */
  method CountConfirming(ctx: Context, windowUs: nat, threshold: nat) returns (count: nat)
    ensures var n := |Confirming(ctx, windowUs, threshold, |ctx.recent|)|; count == if n <= 8 then n else 8
  {
    hide Confirming, Elements, Confirms;
    var unique: seq<Mac> := [];
    ghost var full: set<Mac> := {};
    NothingYet(ctx, windowUs, threshold);
    for i := 0 to |ctx.recent|
      invariant full == Confirming(ctx, windowUs, threshold, i)
      invariant |unique| <= CAPACITY && |Elements(unique)| == |unique| && Elements(unique) <= full
      invariant |unique| < CAPACITY ==> Elements(unique) == full
    {
      var entry := ctx.recent[i];
      ConfirmingStep(ctx, windowUs, threshold, i);
      ElementsAdd(unique, entry.mac);
      if Confirms(ctx, entry, windowUs, threshold) {
        full := full + {entry.mac};
        if entry.mac !in unique && |unique| < CAPACITY {
          unique := unique + [entry.mac];
        }
      }
    }
    SubsetSize(Elements(unique), full);
    return |unique|;
  }

  lemma {:induction false} SubsetSize<T>(a: set<T>, b: set<T>)
    requires a <= b
    ensures |a| <= |b|
  {
    if a != {} {
      var x :| x in a;
      SubsetSize(a - {x}, b - {x});
    }
  }

  /** No list of at most 8 assertions overflows the count. */
  lemma {:induction false} ConfirmingFits(ctx: Context, windowUs: nat, threshold: nat, i: nat)
    requires i <= |ctx.recent|
    ensures |Confirming(ctx, windowUs, threshold, i)| <= i
  {
    if i > 0 {
      ConfirmingStep(ctx, windowUs, threshold, i - 1);
      ConfirmingFits(ctx, windowUs, threshold, i - 1);
    }
  }

  // ---------- the cache ----------

  type Cache = seq<Assertion>

  predicate Live(a: Assertion, now: nat) {
    SaturatingSub(now, a.timestamp) <= VALIDITY_US
  }

  /** Entries older than five seconds are dropped; order is kept. */
  function Pruned(cache: Cache, now: nat): (r: Cache)
    ensures |r| <= |cache|
  {
    if cache == [] then []
    else (if Live(cache[0], now) then [cache[0]] else []) + Pruned(cache[1..], now)
  }

  /** One more entry of a pruning in progress. */
  lemma PrunedStep(cache: Cache, i: nat, kept: Cache, now: nat)
    requires i < |cache|
    ensures kept + Pruned(cache[i..], now)
         == (if Live(cache[i], now) then kept + [cache[i]] else kept) + Pruned(cache[i + 1..], now)
  {
    var rest := cache[i..];
    assert rest[1..] == cache[i + 1..];
    assert Pruned(rest, now) == (if Live(rest[0], now) then [rest[0]] else []) + Pruned(rest[1..], now);
    assert kept + ([cache[i]] + Pruned(cache[i + 1..], now)) == kept + [cache[i]] + Pruned(cache[i + 1..], now);
  }

  function Find(cache: Cache, mac: Mac): (r: Option<nat>)
    ensures r.Some? ==> r.value < |cache| && cache[r.value].mac == mac && forall k | 0 <= k < r.value :: cache[k].mac != mac
    ensures r.None? ==> forall k | 0 <= k < |cache| :: cache[k].mac != mac
  {
    if cache == [] then None
    else if cache[0].mac == mac then Some(0)
    else
      match Find(cache[1..], mac)
      case Some(k) => Some(k + 1)
      case None => None
  }

  /** A frame refreshes its sender's entry, or takes a free place, or is dropped. */
  function Heard(cache: Cache, a: Assertion): Cache {
    match Find(cache, a.mac)
    case Some(k) => cache[k := a]
    case None => if |cache| < CAPACITY then cache + [a] else cache
  }

  /** The assertion a frame carries; shorter payloads carry none. */
  function ParseAssertion(payload: Bytes): Option<Assertion> {
    if |payload| >= 16 then Some(Assertion(payload[..6], Le64(payload, 6), Le16(payload, 14))) else None
  }

  ghost predicate Distinct(cache: Cache) {
    forall i, j | 0 <= i < j < |cache| :: cache[i].mac != cache[j].mac
  }

  ghost predicate CacheOk(cache: Cache) {
    |cache| <= CAPACITY && Distinct(cache)
  }

  /** `a in Pruned(cache)` exactly when `a` was cached and is live, which is no more than five seconds old. */
  lemma {:induction false} PrunedMembers(cache: Cache, now: nat, a: Assertion)
    ensures a in Pruned(cache, now) <==> a in cache && Live(a, now)
    ensures Live(a, now) <==> now <= a.timestamp + 5_000_000
  {
    if cache != [] {
      PrunedMembers(cache[1..], now, a);
      assert cache == [cache[0]] + cache[1..];
    }
  }

  lemma {:induction false} PrunedDistinct(cache: Cache, now: nat)
    requires Distinct(cache)
    ensures Distinct(Pruned(cache, now))
  {
    if cache != [] {
      PrunedDistinct(cache[1..], now);
      var rest := Pruned(cache[1..], now);
      forall k | 0 <= k < |rest|
        ensures rest[k].mac != cache[0].mac
      {
        PrunedMembers(cache[1..], now, rest[k]);
      }
    }
  }

  lemma HeardOk(cache: Cache, a: Assertion)
    requires CacheOk(cache)
    ensures CacheOk(Heard(cache, a))
  {
    hide Find;
  }

  /** A cache that keeps the newest view of each sender it has room for. */
  datatype Ledger = Ledger(last: map<Mac, Assertion>, lost: set<Mac>)

  /** What an unbounded observer records: the last frame of each sender, and which of those found no room. */
  function Observe(ledger: Ledger, cache: Cache, a: Assertion): Ledger {
    var stored := Find(cache, a.mac).Some? || |cache| < CAPACITY;
    Ledger(ledger.last[a.mac := a], if stored then ledger.lost - {a.mac} else ledger.lost + {a.mac})
  }

  /**
   * The cache is the last frame of each sender, less those that had expired at `since` and those that found no room.
   */
  ghost predicate Refines(cache: Cache, ledger: Ledger, since: nat) {
    && CacheOk(cache)
    && (forall m | m in ledger.last :: ledger.last[m].mac == m)
    && (forall a | a in cache :: a.mac in ledger.last && ledger.last[a.mac] == a && a.mac !in ledger.lost)
    && (forall m | m in ledger.last && Live(ledger.last[m], since) && m !in ledger.lost :: ledger.last[m] in cache)
  }

  /** Pruning at a later time leaves exactly the last frames that are still live and found room. */
  lemma PruneRefines(cache: Cache, ledger: Ledger, since: nat, now: nat)
    requires Refines(cache, ledger, since) && since <= now
    ensures Refines(Pruned(cache, now), ledger, now)
    ensures forall m | m in ledger.last && m !in ledger.lost ::
              ledger.last[m] in Pruned(cache, now) <==> Live(ledger.last[m], now)
  {
    PrunedDistinct(cache, now);
    forall a
      ensures a in Pruned(cache, now) <==> a in cache && Live(a, now)
    {
      PrunedMembers(cache, now, a);
    }
  }

  lemma HeardRefines(cache: Cache, ledger: Ledger, since: nat, a: Assertion)
    requires Refines(cache, ledger, since)
    ensures Refines(Heard(cache, a), Observe(ledger, cache, a), since)
  {
    var after, ledger' := Heard(cache, a), Observe(ledger, cache, a);
    match Find(cache, a.mac) {
      case Some(k) =>
        assert after[k] == a;
        forall m | m in ledger'.last && Live(ledger'.last[m], since) && m !in ledger'.lost
          ensures ledger'.last[m] in after
        {
          if m != a.mac {
            var j :| 0 <= j < |cache| && cache[j] == ledger.last[m];
            assert after[j] == cache[j];
          }
        }
      case None =>
    }
  }

  // ---------- without the helper names ----------

  /** Who confirms: any other node with an assertion inside the window and of at least the score. */
  lemma ConfirmingMembers(ctx: Context, windowUs: nat, threshold: nat, m: Mac)
    ensures m in Confirming(ctx, windowUs, threshold, |ctx.recent|) <==>
              m != ctx.myMac
              && exists a | a in ctx.recent :: a.mac == m && ctx.now <= a.timestamp + windowUs && a.score >= threshold
  {
    forall k | 0 <= k < |ctx.recent|
      ensures ctx.recent[k] in ctx.recent
    {}
  }

  /** A heard frame replaces its sender's, or is added while there are fewer than 8; all the others stay. */
  lemma HeardMembers(cache: Cache, a: Assertion, b: Assertion)
    requires Distinct(cache)
    ensures b in Heard(cache, a) <==>
              (b in cache && b.mac != a.mac)
              || (b == a && (|cache| < 8 || exists c | c in cache :: c.mac == a.mac))
  {
    var after := Heard(cache, a);
    match Find(cache, a.mac) {
      case Some(k) =>
        assert after[k] == a && cache[k] in cache;
        if b in cache && b.mac != a.mac {
          var j :| 0 <= j < |cache| && cache[j] == b;
          assert after[j] == b;
        }
        if b in after && b != a {
          var j :| 0 <= j < |after| && after[j] == b;
          assert j != k && cache[j] == b;
        }
      case None =>
    }
  }

  /** The 16 bytes of an assertion: sender, time and score, the numbers lowest byte first. */
  lemma AssertionBytes(payload: Bytes)
    ensures ParseAssertion(payload).Some? <==> |payload| >= 16
    ensures |payload| >= 16 ==>
              var a := ParseAssertion(payload).value;
              && a.mac == payload[0..6]
              && a.timestamp == Le32(payload, 6) + 0x1_0000_0000 * Le32(payload, 10)
              && a.score == payload[14] as int + 0x100 * payload[15] as int
  {
    if |payload| >= 16 {
      LowestFirst(payload, 6);
      LowestFirst(payload, 14);
    }
  }

  // ---------- the count over the ledger ----------

  /** The senders that confirm by their last frames, in a memory without bounds. */
  function LedgerConfirming(ledger: Ledger, me: Mac, now: nat, windowUs: nat, threshold: nat): set<Mac> {
    set m | m in ledger.last && SaturatingSub(now, ledger.last[m].timestamp) <= windowUs && m != me
            && ledger.last[m].score >= threshold
  }

  /** With a window inside the validity, the pruned cache misses none of them but those that found no room. */
  lemma CacheConfirms(cache: Cache, ledger: Ledger, since: nat, me: Mac, now: U64, windowUs: nat, threshold: nat)
    requires Refines(cache, ledger, since) && since <= now && windowUs <= VALIDITY_US
    ensures Confirming(Context(me, cache, now), windowUs, threshold, |cache|)
         == LedgerConfirming(ledger, me, now, windowUs, threshold) - ledger.lost
  {
    var ctx := Context(me, cache, now);
    forall m | m in LedgerConfirming(ledger, me, now, windowUs, threshold) - ledger.lost
      ensures m in Confirming(ctx, windowUs, threshold, |cache|)
    {
      assert Live(ledger.last[m], since);
      var k :| 0 <= k < |cache| && cache[k] == ledger.last[m];
      assert Confirms(ctx, cache[k], windowUs, threshold);
    }
  }

  // ---------- without a clock ----------

  /** At time 0 nothing has expired. */
  lemma {:induction false} NothingExpires(cache: Cache)
    ensures Pruned(cache, 0) == cache
  {
    if cache != [] {
      NothingExpires(cache[1..]);
    }
  }

  function Senders(cache: Cache): (r: seq<Mac>)
    ensures |r| == |cache|
  {
    seq(|cache|, k requires 0 <= k < |cache| => cache[k].mac)
  }

  /** A full cache takes in no new sender. */
  lemma FullCacheIsClosed(cache: Cache, a: Assertion)
    requires |cache| == 8
    ensures Senders(Heard(cache, a)) == Senders(cache)
  {}
}
