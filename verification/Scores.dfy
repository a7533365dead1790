/** The score table: decay, heartbeats, the leader, and the clock reading hidden in the scores. */
module Scores {
  import opened Wrappers
  import opened Bytes

  const FULL_SCORE := 100

  datatype Entry = Entry(id: Mac, score: nat)

  type Table = seq<Option<Entry>>

  /** One tick of decay: scores drop by one, and entries at zero are removed. */
  function DecayCell(cell: Option<Entry>): Option<Entry> {
    if cell.Some? && cell.value.score > 1 then Some(cell.value.(score := cell.value.score - 1)) else None
  }

  function Decay(table: Table): (r: Table)
    ensures |r| == |table|
  {
    seq(|table|, i requires 0 <= i < |table| => DecayCell(table[i]))
  }

  function IndexOf(table: Table, id: Mac): (r: Option<nat>)
    ensures r.Some? ==> r.value < |table| && table[r.value].Some? && table[r.value].value.id == id
    ensures r.Some? ==> forall k | 0 <= k < r.value :: table[k].None? || table[k].value.id != id
    ensures r.None? ==> forall k | 0 <= k < |table| :: table[k].None? || table[k].value.id != id
  {
    if table == [] then None
    else if table[0].Some? && table[0].value.id == id then Some(0)
    else
      match IndexOf(table[1..], id)
      case Some(k) => Some(k + 1)
      case None => None
  }

  function EmptySlot(table: Table): (r: Option<nat>)
    ensures r.Some? ==> r.value < |table| && table[r.value].None?
    ensures r.Some? ==> forall k | 0 <= k < r.value :: table[k].Some?
    ensures r.None? ==> forall k | 0 <= k < |table| :: table[k].Some?
  {
    if table == [] then None
    else if table[0].None? then Some(0)
    else
      match EmptySlot(table[1..])
      case Some(k) => Some(k + 1)
      case None => None
  }

  /** The place that a score for `id` goes to: its own entry, else the first empty slot. */
  function PlaceFor(table: Table, id: Mac): (r: Option<nat>)
    ensures r.Some? ==> r.value < |table|
  {
    if IndexOf(table, id).Some? then IndexOf(table, id) else EmptySlot(table)
  }

  /** A score for a new sender is dropped when the table is full. */
  function Update(table: Table, id: Mac, score: nat): (r: Table)
    ensures |r| == |table|
  {
    match PlaceFor(table, id)
    case Some(k) => table[k := Some(Entry(id, score))]
    case None => table
  }

  /** The highest entry; of equals, the last. */
  function Best(table: Table): Option<Entry> {
    if table == [] then None
    else
      var best, last := Best(table[..|table| - 1]), table[|table| - 1];
      if last.None? || (best.Some? && best.value.score > last.value.score) then best else last
  }

  function Leader(table: Table): Option<Mac> {
    match Best(table)
    case Some(e) => Some(e.id)
    case None => None
  }

  lemma {:induction false} BestIsMaximum(table: Table)
    ensures Best(table).None? <==> forall c | c in table :: c.None?
    ensures Best(table).Some? ==> Best(table) in table && forall c | c in table && c.Some? :: c.value.score <= Best(table).value.score
  {
    if table != [] {
      var front := table[..|table| - 1];
      BestIsMaximum(front);
      assert table == front + [table[|table| - 1]];
    }
  }

  // ---------- the table as a clock ----------

  /** Ticks so far, and the tick of each sender's last stored heartbeat. */
  datatype Track = Track(now: nat, stored: map<Mac, nat>)

  ghost predicate UniqueIds(table: Table) {
    forall i, j | 0 <= i < j < |table| && table[i].Some? && table[j].Some? :: table[i].value.id != table[j].value.id
  }

  /** Heard less than a full score ago. */
  predicate Fresh(track: Track, id: Mac) {
    id in track.stored && track.now < track.stored[id] + FULL_SCORE
  }

  /** The score of a fresh sender: the full score less the ticks since its last stored heartbeat. */
  function ScoreAt(track: Track, id: Mac): nat
    requires Fresh(track, id) && track.stored[id] <= track.now
  {
    FULL_SCORE - (track.now - track.stored[id])
  }

  ghost predicate WellTimed(track: Track) {
    && (forall id | id in track.stored :: track.stored[id] <= track.now)
    && (forall a, b | a in track.stored && b in track.stored && a != b :: track.stored[a] != track.stored[b])
  }

  /** The table holds exactly the fresh senders, each once, at the score its age gives. */
  ghost predicate Tracks(table: Table, track: Track) {
    && UniqueIds(table)
    && WellTimed(track)
    && (forall c | c in table && c.Some? :: Fresh(track, c.value.id) && c.value.score == ScoreAt(track, c.value.id))
    && (forall id | Fresh(track, id) :: Some(Entry(id, ScoreAt(track, id))) in table)
  }

  function NextTick(track: Track): Track {
    track.(now := track.now + 1)
  }

  lemma DecayTracks(table: Table, track: Track)
    requires Tracks(table, track)
    ensures Tracks(Decay(table), NextTick(track))
    ensures forall id | id in track.stored :: track.stored[id] < NextTick(track).now
  {
    var after, later := Decay(table), NextTick(track);
    forall c | c in after && c.Some?
      ensures Fresh(later, c.value.id) && c.value.score == ScoreAt(later, c.value.id)
    {
      var i :| 0 <= i < |after| && after[i] == c;
      assert table[i] in table;
    }
    forall id | Fresh(later, id)
      ensures Some(Entry(id, ScoreAt(later, id))) in after
    {
      assert Fresh(track, id);
      var i :| 0 <= i < |table| && table[i] == Some(Entry(id, ScoreAt(track, id)));
      assert after[i] == DecayCell(table[i]);
    }
  }

  /** A heartbeat that finds a place is the newest record of all. */
  lemma HeartbeatTracks(table: Table, track: Track, id: Mac)
    requires Tracks(table, track) && PlaceFor(table, id).Some?
    requires forall m | m in track.stored :: track.stored[m] < track.now
    ensures Tracks(Update(table, id, FULL_SCORE), track.(stored := track.stored[id := track.now]))
  {
    var k := PlaceFor(table, id).value;
    var after, later := Update(table, id, FULL_SCORE), track.(stored := track.stored[id := track.now]);
    assert after[k] == Some(Entry(id, FULL_SCORE));
    forall c | c in after && c.Some?
      ensures Fresh(later, c.value.id) && c.value.score == ScoreAt(later, c.value.id)
    {
      var i :| 0 <= i < |after| && after[i] == c;
      if i != k {
        assert table[i] in table;
      }
    }
    forall m | Fresh(later, m)
      ensures Some(Entry(m, ScoreAt(later, m))) in after
    {
      if m != id {
        assert Fresh(track, m);
        var i :| 0 <= i < |table| && table[i] == Some(Entry(m, ScoreAt(track, m)));
        assert after[i] == table[i];
      }
    }
  }

  /** Scores of tracked senders are in 1..100 and pairwise distinct, so there are no ties for the lead. */
  lemma ScoresDistinct(table: Table, track: Track, a: Entry, b: Entry)
    requires Tracks(table, track) && Some(a) in table && Some(b) in table
    ensures 1 <= a.score <= FULL_SCORE && (a.id != b.id ==> a.score != b.score)
  {}

  /**
   * The leader is the sender whose stored heartbeat is the most recent of all, and there is one exactly while some
   * sender is fresh.
   */
  lemma LeaderIsMostRecent(table: Table, track: Track)
    requires Tracks(table, track)
    ensures Leader(table).None? <==> forall id :: !Fresh(track, id)
    ensures Leader(table).Some? ==>
              var l := Leader(table).value;
              Fresh(track, l) && forall id | id in track.stored && id != l :: track.stored[id] < track.stored[l]
  {
    BestIsMaximum(table);
    if Best(table).Some? {
      var l := Best(table).value.id;
      forall id | id in track.stored && id != l
        ensures track.stored[id] < track.stored[l]
      {
        if Fresh(track, id) {
          assert Some(Entry(id, ScoreAt(track, id))) in table;
        }
      }
    }
  }

  /** Decay never changes who leads; it only ends the lead, and with it every other entry. */
  lemma DecayKeepsLeader(table: Table, track: Track)
    requires Tracks(table, track)
    ensures Leader(Decay(table)).Some? ==> Leader(Decay(table)) == Leader(table)
    ensures Leader(table).Some? ==> (Leader(Decay(table)).Some? <==> Best(table).value.score > 1)
    ensures Leader(Decay(table)).Some? ==> Best(Decay(table)).value.score == Best(table).value.score - 1
  {
    var later := NextTick(track);
    DecayTracks(table, track);
    LeaderIsMostRecent(table, track);
    LeaderIsMostRecent(Decay(table), later);
    BestIsMaximum(table);
    BestIsMaximum(Decay(table));
    if Best(table).Some? {
      var l, s := Best(table).value.id, Best(table).value.score;
      assert s == ScoreAt(track, l);
      assert s > 1 <==> Fresh(later, l);
      if s <= 1 {
        assert forall id :: !Fresh(later, id);
      }
    }
  }
}
