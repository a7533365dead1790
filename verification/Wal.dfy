/** The write-ahead log as bytes: length-prefixed records, replay, and what a truncated log recovers. */
module Wal {
  import opened Wrappers
  import opened Bytes

  /** The parts of a write command that the node writes and reads back. */
  datatype Command =
    | Insert(entity: nat, reason: Option<string>, delta: Option<U32>)
    | Other

  const DELTA_ENTITY := 1
  const JURY_ENTITY := 999

  function DeltaCommand(delta: byte): Command {
    Insert(DELTA_ENTITY, None, Some(delta))
  }

  /** A conflict report; it carries no delta. */
  function JuryCommand(reason: string): Command {
    Insert(JURY_ENTITY, Some(reason), None)
  }

  /** The command encoding lies outside the model. */
  datatype CommandCodec = CommandCodec(encode: Command -> Bytes, decode: Bytes -> Option<Command>)

  /** The encoding of a command reads back, and fits the length field. */
  predicate Reads(codec: CommandCodec, c: Command) {
    codec.decode(codec.encode(c)) == Some(c) && |codec.encode(c)| < Pow256(4)
  }

  /** It does so for every command of a log. */
  ghost predicate Faithful(codec: CommandCodec, cmds: seq<Command>) {
    forall c | c in cmds :: Reads(codec, c)
  }

  /** A 32-bit length, then the encoded command. */
  function Record(codec: CommandCodec, c: Command): Bytes {
    ToLittleEndian(|codec.encode(c)|, 4) + codec.encode(c)
  }

  function Log(codec: CommandCodec, cmds: seq<Command>): Bytes {
    if cmds == [] then [] else Record(codec, cmds[0]) + Log(codec, cmds[1..])
  }

  function DeltaOf(c: Option<Command>): seq<byte> {
    if c.Some? && c.value.Insert? && c.value.delta.Some? then [c.value.delta.value % 256] else []
  }

  function DeltasOf(cmds: seq<Command>): seq<byte> {
    if cmds == [] then [] else DeltaOf(Some(cmds[0])) + DeltasOf(cmds[1..])
  }

  /** The length of the first record, by its header. */
  function DeclaredLength(bytes: Bytes): nat
    requires |bytes| >= 4
  {
    LittleEndian(bytes[..4])
  }

  /** The deltas that replaying the bytes applies, in order. */
  function Recovered(codec: CommandCodec, bytes: Bytes): seq<byte> {
    if |bytes| < 4 || 4 + DeclaredLength(bytes) > |bytes| then []
    else
      var end := 4 + DeclaredLength(bytes);
      DeltaOf(codec.decode(bytes[4..end])) + Recovered(codec, bytes[end..])
  }

  function Replay<S>(apply: (S, byte) -> S, s: S, deltas: seq<byte>): S
    decreases |deltas|
  {
    if deltas == [] then s else Replay(apply, apply(s, deltas[0]), deltas[1..])
  }

  lemma {:induction false} ReplayConcat<S>(apply: (S, byte) -> S, s: S, a: seq<byte>, b: seq<byte>)
    ensures Replay(apply, s, a + b) == Replay(apply, Replay(apply, s, a), b)
    decreases |a|
  {
    if a == [] {
      assert a + b == b;
    } else {
      assert (a + b)[1..] == a[1..] + b;
      ReplayConcat(apply, apply(s, a[0]), a[1..], b);
    }
  }

  lemma {:induction false} DeltasOfConcat(a: seq<Command>, b: seq<Command>)
    ensures DeltasOf(a + b) == DeltasOf(a) + DeltasOf(b)
  {
    if a == [] {
      assert a + b == b;
    } else {
      assert (a + b)[1..] == a[1..] + b;
      DeltasOfConcat(a[1..], b);
    }
  }

  /** Replay position by position. */
  lemma RecoveredAt(codec: CommandCodec, bytes: Bytes, pos: nat)
    requires pos <= |bytes|
    ensures pos + 4 > |bytes| ==> Recovered(codec, bytes[pos..]) == []
    ensures pos + 4 <= |bytes| ==>
              var end := pos + 4 + LittleEndian(bytes[pos..pos + 4]);
              Recovered(codec, bytes[pos..]) ==
              if end > |bytes| then []
              else DeltaOf(codec.decode(bytes[pos + 4..end])) + Recovered(codec, bytes[end..])
  {
    hide LittleEndian;
    if pos + 4 <= |bytes| {
      var rest := bytes[pos..];
      assert rest[..4] == bytes[pos..pos + 4];
      var len := LittleEndian(rest[..4]);
      if pos + 4 + len <= |bytes| {
        assert rest[4..4 + len] == bytes[pos + 4..pos + 4 + len] && rest[4 + len..] == bytes[pos + 4 + len..];
      }
    }
  }

  /** Reads records until the bytes run out, applying each delta to the state. */
  method RecoverFromWal<S>(codec: CommandCodec, bytes: Bytes, apply: (S, byte) -> S, initial: S) returns (state: S)
    ensures state == Replay(apply, initial, Recovered(codec, bytes))
  {
    hide Recovered, LittleEndian;
    state := initial;
    var pos: nat := 0;
    assert bytes[0..] == bytes;
    while pos < |bytes|
      invariant pos <= |bytes|
      invariant Replay(apply, initial, Recovered(codec, bytes)) == Replay(apply, state, Recovered(codec, bytes[pos..]))
    {
      RecoveredAt(codec, bytes, pos);
      if pos + 4 > |bytes| {
        return;
      }
      var len := Le32(bytes, pos);
      pos := pos + 4;
      if pos + len > |bytes| {
        return;
      }
      var cmdBytes := bytes[pos..pos + len];
      pos := pos + len;
      ghost var rest := Recovered(codec, bytes[pos..]);
      match codec.decode(cmdBytes) {
        case Some(cmd) =>
          if cmd.Insert? && cmd.delta.Some? {
            var delta: byte := cmd.delta.value % 256;
            ReplayConcat(apply, state, [delta], rest);
            assert [delta][1..] == [];
            state := apply(state, delta);
          } else {
            assert [] + rest == rest;
          }
        case None =>
          assert [] + rest == rest;
      }
    }
    RecoveredAt(codec, bytes, pos);
  }

  // ---------- crashes ----------

  lemma {:induction false} LogConcat(codec: CommandCodec, a: seq<Command>, b: seq<Command>)
    ensures Log(codec, a + b) == Log(codec, a) + Log(codec, b)
  {
    hide Record;
    if a == [] {
      assert a + b == b;
    } else {
      assert (a + b)[1..] == a[1..] + b;
      LogConcat(codec, a[1..], b);
    }
  }

  /** What replay makes of a header, the bytes it announces, and what follows. */
  lemma RecoveredBehind(codec: CommandCodec, header: Bytes, rest: Bytes)
    requires |header| == 4
    ensures var len := LittleEndian(header);
            Recovered(codec, header + rest) ==
            if len > |rest| then [] else DeltaOf(codec.decode(rest[..len])) + Recovered(codec, rest[len..])
  {
    hide LittleEndian;
    var bytes, len := header + rest, LittleEndian(header);
    assert bytes[..4] == header;
    if len <= |rest| {
      assert bytes[4..4 + len] == rest[..len] && bytes[4 + len..] == rest[len..];
    }
  }

  lemma RecordRecovers(codec: CommandCodec, c: Command, tail: Bytes)
    requires Reads(codec, c)
    ensures Recovered(codec, Record(codec, c) + tail) == DeltaOf(Some(c)) + Recovered(codec, tail)
  {
    hide LittleEndian, Recovered;
    var body, header := codec.encode(c), ToLittleEndian(|codec.encode(c)|, 4);
    assert Record(codec, c) + tail == header + (body + tail);
    RecoveredBehind(codec, header, body + tail);
    assert (body + tail)[..|body|] == body && (body + tail)[|body|..] == tail;
  }

  /** A whole log recovers every delta, also when more bytes follow. */
  lemma {:induction false} WholeLogRecovers(codec: CommandCodec, cmds: seq<Command>, tail: Bytes)
    requires Faithful(codec, cmds)
    ensures Recovered(codec, Log(codec, cmds) + tail) == DeltasOf(cmds) + Recovered(codec, tail)
  {
    hide Recovered, Record, Reads;
    if cmds == [] {
      assert Log(codec, cmds) + tail == tail;
      assert DeltasOf(cmds) + Recovered(codec, tail) == Recovered(codec, tail);
    } else {
      var rest := Log(codec, cmds[1..]) + tail;
      assert Log(codec, cmds) + tail == Record(codec, cmds[0]) + rest;
      RecordRecovers(codec, cmds[0], rest);
      WholeLogRecovers(codec, cmds[1..], tail);
      var first, others, last := DeltaOf(Some(cmds[0])), DeltasOf(cmds[1..]), Recovered(codec, tail);
      assert first + (others + last) == first + others + last;
    }
  }

  lemma WholeIsRecovered(codec: CommandCodec, cmds: seq<Command>)
    requires Faithful(codec, cmds)
    ensures Recovered(codec, Log(codec, cmds)) == DeltasOf(cmds)
  {
    hide Recovered, Record, Faithful, LittleEndian;
    WholeLogRecovers(codec, cmds, []);
    RecoveredAt(codec, [], 0);
    assert Log(codec, cmds) + [] == Log(codec, cmds) && DeltasOf(cmds) + [] == DeltasOf(cmds);
  }

  /** A record cut short, at any byte, recovers nothing. */
  lemma CutRecordRecoversNothing(codec: CommandCodec, c: Command, part: Bytes)
    requires Reads(codec, c) && part < Record(codec, c)
    ensures Recovered(codec, part) == []
  {
    hide LittleEndian, Recovered;
    if |part| >= 4 {
      var rest := part[4..];
      assert part == ToLittleEndian(|codec.encode(c)|, 4) + rest;
      RecoveredBehind(codec, ToLittleEndian(|codec.encode(c)|, 4), rest);
    } else {
      assert part[0..] == part;
      RecoveredAt(codec, part, 0);
    }
  }

  /** How many records lie whole within the first `cut` bytes. */
  function Survivors(codec: CommandCodec, cmds: seq<Command>, cut: nat): (k: nat)
    ensures k <= |cmds|
  {
    if cmds == [] || |Record(codec, cmds[0])| > cut then 0
    else 1 + Survivors(codec, cmds[1..], cut - |Record(codec, cmds[0])|)
  }

  /** They are the longest prefix of the log that fits. */
  lemma {:induction false} SurvivorsFit(codec: CommandCodec, cmds: seq<Command>, cut: nat)
    ensures var k := Survivors(codec, cmds, cut);
            && |Log(codec, cmds[..k])| <= cut
            && (k < |cmds| ==> cut < |Log(codec, cmds[..k + 1])|)
  {
    hide Record;
    if cmds != [] && |Record(codec, cmds[0])| <= cut {
      var left := cut - |Record(codec, cmds[0])|;
      var k := Survivors(codec, cmds[1..], left);
      SurvivorsFit(codec, cmds[1..], left);
      assert cmds[..k + 1][1..] == cmds[1..][..k];
      if k + 1 < |cmds| {
        assert cmds[..k + 2][1..] == cmds[1..][..k + 1];
      }
    } else if cmds != [] {
      assert cmds[..1][1..] == [];
    }
  }

  /** A cut behind a log spares all of it. */
  lemma {:induction false} SurvivorsReach(codec: CommandCodec, cmds: seq<Command>, more: seq<Command>, cut: nat)
    requires |Log(codec, cmds)| <= cut
    ensures Survivors(codec, cmds + more, cut) >= |cmds|
  {
    hide Record;
    if cmds != [] {
      assert (cmds + more)[1..] == cmds[1..] + more;
      SurvivorsReach(codec, cmds[1..], more, cut - |Record(codec, cmds[0])|);
    }
  }

  lemma SurvivorsAreWhole(codec: CommandCodec, cmds: seq<Command>, part: Bytes)
    requires part <= Log(codec, cmds)
    ensures Log(codec, cmds[..Survivors(codec, cmds, |part|)]) <= part
  {
    hide Log;
    var k := Survivors(codec, cmds, |part|);
    SurvivorsFit(codec, cmds, |part|);
    LogConcat(codec, cmds[..k], cmds[k..]);
    assert cmds[..k] + cmds[k..] == cmds;
  }

  /** Wherever a crash cuts the log, replay applies the deltas of exactly the records that survived whole. */
  lemma {:induction false} CutRecovers(codec: CommandCodec, cmds: seq<Command>, part: Bytes)
    requires Faithful(codec, cmds) && part <= Log(codec, cmds)
    ensures Recovered(codec, part) == DeltasOf(cmds[..Survivors(codec, cmds, |part|)])
    decreases |cmds|
  {
    hide Recovered, Record, LittleEndian, Reads;
    if cmds == [] {
      RecoveredAt(codec, [], 0);
    } else {
      var first, log := Record(codec, cmds[0]), Log(codec, cmds);
      if |first| > |part| {
        CutRecordRecoversNothing(codec, cmds[0], part);
      } else {
        var rest := part[|first|..];
        var k := Survivors(codec, cmds[1..], |rest|);
        assert part == first + rest && rest <= Log(codec, cmds[1..]);
        CutRecovers(codec, cmds[1..], rest);
        RecordRecovers(codec, cmds[0], rest);
        assert cmds[..k + 1] == [cmds[0]] + cmds[1..][..k];
      }
    }
  }

  // ---------- byte for byte ----------

  /** A record is four bytes of length, the lowest first, and the encoded command. */
  lemma RecordBytes(codec: CommandCodec, c: Command)
    ensures var e := codec.encode(c); var n := |e|;
            Record(codec, c) == [n % 0x100, n / 0x100 % 0x100, n / 0x1_0000 % 0x100, n / 0x100_0000 % 0x100] + e
  {
    WrittenLowestFirst(|codec.encode(c)|);
  }

  /** A record written so by anybody is read so. */
  lemma WireRecord(codec: CommandCodec, header: Bytes, rest: Bytes)
    requires |header| == 4
    ensures var n := header[0] as int + 0x100 * header[1] as int + 0x1_0000 * header[2] as int + 0x100_0000 * header[3] as int;
            Recovered(codec, header + rest) ==
            if n > |rest| then [] else DeltaOf(codec.decode(rest[..n])) + Recovered(codec, rest[n..])
  {
    hide *;
    FourBytes(header);
    RecoveredBehind(codec, header, rest);
  }

  /** What a decoded command applies: the low byte of its delta, if it is an insertion with one, of any entity. */
  lemma AppliedDelta(entity: nat, reason: Option<string>, delta: Option<U32>)
    ensures DeltaOf(Some(Insert(entity, reason, delta))) == match delta case Some(d) => [d % 256] case None => []
    ensures DeltaOf(Some(Other)) == DeltaOf(None) == []
  {}

  // ---------- writing on behind a torn record ----------

  /**
   * What replay gives when bytes are appended behind a torn record, whatever they are. With the header whole, the torn
   * record swallows exactly the bytes it misses, if there are that many, and everything if not. With the header torn too,
   * the first new bytes complete it to a length that nobody wrote.
   */
  lemma TornTail(codec: CommandCodec, cmds: seq<Command>, torn: Command, part: Bytes, later: Bytes)
    requires Faithful(codec, cmds) && Reads(codec, torn) && part < Record(codec, torn)
    ensures Recovered(codec, Log(codec, cmds) + (part + later)) == DeltasOf(cmds) + BehindTorn(codec, torn, part, later)
  {
    hide Recovered, LittleEndian, Reads;
    WholeLogRecovers(codec, cmds, part + later);
    if |part| >= 4 {
      TornBody(codec, torn, part, later);
    } else if |part| + |later| >= 4 {
      var header, rest := part + later[..4 - |part|], later[4 - |part|..];
      assert part + later == header + rest;
      RecoveredBehind(codec, header, rest);
    } else {
      assert (part + later)[0..] == part + later;
      RecoveredAt(codec, part + later, 0);
    }
  }

  function BehindTorn(codec: CommandCodec, torn: Command, part: Bytes, later: Bytes): seq<byte>
    requires |part| < |Record(codec, torn)|
  {
    if |part| >= 4 then
      var missing := |Record(codec, torn)| - |part|;
      if |later| < missing then []
      else DeltaOf(codec.decode(part[4..] + later[..missing])) + Recovered(codec, later[missing..])
    else if |part| + |later| < 4 then []
    else
      var header, rest := part + later[..4 - |part|], later[4 - |part|..];
      if LittleEndian(header) > |rest| then []
      else DeltaOf(codec.decode(rest[..LittleEndian(header)])) + Recovered(codec, rest[LittleEndian(header)..])
  }

  lemma TornBody(codec: CommandCodec, torn: Command, part: Bytes, later: Bytes)
    requires Reads(codec, torn) && part < Record(codec, torn) && |part| >= 4
    ensures Recovered(codec, part + later) == BehindTorn(codec, torn, part, later)
  {
    hide Recovered, LittleEndian;
    var body, header := codec.encode(torn), ToLittleEndian(|codec.encode(torn)|, 4);
    var rest := part[4..] + later;
    assert part + later == header + rest;
    RecoveredBehind(codec, header, rest);
    var missing := |Record(codec, torn)| - |part|;
    if |later| >= missing {
      assert rest[..|body|] == part[4..] + later[..missing] && rest[|body|..] == later[missing..];
    }
  }

  /** So all that is appended is lost while it is shorter than what the torn record misses. */
  lemma TornTailSwallows(codec: CommandCodec, cmds: seq<Command>, torn: Command, part: Bytes, later: Bytes)
    requires Faithful(codec, cmds) && Reads(codec, torn) && part < Record(codec, torn)
    requires 4 <= |part| && |part| + |later| < |Record(codec, torn)|
    ensures Recovered(codec, Log(codec, cmds) + (part + later)) == DeltasOf(cmds)
  {
    hide Recovered, Record;
    TornTail(codec, cmds, torn, part, later);
    assert DeltasOf(cmds) + [] == DeltasOf(cmds);
  }

  // ---------- an encoding that meets the assumption ----------

  const HEARTBEAT_LOST := "heartbeat_decay"
  const DOUBLE_SIGN := "double_sign"

  /** The commands that a node writes: a delta of one byte, or one of two conflict reports. */
  predicate Written(c: Command) {
    c == JuryCommand(HEARTBEAT_LOST) || c == JuryCommand(DOUBLE_SIGN)
    || (c.Insert? && c.delta.Some? && c.delta.value < 256 && c == DeltaCommand(c.delta.value))
  }

  lemma WrittenCommands(c: Command)
    ensures Written(c) <==>
              || c == Insert(999, Some("heartbeat_decay"), None)
              || c == Insert(999, Some("double_sign"), None)
              || exists d: byte :: c == Insert(1, None, Some(d))
  {
    if Written(c) && c.delta.Some? {
      var d: byte := c.delta.value;
      assert c == Insert(1, None, Some(d));
    }
  }

  /** What the crash laws assume of the encoding: the commands a node writes read back. */
  ghost predicate ReadsWritten(codec: CommandCodec) {
    forall c | Written(c) :: Reads(codec, c)
  }

  function PlainEncode(c: Command): Bytes {
    if c == JuryCommand(HEARTBEAT_LOST) then [0]
    else if c == JuryCommand(DOUBLE_SIGN) then [1]
    else if c.Insert? && c.delta.Some? then [2, c.delta.value % 256]
    else []
  }

  function PlainDecode(b: Bytes): Option<Command> {
    if b == [0] then Some(JuryCommand(HEARTBEAT_LOST))
    else if b == [1] then Some(JuryCommand(DOUBLE_SIGN))
    else if |b| == 2 && b[0] == 2 then Some(DeltaCommand(b[1]))
    else None
  }

  /** It can be met. */
  lemma PlainCodecReads()
    ensures ReadsWritten(CommandCodec(PlainEncode, PlainDecode))
  {
    Widths();
  }
}
