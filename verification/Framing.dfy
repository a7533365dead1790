/** The 0xDE 0xAD length-prefixed stream: one scan of a whole stream, and what it gives for encoded frames. */
module Framing {
  import opened Bytes

  const MAGIC0: byte := 0xDE
  const MAGIC1: byte := 0xAD

  /** Magic, 16-bit big-endian length, body. The length field is the low 16 bits of the body's length. */
  function Encode(body: Bytes): (packet: Bytes)
    ensures |packet| == 4 + |body|
  {
    [MAGIC0, MAGIC1] + ToBe16(|body|) + body
  }

  function EncodeAll(bodies: seq<Bytes>): Bytes {
    if bodies == [] then [] else Encode(bodies[0]) + EncodeAll(bodies[1..])
  }

  datatype Scanned = Scanned(frames: seq<Bytes>, rest: Bytes)

  predicate StartsFrame(s: Bytes)
    requires |s| >= 4
  {
    s[0] == MAGIC0 && s[1] == MAGIC1
  }

  function FrameEnd(s: Bytes): (n: nat)
    requires |s| >= 4
    ensures n >= 4
  {
    4 + Be16(s[2], s[3])
  }

  /** The frames of a whole stream, and the bytes that cannot be decided yet. */
  function Scan(s: Bytes): Scanned {
    if |s| < 4 then Scanned([], s)
    else if !StartsFrame(s) then Scan(s[1..])
    else if |s| < FrameEnd(s) then Scanned([], s)
    else
      var tail := Scan(s[FrameEnd(s)..]);
      Scanned([s[4..FrameEnd(s)]] + tail.frames, tail.rest)
  }

  /** A buffer about which nothing can be decided before another byte arrives. */
  predicate Stable(buf: Bytes) {
    |buf| < 4 || (StartsFrame(buf) && |buf| < FrameEnd(buf))
  }

  lemma {:induction false} ScanLeavesStable(s: Bytes)
    ensures Stable(Scan(s).rest)
  {
    if |s| >= 4 {
      if !StartsFrame(s) {
        ScanLeavesStable(s[1..]);
      } else if |s| >= FrameEnd(s) {
        ScanLeavesStable(s[FrameEnd(s)..]);
      }
    }
  }

  /** Scanning in two parts, carrying the undecided bytes over, is scanning in one. */
  lemma {:induction false} ScanAppend(a: Bytes, b: Bytes)
    ensures var first := Scan(a); var second := Scan(first.rest + b);
            Scan(a + b) == Scanned(first.frames + second.frames, second.rest)
    decreases |a|
  {
    if |a| < 4 || (StartsFrame(a) && |a| < FrameEnd(a)) {
    } else if !StartsFrame(a) {
      assert (a + b)[1..] == a[1..] + b;
      ScanAppend(a[1..], b);
    } else {
      var n := FrameEnd(a);
      assert (a + b)[n..] == a[n..] + b && (a + b)[4..n] == a[4..n];
      ScanAppend(a[n..], b);
    }
  }

  /** One byte after a stable buffer decides at most one action: emit the completed frame or drop one byte. */
  lemma ScanOneByte(buf: Bytes, b: byte)
    requires Stable(buf)
    ensures var s := buf + [b];
            Scan(s) == if Stable(s) then Scanned([], s)
                       else if StartsFrame(s) then Scanned([s[4..]], [])
                       else Scanned([], s[1..])
  {
    var s := buf + [b];
    if !Stable(s) {
      if StartsFrame(s) {
        assert FrameEnd(s) == |s|;
        assert s[|s|..] == [] && s[4..|s|] == s[4..];
      } else {
        assert |s[1..]| == 3;
      }
    }
  }

  // ---------- round trip ----------

  ghost predicate AllShort(bodies: seq<Bytes>) {
    forall i | 0 <= i < |bodies| :: |bodies[i]| < 0x1_0000
  }

  lemma ScanOneFrame(body: Bytes, s: Bytes)
    requires |body| < 0x1_0000
    ensures Scan(Encode(body) + s) == Scanned([body] + Scan(s).frames, Scan(s).rest)
  {
    var t := Encode(body) + s;
    assert t[2] == Encode(body)[2] == ToBe16(|body|)[0] && t[3] == Encode(body)[3] == ToBe16(|body|)[1];
    assert FrameEnd(t) == 4 + |body|;
    assert t[4..4 + |body|] == body && t[4 + |body|..] == s;
  }

  lemma {:induction false} ScanEncoded(bodies: seq<Bytes>)
    requires AllShort(bodies)
    ensures Scan(EncodeAll(bodies)) == Scanned(bodies, [])
  {
    if bodies != [] {
      ScanOneFrame(bodies[0], EncodeAll(bodies[1..]));
      ScanEncoded(bodies[1..]);
      assert bodies == [bodies[0]] + bodies[1..];
    }
  }

  /** A frame survives the round trip exactly when its length fits the 16-bit field. */
  lemma RoundTripIff(body: Bytes)
    ensures Scan(Encode(body)) == Scanned([body], []) <==> |body| < 0x1_0000
  {
    if |body| < 0x1_0000 {
      ScanOneFrame(body, []);
      assert Encode(body) + [] == Encode(body);
    } else {
      var t := Encode(body);
      assert FrameEnd(t) == 4 + |body| % 0x1_0000;
      assert |Scan(t).frames[0]| == |body| % 0x1_0000;
    }
  }

  ghost predicate NoMagic(g: Bytes) {
    forall i | 0 <= i < |g| - 1 :: !(g[i] == MAGIC0 && g[i + 1] == MAGIC1)
  }

  /**
   * Leading noise without an adjacent magic pair is skipped, byte by byte, even when it ends in the first magic
   * byte.
   */
  lemma {:induction false} ScanAfterNoise(g: Bytes, bodies: seq<Bytes>)
    requires NoMagic(g) && AllShort(bodies) && bodies != []
    ensures Scan(g + EncodeAll(bodies)) == Scanned(bodies, [])
  {
    var e := EncodeAll(bodies);
    ScanEncoded(bodies);
    if g == [] {
      assert g + e == e;
    } else {
      assert e[0] == MAGIC0;
      assert !StartsFrame(g + e) by {
        if |g| > 1 {
          assert (g + e)[0] == g[0] && (g + e)[1] == g[1];
        } else {
          assert (g + e)[1] == e[0];
        }
      }
      assert (g + e)[1..] == g[1..] + e;
      ScanAfterNoise(g[1..], bodies);
    }
  }

  lemma {:induction false} ScanNothing(s: Bytes)
    ensures Scan(s) == Scanned([], []) <==> s == []
  {
    if |s| >= 4 && !StartsFrame(s) {
      ScanNothing(s[1..]);
      assert |s[1..]| >= 3;
    }
  }

  /** A frame is found behind noise, with nothing else and nothing left, exactly when the noise holds no magic pair. */
  lemma {:induction false} NoiseIff(g: Bytes, body: Bytes)
    requires |body| < 0x1_0000
    ensures Scan(g + Encode(body)) == Scanned([body], []) <==> NoMagic(g)
  {
    hide Encode;
    var s := g + Encode(body);
    if NoMagic(g) {
      ScanAfterNoise(g, [body]);
      OneEncoded(body);
    } else if StartsFrame(s) {
      if |s| >= FrameEnd(s) {
        var tail := Scan(s[FrameEnd(s)..]);
        ScanNothing(s[FrameEnd(s)..]);
        assert Scan(s).frames[1..] == tail.frames && |Scan(s).frames[0]| == FrameEnd(s) - 4;
        assert Scan(s).frames == [body] ==> tail.frames == [] && |body| == FrameEnd(s) - 4;
      }
    } else {
      assert g[1..] + Encode(body) == s[1..];
      MagicLater(g);
      NoiseIff(g[1..], body);
    }
  }

  lemma OneEncoded(body: Bytes)
    ensures EncodeAll([body]) == Encode(body)
  {
    hide Encode;
    assert [body][1..] == [];
  }

  lemma MagicLater(g: Bytes)
    requires !NoMagic(g) && !(g[0] == MAGIC0 && g[1] == MAGIC1)
    ensures !NoMagic(g[1..])
  {
    var i :| 0 <= i < |g| - 1 && g[i] == MAGIC0 && g[i + 1] == MAGIC1;
    var h := g[1..];
    assert h[i - 1] == MAGIC0 && h[i - 1 + 1] == MAGIC1;
  }

  // ---------- on the wire ----------

  lemma LowSixteen(n: nat)
    ensures n % 0x1_0000 / 256 == n / 256 % 256 && n % 0x1_0000 % 256 == n % 256
  {
    var q, r := n / 0x1_0000, n % 0x1_0000;
    assert n == 256 * (256 * q + r / 256) + r % 256;
  }

  /** What a packet is, byte for byte: the length goes high byte first, and only its low 16 bits. */
  lemma PacketBytes(body: Bytes)
    ensures Encode(body) == [0xDE, 0xAD, |body| / 256 % 256, |body| % 256] + body
  {
    LowSixteen(|body|);
  }

  lemma PacketOfLength(hi: byte, lo: byte, body: Bytes)
    requires |body| == 256 * hi + lo
    ensures Encode(body) == [0xDE, 0xAD, hi, lo] + body
  {
    hide Encode;
    PacketBytes(body);
  }

  /** A frame written so by anybody is found, behind noise exactly when the noise holds no DE AD pair. */
  lemma WireFrameIff(g: Bytes, hi: byte, lo: byte, body: Bytes)
    requires |body| == 256 * hi + lo
    ensures Scan([0xDE, 0xAD, hi, lo] + body) == Scanned([body], [])
    ensures Scan(g + ([0xDE, 0xAD, hi, lo] + body)) == Scanned([body], [])
            <==> forall i | 0 <= i < |g| - 1 :: !(g[i] == 0xDE && g[i + 1] == 0xAD)
  {
    hide Encode, Scan;
    PacketOfLength(hi, lo, body);
    NoiseIff([], body);
    NoiseIff(g, body);
    assert [] + Encode(body) == Encode(body);
  }

  /** Noise with a magic pair can swallow every frame up to its length. */
  lemma MagicNoiseSwallows(body: Bytes)
    requires |body| < 0xFFFF - 4
    ensures Scan([MAGIC0, MAGIC1, 0xFF, 0xFF] + Encode(body)).frames == []
  {
    var s := [MAGIC0, MAGIC1, 0xFF, 0xFF] + Encode(body);
    assert FrameEnd(s) == 4 + 0xFFFF;
  }
}
