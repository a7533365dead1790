/** Bytes and the fixed-width integers packed into them. */
module Bytes {

  type byte = x: int | 0 <= x < 256

  type Bytes = seq<byte>

  /** A 6-byte MAC address; the node identifier on this network. */
  type Mac = m: Bytes | |m| == 6 witness [0, 0, 0, 0, 0, 0]

  function Be16(hi: byte, lo: byte): (n: nat)
    ensures n < 0x1_0000
  {
    hi * 256 + lo
  }

  /** The big-endian bytes of `n as u16`. */
  function ToBe16(n: nat): (b: Bytes)
    ensures |b| == 2 && Be16(b[0], b[1]) == n % 0x1_0000
  {
    var low := n % 0x1_0000;
    [low / 256, low % 256]
  }

  type U16 = n: int | 0 <= n < 0x1_0000

  type U32 = n: int | 0 <= n < 0x1_0000_0000

  type U64 = n: int | 0 <= n < 0x1_0000_0000_0000_0000

  /** How many values `w` bytes hold. */
  function Pow256(w: nat): (p: nat)
    ensures p >= 1
  {
    if w == 0 then 1 else 256 * Pow256(w - 1)
  }

  lemma Widths()
    ensures Pow256(2) == 0x1_0000 && Pow256(4) == 0x1_0000_0000 && Pow256(8) == 0x1_0000_0000_0000_0000
  {}

  function LittleEndian(b: Bytes): (n: nat)
    ensures n < Pow256(|b|)
  {
    if b == [] then 0 else b[0] + 256 * LittleEndian(b[1..])
  }

  /** The low `w` bytes of `n`, lowest first. */
  function ToLittleEndian(n: nat, w: nat): (b: Bytes)
    ensures |b| == w
    ensures n < Pow256(w) ==> LittleEndian(b) == n
  {
    if w == 0 then [] else [n % 256] + ToLittleEndian(n / 256, w - 1)
  }

  function Le16(b: Bytes, at: nat): U16
    requires at + 2 <= |b|
  {
    Widths();
    LittleEndian(b[at..at + 2])
  }

  function Le32(b: Bytes, at: nat): U32
    requires at + 4 <= |b|
  {
    Widths();
    LittleEndian(b[at..at + 4])
  }

  function Le64(b: Bytes, at: nat): U64
    requires at + 8 <= |b|
  {
    Widths();
    LittleEndian(b[at..at + 8])
  }

  /** A packed number reads back from wherever its bytes lie. */
  lemma ReadsBack(a: Bytes, n: nat, w: nat, c: Bytes)
    requires n < Pow256(w)
    ensures var b := a + ToLittleEndian(n, w) + c; LittleEndian(b[|a|..|a| + w]) == n
  {
    var b := a + ToLittleEndian(n, w) + c;
    assert b[|a|..|a| + w] == ToLittleEndian(n, w);
  }

  /** Packed numbers byte by byte, the lowest first. */
  lemma LowestFirst(b: Bytes, at: nat)
    ensures at + 2 <= |b| ==> Le16(b, at) == b[at] as int + 0x100 * b[at + 1] as int
    ensures at + 4 <= |b| ==>
              Le32(b, at)
              == b[at] as int + 0x100 * b[at + 1] as int + 0x1_0000 * b[at + 2] as int + 0x100_0000 * b[at + 3] as int
    ensures at + 8 <= |b| ==> Le64(b, at) == Le32(b, at) + 0x1_0000_0000 * Le32(b, at + 4)
  {
    if at + 2 <= |b| {
      TwoBytes(b[at..at + 2]);
    }
    if at + 4 <= |b| {
      FourBytes(b[at..at + 4]);
    }
    if at + 8 <= |b| {
      EightBytes(b[at..at + 8]);
      assert b[at..at + 8][..4] == b[at..at + 4] && b[at..at + 8][4..] == b[at + 4..at + 8];
    }
  }

  lemma TwoBytes(b: Bytes)
    requires |b| == 2
    ensures LittleEndian(b) == b[0] as int + 0x100 * b[1] as int
  {
    assert b[1..][1..] == [];
  }

  lemma FourBytes(b: Bytes)
    requires |b| == 4
    ensures LittleEndian(b) == b[0] as int + 0x100 * b[1] as int + 0x1_0000 * b[2] as int + 0x100_0000 * b[3] as int
  {
    assert b[2..] == b[1..][1..];
    TwoBytes(b[2..]);
  }

  lemma EightBytes(b: Bytes)
    requires |b| == 8
    ensures LittleEndian(b) == LittleEndian(b[..4]) + 0x1_0000_0000 * LittleEndian(b[4..])
  {
    FourBytes(b[..4]);
    assert b[1..][1..] == b[2..] && b[2..][1..] == b[3..] && b[3..][1..] == b[4..];
    assert LittleEndian(b) == b[0] + 0x100 * LittleEndian(b[1..]);
    assert LittleEndian(b[1..]) == b[1] + 0x100 * LittleEndian(b[2..]);
    assert LittleEndian(b[2..]) == b[2] + 0x100 * LittleEndian(b[3..]);
    assert LittleEndian(b[3..]) == b[3] + 0x100 * LittleEndian(b[4..]);
  }

  lemma WrittenLowestFirst(n: nat)
    ensures ToLittleEndian(n, 2) == [n % 0x100, n / 0x100 % 0x100]
    ensures ToLittleEndian(n, 4) == [n % 0x100, n / 0x100 % 0x100, n / 0x1_0000 % 0x100, n / 0x100_0000 % 0x100]
  {
    var a, b, c := n / 0x100, n / 0x1_0000, n / 0x100_0000;
    assert a / 0x100 == b && b / 0x100 == c;
    assert ToLittleEndian(n, 4) == [n % 0x100] + ToLittleEndian(a, 3);
    assert ToLittleEndian(a, 3) == [a % 0x100] + ToLittleEndian(b, 2);
    assert ToLittleEndian(b, 2) == [b % 0x100] + ToLittleEndian(c, 1);
    assert ToLittleEndian(c, 1) == [c % 0x100] + ToLittleEndian(c / 0x100, 0);
    assert ToLittleEndian(n, 2) == [n % 0x100] + ToLittleEndian(a, 1);
    assert ToLittleEndian(a, 1) == [a % 0x100] + ToLittleEndian(b, 0);
  }
}
