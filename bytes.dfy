/**
 * Bytes, 32-bit unsigned integers and their little-endian form, and the
 * chaining of byte buffers one after another (an IOBuf chain read front to
 * back is the concatenation of its buffers).
 */
module Bytes {

  newtype uint8 = x: int | 0 <= x < 0x100
  newtype uint32 = x: int | 0 <= x < 0x1_0000_0000

  const Two32: int := 0x1_0000_0000

  /** sizeof(std::uint32_t) */
  const Uint32Size: nat := 4

  /**
   * Writing a size_t length through writer.write<std::uint32_t> keeps its
   * low 32 bits.
   */
  function Truncate32(n: nat): (r: uint32)
    ensures n < Two32 ==> r as int == n
    ensures (n - r as int) % Two32 == 0
  {
    (n % Two32) as uint32
  }

  /**
   * The four bytes of n, least significant first (folly::Endian::little
   * followed by a 32-bit store): they are n's base-256 digits.
   */
  function LE32(n: uint32): (b: seq<uint8>)
    ensures |b| == Uint32Size
    ensures n as int == b[0] as int + 0x100 * b[1] as int + 0x1_0000 * b[2] as int + 0x100_0000 * b[3] as int
  {
    var v := n as int;
    var q1 := v / 0x100;
    var q2 := q1 / 0x100;
    var q3 := q2 / 0x100;
    assert q2 == q2 % 0x100 + 0x100 * q3;
    assert q1 == q1 % 0x100 + 0x100 * q2;
    assert v == v % 0x100 + 0x100 * q1;
    [(v % 0x100) as uint8, (q1 % 0x100) as uint8, (q2 % 0x100) as uint8, q3 as uint8]
  }

  /** Reads four bytes, least significant first. */
  function DecodeLE32(b: seq<uint8>): (n: uint32)
    requires |b| == Uint32Size
  {
    (b[0] as int + 0x100 * (b[1] as int + 0x100 * (b[2] as int + 0x100 * b[3] as int))) as uint32
  }

  lemma Base256(lo: int, hi: int)
    requires 0 <= lo < 0x100
    ensures (lo + 0x100 * hi) % 0x100 == lo
    ensures (lo + 0x100 * hi) / 0x100 == hi
  {
  }

  /** Decoding the little-endian form of n gives n back. */
  lemma DecodeLE32OfLE32(n: uint32)
    ensures DecodeLE32(LE32(n)) == n
  {
    var v := n as int;
    var q1 := v / 0x100;
    var q2 := q1 / 0x100;
    var q3 := q2 / 0x100;
    assert q2 == q2 % 0x100 + 0x100 * q3;
    assert q1 == q1 % 0x100 + 0x100 * q2;
    assert v == v % 0x100 + 0x100 * q1;
  }

  /** Every four bytes are the little-endian form of the value they decode to. */
  lemma LE32OfDecodeLE32(b: seq<uint8>)
    requires |b| == Uint32Size
    ensures LE32(DecodeLE32(b)) == b
  {
    var r2 := b[2] as int + 0x100 * b[3] as int;
    var r1 := b[1] as int + 0x100 * r2;
    var v := b[0] as int + 0x100 * r1;
    Base256(b[0] as int, r1);
    Base256(b[1] as int, r2);
    Base256(b[2] as int, b[3] as int);
    assert DecodeLE32(b) as int == v;
  }

  /** The buffers of a chain, read one after another. */
  function Concat(ss: seq<seq<uint8>>): seq<uint8>
  {
    if ss == [] then [] else ss[0] + Concat(ss[1..])
  }

  /** The sum of the buffers' lengths. */
  function TotalLength(ss: seq<seq<uint8>>): nat
  {
    if ss == [] then 0 else |ss[0]| + TotalLength(ss[1..])
  }

  lemma {:induction false} ConcatLength(ss: seq<seq<uint8>>)
    ensures |Concat(ss)| == TotalLength(ss)
  {
    if ss != [] {
      ConcatLength(ss[1..]);
    }
  }

  lemma {:induction false} ConcatAppend(ss: seq<seq<uint8>>, tt: seq<seq<uint8>>)
    ensures Concat(ss + tt) == Concat(ss) + Concat(tt)
  {
    if ss == [] {
      assert ss + tt == tt;
    } else {
      assert (ss + tt)[1..] == ss[1..] + tt;
      ConcatAppend(ss[1..], tt);
    }
  }

  lemma ConcatSnoc(init: seq<seq<uint8>>, x: seq<uint8>)
    ensures Concat(init + [x]) == Concat(init) + x
  {
    ConcatAppend(init, [x]);
    assert Concat([x]) == x + Concat([]);
  }

  /**
   * Buffer i of a chain sits in the chain's bytes right after the buffers
   * before it.
   */
  lemma {:induction false} ConcatAt(ss: seq<seq<uint8>>, i: nat)
    requires i < |ss|
    ensures TotalLength(ss[..i]) + |ss[i]| <= |Concat(ss)|
    ensures Concat(ss)[TotalLength(ss[..i]) .. TotalLength(ss[..i]) + |ss[i]|] == ss[i]
  {
    ConcatLength(ss);
    ConcatLength(ss[..i]);
    assert ss == ss[..i] + [ss[i]] + ss[i + 1..];
    ConcatAppend(ss[..i] + [ss[i]], ss[i + 1..]);
    ConcatAppend(ss[..i], [ss[i]]);
    assert Concat([ss[i]]) == ss[i] + Concat([]);
  }
}
