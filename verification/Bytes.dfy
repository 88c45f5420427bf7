/** Bytes, and writing a run of bytes into a buffer at an offset. */
module Bytes {

  type byte = x: int | 0 <= x < 256

  const TWO_31: int := 0x8000_0000
  const TWO_32: int := 0x1_0000_0000
  const TWO_63: int := 0x8000_0000_0000_0000
  const TWO_64: int := 0x1_0000_0000_0000_0000
  const INT_MAX: int := 0x7FFF_FFFF

  /** The buffer `buf` after the bytes `s` have been written at offset `at`. */
  ghost function Splice(buf: seq<byte>, at: nat, s: seq<byte>): (r: seq<byte>)
    requires at + |s| <= |buf|
    ensures |r| == |buf|
  {
    buf[..at] + s + buf[at + |s|..]
  }

  /** Two adjacent writes are one write of the concatenation. */
  lemma SpliceAppend(buf: seq<byte>, at: nat, s: seq<byte>, t: seq<byte>)
    requires at + |s| + |t| <= |buf|
    ensures Splice(Splice(buf, at, s), at + |s|, t) == Splice(buf, at, s + t)
  {
    var one := Splice(buf, at, s);
    assert one[..at + |s|] == buf[..at] + s;
    assert one[at + |s| + |t|..] == buf[at + |s| + |t|..];
  }

  lemma SpliceEmpty(buf: seq<byte>, at: nat)
    requires at <= |buf|
    ensures Splice(buf, at, []) == buf
  {
  }

  /** Writing over the whole buffer. */
  lemma SpliceWhole(buf: seq<byte>, s: seq<byte>)
    requires |buf| == |s|
    ensures Splice(buf, 0, s) == s
  {
  }
}
