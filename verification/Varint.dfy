/**
 Scalar encodings of the Protocol Buffers wire format: base 128 varints, ZigZag,
 little-endian fixed-width integers and field tags.

 `Encode` and `Number` are the reference definitions ("Base 128 Varints" in the Protocol
 Buffers Encoding specification). Bit operations of the C code are written as arithmetic:
 `x | 0x80` on the low seven bits is `x % 128 + 128`, `x >> k` is division by 2^k.
 */
module Varint {
  import opened Bytes

  /** The minimal base 128 varint of a number: seven bits a byte, low group first. */
  function Encode(v: nat): (s: seq<byte>)
    ensures |s| >= 1
  {
    if v < 128 then [v] else [v % 128 + 128] + Encode(v / 128)
  }

  /** The value bits of one byte of a varint. */
  function Low7(b: byte): nat {
    b % 128
  }

  /** The number a varint stands for: the low seven bits of each byte, low group first. */
  function Number(s: seq<byte>): nat {
    if s == [] then 0 else Low7(s[0]) + 128 * Number(s[1..])
  }

  /** Continuation bits: set on every byte but the last. */
  ghost predicate IsVarint(s: seq<byte>) {
    |s| >= 1 && s[|s| - 1] < 128 && forall i :: 0 <= i < |s| - 1 ==> s[i] >= 128
  }

  lemma {:induction false} EncodeIsVarint(v: nat)
    ensures IsVarint(Encode(v))
  {
    if v >= 128 {
      EncodeIsVarint(v / 128);
      var tail := Encode(v / 128);
      var s := Encode(v);
      assert forall i :: 1 <= i < |s| ==> s[i] == tail[i - 1];
    }
  }

  lemma {:induction false} NumberOfEncode(v: nat)
    ensures Number(Encode(v)) == v
  {
    if v >= 128 {
      NumberOfEncode(v / 128);
      assert Encode(v)[1..] == Encode(v / 128);
    }
  }

  // ----- sizes -----

  function Uint32Size(v: nat): nat {
    if v < 0x80 then 1
    else if v < 0x4000 then 2
    else if v < 0x20_0000 then 3
    else if v < 0x1000_0000 then 4
    else 5
  }

  function Int32Size(v: int): nat {
    if v < 0 then 10 else Uint32Size(v)
  }

  function Uint64Size(v: nat): nat {
    var upper := v / TWO_32;
    if upper == 0 then Uint32Size(v)
    else if upper < 0x8 then 5
    else if upper < 0x400 then 6
    else if upper < 0x2_0000 then 7
    else if upper < 0x100_0000 then 8
    else if upper < 0x8000_0000 then 9
    else 10
  }

  function TagSize(number: nat): nat {
    if number < 0x10 then 1
    else if number < 0x800 then 2
    else if number < 0x4_0000 then 3
    else if number < 0x200_0000 then 4
    else 5
  }

  lemma EncodeSmall(v: nat)
    requires v < 0x8_0000_0000
    ensures |Encode(v)| == if v < 0x80 then 1 else if v < 0x4000 then 2 else if v < 0x20_0000 then 3
                           else if v < 0x1000_0000 then 4 else 5
  {
    if v >= 128 {
      var a := v / 128;
      if a >= 128 {
        var b := a / 128;
        if b >= 128 {
          var c := b / 128;
          if c >= 128 {
            assert |Encode(c / 128)| == 1;
          }
          assert |Encode(b)| == 1 + |Encode(c)|;
        }
        assert |Encode(a)| == 1 + |Encode(b)|;
      }
      assert |Encode(v)| == 1 + |Encode(a)|;
    }
  }

  /** `uint32_size` is the length of the varint. */
  lemma Uint32SizeExact(v: nat)
    requires v < TWO_32
    ensures |Encode(v)| == Uint32Size(v)
  {
    EncodeSmall(v);
  }

  lemma EncodeShift28(v: nat)
    requires v >= 0x1000_0000
    ensures |Encode(v)| == 4 + |Encode(v / 0x1000_0000)|
  {
    var a := v / 128;
    var b := a / 128;
    var c := b / 128;
    assert a >= 0x20_0000 && b >= 0x4000 && c >= 128;
    assert c / 128 == v / 0x1000_0000;
    assert |Encode(v)| == 1 + |Encode(a)|;
    assert |Encode(a)| == 1 + |Encode(b)|;
    assert |Encode(b)| == 1 + |Encode(c)|;
    assert |Encode(c)| == 1 + |Encode(c / 128)|;
  }

  /** `uint64_size` is the length of the varint. */
  lemma Uint64SizeExact(v: nat)
    requires v < TWO_64
    ensures |Encode(v)| == Uint64Size(v)
  {
    if v / TWO_32 == 0 {
      Uint32SizeExact(v);
    } else {
      EncodeShift28(v);
      var w := v / 0x1000_0000;
      assert w / 16 == v / TWO_32;
      if w < 0x1000_0000 {
        EncodeSmall(w);
      } else {
        EncodeShift28(w);
        EncodeSmall(w / 0x1000_0000);
      }
    }
  }

  // ----- two's complement and ZigZag -----

  /** The 64-bit two's complement image of an integer, as a negative int32 is put on the wire. */
  function Unsigned64(v: int): nat
    requires -TWO_63 <= v < TWO_64
  {
    if v < 0 then v + TWO_64 else v
  }

  function ToSigned32(u: nat): int
    requires u < TWO_32
  {
    if u < TWO_31 then u else u - TWO_32
  }

  function ToSigned64(u: nat): int
    requires u < TWO_64
  {
    if u < TWO_63 then u else u - TWO_64
  }

  /** `(v << 1) ^ (v >> 31)`: the exclusive or with an all-ones word is the complement. */
  function ZigZag32(v: int): (u: nat)
    requires -TWO_31 <= v < TWO_31
    ensures u < TWO_32
  {
    var shifted := 2 * (v % TWO_32) % TWO_32;
    if v < 0 then TWO_32 - 1 - shifted else shifted
  }

  function ZigZag64(v: int): (u: nat)
    requires -TWO_63 <= v < TWO_63
    ensures u < TWO_64
  {
    var shifted := 2 * (v % TWO_64) % TWO_64;
    if v < 0 then TWO_64 - 1 - shifted else shifted
  }

  /** `(v >> 1) ^ (~(v & 1) + 1)`: the mask is zero or all ones. */
  function UnZigZag32(u: nat): int
    requires u < TWO_32
  {
    var half := u / 2;
    ToSigned32(if u % 2 == 0 then half else TWO_32 - 1 - half)
  }

  function UnZigZag64(u: nat): int
    requires u < TWO_64
  {
    var half := u / 2;
    ToSigned64(if u % 2 == 0 then half else TWO_64 - 1 - half)
  }

  /** ZigZag maps 0, -1, 1, -2, ... to 0, 1, 2, 3, ... and is undone exactly. */
  lemma ZigZagInverse32(v: int)
    requires -TWO_31 <= v < TWO_31
    ensures UnZigZag32(ZigZag32(v)) == v
    ensures ZigZag32(v) == if v >= 0 then 2 * v else -2 * v - 1
  {
    if v < 0 {
      assert v % TWO_32 == v + TWO_32;
      assert 2 * (v + TWO_32) == TWO_32 + (2 * v + TWO_32);
    }
  }

  lemma ZigZagInverse64(v: int)
    requires -TWO_63 <= v < TWO_63
    ensures UnZigZag64(ZigZag64(v)) == v
    ensures ZigZag64(v) == if v >= 0 then 2 * v else -2 * v - 1
  {
    if v < 0 {
      assert v % TWO_64 == v + TWO_64;
      assert 2 * (v + TWO_64) == TWO_64 + (2 * v + TWO_64);
    }
  }

  // ----- packing into a buffer -----

  /** Stores one byte of a run that starts at `at`; `done` is what the run holds so far. */
  method PutByte(b: byte, out: array<byte>, at: nat, rv: nat, ghost base: seq<byte>, ghost done: seq<byte>)
    requires |base| == out.Length && rv == |done| && at + rv < out.Length
    requires out[..] == Splice(base, at, done)
    modifies out
    ensures out[..] == Splice(base, at, done + [b])
  {
    out[at + rv] := b;
  }

  lemma EncodeStep(done: seq<byte>, v: nat)
    requires v >= 128
    ensures done + Encode(v) == (done + [v % 128 + 128]) + Encode(v / 128)
  {
  }

  /** One continuation byte, `out[rv++] = value | 0x80; value >>= 7`. */
  method PutLow(value: nat, out: array<byte>, at: nat, rv: nat, ghost base: seq<byte>, ghost done: seq<byte>)
    returns (rest: nat, rv': nat, ghost done': seq<byte>)
    requires value >= 128
    requires |base| == out.Length && rv == |done| && at + rv + |Encode(value)| <= out.Length
    requires out[..] == Splice(base, at, done)
    modifies out
    ensures rest == value / 128 && rv' == rv + 1 == |done'|
    ensures done' + Encode(rest) == done + Encode(value)
    ensures out[..] == Splice(base, at, done')
  {
    PutByte(value % 128 + 128, out, at, rv, base, done);
    EncodeStep(done, value);
    rest, rv', done' := value / 128, rv + 1, done + [value % 128 + 128];
  }

  method PackUint32(v: nat, out: array<byte>, at: nat) returns (rv: nat)
    requires v < TWO_32
    requires at + |Encode(v)| <= out.Length
    modifies out
    ensures rv == |Encode(v)|
    ensures out[..] == Splice(old(out[..]), at, Encode(v))
  {
    hide Splice;
    ghost var base := out[..];
    ghost var done: seq<byte> := [];
    SpliceEmpty(base, at);
    Uint32SizeExact(v);
    assert done + Encode(v) == Encode(v);
    var value := v;
    rv := 0;
    if value >= 0x80 {
      value, rv, done := PutLow(value, out, at, rv, base, done);
      if value >= 0x80 {
        value, rv, done := PutLow(value, out, at, rv, base, done);
        if value >= 0x80 {
          value, rv, done := PutLow(value, out, at, rv, base, done);
          if value >= 0x80 {
            value, rv, done := PutLow(value, out, at, rv, base, done);
          }
        }
      }
    }
    assert value < 128;
    PutByte(value, out, at, rv, base, done);
    rv := rv + 1;
  }

  /** The ten bytes of a negative int32: its low five groups, then the sign extension. */
  lemma NegativeDigits(v: int)
    requires -TWO_31 <= v < 0
    ensures Encode(Unsigned64(v)) ==
            [v % 128 + 128, v / 0x80 % 128 + 128, v / 0x4000 % 128 + 128, v / 0x20_0000 % 128 + 128,
             v / 0x1000_0000 % 128 + 128, 0xff, 0xff, 0xff, 0xff, 0x01]
  {
    var u1 := v / 0x80 + 0x200_0000_0000_0000;
    var u2 := v / 0x4000 + 0x4_0000_0000_0000;
    var u3 := v / 0x20_0000 + 0x800_0000_0000;
    var u4 := v / 0x1000_0000 + 0x10_0000_0000;
    hide Encode, Unsigned64;
    NegativeGroups(v);
    SignExtension();
    EncodeFive(Unsigned64(v), u1, u2, u3, u4);
  }

  lemma EncodeFive(a: nat, b: nat, c: nat, d: nat, e: nat)
    requires a >= 128 && a / 128 == b >= 128 && b / 128 == c >= 128 && c / 128 == d >= 128 && d / 128 == e >= 128
    ensures Encode(a) == [a % 128 + 128, b % 128 + 128, c % 128 + 128, d % 128 + 128, e % 128 + 128] + Encode(e / 128)
  {
    hide Encode;
    EncodeMore(a);
    EncodeMore(b);
    EncodeMore(c);
    EncodeMore(d);
    EncodeMore(e);
  }

  lemma EncodeMore(v: nat)
    requires v >= 128
    ensures Encode(v) == [v % 128 + 128] + Encode(v / 128)
  {
  }

  lemma SignExtension()
    ensures Encode(0x1FFF_FFFF) == [0xff, 0xff, 0xff, 0xff, 0x01]
  {
    assert Encode(0x1) == [0x01];
    assert Encode(0xFF) == [0xff] + Encode(0x1);
    assert Encode(0x7FFF) == [0xff] + Encode(0xFF);
    assert Encode(0x3F_FFFF) == [0xff] + Encode(0x7FFF);
  }

  /** The group that is read off behind `m` further ones is not changed by them. */
  lemma GroupBelow(q: int, m: int)
    ensures (q + 128 * m) % 128 == q % 128 && (q + 128 * m) / 128 == q / 128 + m
  {
  }

  lemma GroupsOf(v: int)
    ensures v / 0x80 / 0x80 == v / 0x4000
    ensures v / 0x4000 / 0x80 == v / 0x20_0000
    ensures v / 0x20_0000 / 0x80 == v / 0x1000_0000
  {
  }

  lemma TopGroup(v: int)
    requires -TWO_31 <= v < 0
    ensures v / 0x1000_0000 / 0x80 == -1
    ensures v / 0x80 >= -0x100_0000 && v / 0x4000 >= -0x2_0000 && v / 0x20_0000 >= -0x400 && v / 0x1000_0000 >= -8
  {
  }

  lemma NegativeGroups(v: int)
    requires -TWO_31 <= v < 0
    ensures Unsigned64(v) % 128 == v % 128 && Unsigned64(v) / 128 == v / 0x80 + 0x200_0000_0000_0000
    ensures var u1 := v / 0x80 + 0x200_0000_0000_0000;
            u1 >= 128 && u1 % 128 == v / 0x80 % 128 && u1 / 128 == v / 0x4000 + 0x4_0000_0000_0000
    ensures var u2 := v / 0x4000 + 0x4_0000_0000_0000;
            u2 >= 128 && u2 % 128 == v / 0x4000 % 128 && u2 / 128 == v / 0x20_0000 + 0x800_0000_0000
    ensures var u3 := v / 0x20_0000 + 0x800_0000_0000;
            u3 >= 128 && u3 % 128 == v / 0x20_0000 % 128 && u3 / 128 == v / 0x1000_0000 + 0x10_0000_0000
    ensures var u4 := v / 0x1000_0000 + 0x10_0000_0000;
            u4 >= 128 && u4 % 128 == v / 0x1000_0000 % 128 && u4 / 128 == 0x1FFF_FFFF
  {
    GroupsOf(v);
    TopGroup(v);
    GroupBelow(v, 0x200_0000_0000_0000);
    GroupBelow(v / 0x80, 0x4_0000_0000_0000);
    GroupBelow(v / 0x4000, 0x800_0000_0000);
    GroupBelow(v / 0x20_0000, 0x10_0000_0000);
    GroupBelow(v / 0x1000_0000, 0x2000_0000);
  }

  method PackInt32(v: int, out: array<byte>, at: nat) returns (rv: nat)
    requires -TWO_31 <= v < TWO_31
    requires at + |Encode(Unsigned64(v))| <= out.Length
    modifies out
    ensures rv == |Encode(Unsigned64(v))|
    ensures out[..] == Splice(old(out[..]), at, Encode(Unsigned64(v)))
  {
    if v < 0 {
      NegativeDigits(v);
      out[at] := v % 128 + 128;
      out[at + 1] := v / 0x80 % 128 + 128;
      out[at + 2] := v / 0x4000 % 128 + 128;
      out[at + 3] := v / 0x20_0000 % 128 + 128;
      out[at + 4] := v / 0x1000_0000 % 128 + 128;
      out[at + 5], out[at + 6], out[at + 7], out[at + 8] := 0xff, 0xff, 0xff, 0xff;
      out[at + 9] := 0x01;
      rv := 10;
    } else {
      rv := PackUint32(v, out, at);
    }
  }

  lemma EncodeFour(v: nat)
    requires v >= 0x1000_0000
    ensures Encode(v) == [v % 128 + 128, v / 0x80 % 128 + 128, v / 0x4000 % 128 + 128,
                          v / 0x20_0000 % 128 + 128] + Encode(v / 0x1000_0000)
  {
    hide Encode;
    var a, b, c := v / 0x80, v / 0x4000, v / 0x20_0000;
    Quotients(v);
    EncodeMore(c);
    EncodeMore(b);
    EncodeMore(a);
    EncodeMore(v);
  }

  lemma Quotients(v: nat)
    ensures v / 0x80 / 128 == v / 0x4000 && v / 0x4000 / 128 == v / 0x20_0000
    ensures v / 0x20_0000 / 128 == v / 0x1000_0000
    ensures v >= 0x1000_0000 ==> v / 0x20_0000 >= 128
  {
  }

  lemma LowGroups(v: nat, hi: nat, lo: nat)
    requires lo < TWO_32 && v == hi * TWO_32 + lo
    ensures v % 128 == lo % 128 && v / 0x80 % 128 == lo / 0x80 % 128
  {
    assert v / 0x80 == hi * 0x200_0000 + lo / 0x80;
  }

  lemma ThirdGroup(v: nat, hi: nat, lo: nat)
    requires lo < TWO_32 && v == hi * TWO_32 + lo
    ensures v / 0x4000 % 128 == lo / 0x4000 % 128
  {
    assert v / 0x4000 == hi * 0x4_0000 + lo / 0x4000;
  }

  lemma FourthGroup(v: nat, hi: nat, lo: nat)
    requires lo < TWO_32 && v == hi * TWO_32 + lo
    ensures v / 0x20_0000 % 128 == lo / 0x20_0000 % 128
  {
    var q := lo / 0x20_0000;
    assert v / 0x20_0000 == hi * 0x800 + q;
    assert hi * 0x800 + q == 128 * (16 * hi) + q;
  }

  /** The group that straddles the two 32-bit halves. */
  lemma FifthGroup(v: nat, hi: nat, lo: nat)
    requires lo < TWO_32 && v == hi * TWO_32 + lo
    ensures v / 0x1000_0000 == hi * 16 + lo / 0x1000_0000
    ensures hi < 8 ==> hi * 16 + lo / 0x1000_0000 < 128
    ensures (hi % 8) * 16 + lo / 0x1000_0000 < 128
    ensures v / 0x1000_0000 % 128 == (hi % 8) * 16 + lo / 0x1000_0000
    ensures v / 0x1000_0000 / 128 == hi / 8
  {
    var q := lo / 0x1000_0000;
    assert q < 16;
    assert v / 0x1000_0000 == hi * 16 + q;
    assert hi * 16 + q == 128 * (hi / 8) + ((hi % 8) * 16 + q);
  }

  method PutFour(b0: byte, b1: byte, b2: byte, b3: byte, out: array<byte>, at: nat)
    requires at + 4 <= out.Length
    modifies out
    ensures out[..] == Splice(old(out[..]), at, [b0, b1, b2, b3])
  {
    out[at], out[at + 1], out[at + 2], out[at + 3] := b0, b1, b2, b3;
  }

  method PackUint64(v: nat, out: array<byte>, at: nat) returns (rv: nat)
    requires v < TWO_64
    requires at + |Encode(v)| <= out.Length
    modifies out
    ensures rv == |Encode(v)|
    ensures out[..] == Splice(old(out[..]), at, Encode(v))
  {
    hide Splice;
    var hi, lo := v / TWO_32, v % TWO_32;
    if hi == 0 {
      rv := PackUint32(lo, out, at);
      return;
    }
    LowGroups(v, hi, lo);
    ThirdGroup(v, hi, lo);
    FourthGroup(v, hi, lo);
    FifthGroup(v, hi, lo);
    EncodeFour(v);
    ghost var base := out[..];
    PutFour(lo % 128 + 128, lo / 0x80 % 128 + 128, lo / 0x4000 % 128 + 128, lo / 0x20_0000 % 128 + 128, out, at);
    ghost var done: seq<byte> := [lo % 128 + 128, lo / 0x80 % 128 + 128, lo / 0x4000 % 128 + 128,
                                  lo / 0x20_0000 % 128 + 128];
    if hi < 8 {
      PutByte(hi * 16 + lo / 0x1000_0000, out, at, 4, base, done);
      return 5;
    }
    PutByte((hi % 8) * 16 + lo / 0x1000_0000 + 128, out, at, 4, base, done);
    EncodeStep(done, v / 0x1000_0000);
    done := done + [(hi % 8) * 16 + lo / 0x1000_0000 + 128];
    rv := PackHigh(hi / 8, v, out, at, base, done);
  }

  /** The closing loop of `uint64_pack`: what is left of the upper half, seven bits a byte. */
  method PackHigh(high: nat, ghost v: nat, out: array<byte>, at: nat, ghost base: seq<byte>, ghost soFar: seq<byte>)
    returns (rv: nat)
    requires |soFar| == 5 && soFar + Encode(high) == Encode(v)
    requires |base| == out.Length && at + |Encode(v)| <= out.Length
    requires out[..] == Splice(base, at, soFar)
    modifies out
    ensures rv == |Encode(v)|
    ensures out[..] == Splice(base, at, Encode(v))
  {
    hide Splice;
    var hi := high;
    ghost var done := soFar;
    rv := 5;
    while hi >= 128
      invariant rv == |done| && done + Encode(hi) == Encode(v)
      invariant out[..] == Splice(base, at, done)
    {
      hi, rv, done := PutLow(hi, out, at, rv, base, done);
    }
    PutByte(hi, out, at, rv, base, done);
    rv := rv + 1;
  }

  // ----- fixed width, booleans, byte runs -----

  /** The `n` low bytes of `v`, least significant first. */
  function LittleEndian(v: nat, n: nat): (s: seq<byte>)
    ensures |s| == n
  {
    if n == 0 then [] else [v % 256] + LittleEndian(v / 256, n - 1)
  }

  function FromLittleEndian(s: seq<byte>): nat {
    if s == [] then 0 else s[0] + 256 * FromLittleEndian(s[1..])
  }

  function Pow256(n: nat): nat {
    if n == 0 then 1 else 256 * Pow256(n - 1)
  }

  lemma {:induction false} LittleEndianInverse(v: nat, n: nat)
    requires v < Pow256(n)
    ensures FromLittleEndian(LittleEndian(v, n)) == v
  {
    if n > 0 {
      LittleEndianInverse(v / 256, n - 1);
      assert LittleEndian(v, n)[1..] == LittleEndian(v / 256, n - 1);
    }
  }

  lemma FixedInverse(v: nat)
    ensures v < TWO_32 ==> FromLittleEndian(LittleEndian(v, 4)) == v
    ensures v < TWO_64 ==> FromLittleEndian(LittleEndian(v, 8)) == v
  {
    assert Pow256(4) == TWO_32 && Pow256(8) == TWO_64 by {
      assert Pow256(2) == 0x1_0000;
      assert Pow256(4) == 256 * 256 * Pow256(2);
      assert Pow256(6) == 256 * 256 * Pow256(4);
      assert Pow256(8) == 256 * 256 * Pow256(6);
    }
    if v < TWO_32 { LittleEndianInverse(v, 4); }
    if v < TWO_64 { LittleEndianInverse(v, 8); }
  }

  lemma {:induction false} FromLittleEndianBound(s: seq<byte>)
    ensures FromLittleEndian(s) < Pow256(|s|)
  {
    if s != [] {
      FromLittleEndianBound(s[1..]);
    }
  }

  /** `memcpy`, also the little-endian stores of fixed-width values. */
  method PackBytes(s: seq<byte>, out: array<byte>, at: nat)
    requires at + |s| <= out.Length
    modifies out
    ensures out[..] == Splice(old(out[..]), at, s)
  {
    forall i | 0 <= i < |s| {
      out[at + i] := s[i];
    }
  }

  method PackFixed(v: nat, width: nat, out: array<byte>, at: nat) returns (rv: nat)
    requires at + width <= out.Length
    modifies out
    ensures rv == width
    ensures out[..] == Splice(old(out[..]), at, LittleEndian(v, width))
  {
    PackBytes(LittleEndian(v, width), out, at);
    rv := width;
  }

  // ----- tags -----

  /** A field number and its wire type, as the varint of `number << 3 | type`. */
  function Tag(id: nat, wireType: nat): seq<byte> {
    Encode(8 * id + wireType)
  }

  lemma TagSizeExact(id: nat, wireType: nat)
    requires id < TWO_32 && wireType < 8
    ensures |Tag(id, wireType)| == TagSize(id)
  {
    EncodeSmall(8 * id + wireType);
  }

  lemma TagFirstByte(id: nat, wireType: nat)
    requires wireType < 8
    ensures Encode(8 * id)[0] + wireType < 256
    ensures Tag(id, wireType) == Encode(8 * id)[0 := Encode(8 * id)[0] + wireType]
  {
    var v := 8 * id;
    if v < 128 {
      assert v <= 120;
    } else {
      assert v % 128 <= 120;
      assert (v + wireType) / 128 == v / 128 && (v + wireType) % 128 == v % 128 + wireType;
    }
  }

  /** `tag_pack`, then the caller's `out[0] |= wire_type`. */
  method PackTag(id: nat, wireType: nat, out: array<byte>, at: nat) returns (rv: nat)
    requires id < TWO_32 && wireType < 8
    requires at + |Tag(id, wireType)| <= out.Length
    modifies out
    ensures rv == |Tag(id, wireType)|
    ensures out[..] == Splice(old(out[..]), at, Tag(id, wireType))
  {
    TagFirstByte(id, wireType);
    hide Encode, Splice, Tag;
    ghost var base, bytes := out[..], Encode(8 * id);
    if id < 0x2000_0000 {
      rv := PackUint32(8 * id, out, at);
    } else {
      rv := PackUint64(8 * id, out, at);
    }
    ghost var written := out[..];
    SpliceFirst(base, at, bytes, bytes[0] + wireType);
    assert out[at] == written[at] == bytes[0];
    out[at] := out[at] + wireType;
    assert out[..] == written[at := bytes[0] + wireType];
  }

  /** Rewriting the first byte of what has been written. */
  lemma SpliceFirst(buf: seq<byte>, at: nat, s: seq<byte>, b: byte)
    requires s != [] && at + |s| <= |buf|
    ensures Splice(buf, at, s)[at] == s[0] && Splice(buf, at, s)[at := b] == Splice(buf, at, s[0 := b])
  {
  }

  // ----- scanning and parsing -----

  /** `scan_varint`: the length of the varint at the front of `s`, 0 when none ends in `max` bytes. */
  function VarintLength(s: seq<byte>, max: nat): (n: nat)
    ensures n <= max && n <= |s|
    ensures n > 0 ==> IsVarint(s[..n])
  {
    if s == [] || max == 0 then 0
    else if s[0] < 128 then 1
    else
      var r := VarintLength(s[1..], max - 1);
      assert r > 0 ==> s[..r + 1] == [s[0]] + s[1..][..r];
      if r == 0 then 0 else r + 1
  }

  lemma {:induction false} VarintLengthOfVarint(s: seq<byte>, rest: seq<byte>, max: nat)
    requires IsVarint(s) && |s| <= max
    ensures VarintLength(s + rest, max) == |s|
  {
    if |s| > 1 {
      assert s[1..][|s| - 2] == s[|s| - 1];
      VarintLengthOfVarint(s[1..], rest, max - 1);
      assert (s + rest)[1..] == s[1..] + rest;
    }
  }

  lemma VarintLengthOfEncode(v: nat, rest: seq<byte>, max: nat)
    requires |Encode(v)| <= max
    ensures VarintLength(Encode(v) + rest, max) == |Encode(v)|
    ensures (Encode(v) + rest)[..|Encode(v)|] == Encode(v)
  {
    EncodeIsVarint(v);
    VarintLengthOfVarint(Encode(v), rest, max);
  }

  lemma {:induction false} VarintLengthIs(s: seq<byte>, max: nat, i: nat)
    requires i <= max && i <= |s| && forall j :: 0 <= j < i ==> s[j] >= 128
    ensures i == max || i == |s| ==> VarintLength(s, max) == 0
    ensures i < max && i < |s| && s[i] < 128 ==> VarintLength(s, max) == i + 1
  {
    if i > 0 {
      assert forall j :: 0 <= j < i - 1 ==> s[1..][j] == s[j + 1];
      VarintLengthIs(s[1..], max - 1, i - 1);
    }
  }

  /** The loop of `scan_varint`, over the bytes of `data` from `at` up to `end`. */
  method ScanVarint(data: seq<byte>, at: nat, end: nat, max: nat) returns (n: nat)
    requires at <= end <= |data|
    ensures n == VarintLength(data[at..end], max)
  {
    ghost var s := data[at..end];
    var len := if end - at < max then end - at else max;
    var i := 0;
    while i < len && data[at + i] >= 128
      invariant i <= len
      invariant forall j :: 0 <= j < i ==> s[j] >= 128
    {
      i := i + 1;
    }
    VarintLengthIs(s, max, i);
    n := if i == len then 0 else i + 1;
  }

  datatype TagResult = NoTag | GotTag(tag: nat, wireType: nat, used: nat)

  /** What `parse_tag_and_wiretype` recovers from the front of a nonempty input. */
  function ParsedTag(s: seq<byte>): (r: TagResult)
    requires s != []
    ensures r.GotTag? ==> r.tag < TWO_32 && r.wireType < 8 && 1 <= r.used <= |s|
  {
    var n := VarintLength(s, 5);
    if s[0] < 8 || n == 0 then NoTag
    else
      ValueBound(s[..n]);
      GotTag(Number(s[..n]) / 8, Number(s[..n]) % 8, n)
  }

  lemma ValueBound(s: seq<byte>)
    ensures |s| <= 5 ==> Number(s) < 0x8_0000_0000
  {
    if 0 < |s| <= 5 {
      var a := s[1..];
      if a != [] {
        var b := a[1..];
        if b != [] {
          var c := b[1..];
          if c != [] {
            var d := c[1..];
            assert Number(d) < 128;
          }
          assert Number(c) < 0x4000;
        }
        assert Number(b) < 0x20_0000;
      }
      assert Number(a) < 0x1000_0000;
    }
  }

  /** The tag parser as a loop: the first byte carries the type, later bytes seven bits each. */
  method ParseTagAndWireType(data: seq<byte>, at: nat) returns (r: TagResult)
    requires at < |data|
    ensures r == ParsedTag(data[at..])
  {
    hide Number, VarintLength, Pow128, IsVarint;
    ghost var s := data[at..];
    var maxRv := if |data| - at > 5 then 5 else |data| - at;
    var tag: nat := Low7(data[at]) / 8;
    var shift: nat := 16;
    if data[at] / 8 == 0 {
      return NoTag;
    }
    var wireType: nat := data[at] % 8;
    FirstTagByte(s);
    if data[at] < 128 {
      VarintLengthIs(s, 5, 0);
      return GotTag(tag, wireType, 1);
    }
    var rv := 1;
    while rv < maxRv && data[at + rv] >= 128
      invariant 1 <= rv <= maxRv
      invariant forall j :: 0 <= j < rv ==> s[j] >= 128
      invariant 8 * shift == Pow128(rv)
      invariant 8 * tag + wireType == Number(s[..rv])
    {
      TagStep(s, rv, tag, wireType, shift);
      tag, shift := tag + shift * Low7(data[at + rv]), shift * 128;
      rv := rv + 1;
    }
    VarintLengthIs(s, 5, rv);
    if rv == maxRv {
      return NoTag;
    }
    TagStep(s, rv, tag, wireType, shift);
    tag := tag + shift * Low7(data[at + rv]);
    TagOf(tag, wireType);
    return GotTag(tag, wireType, rv + 1);
  }

  lemma TagOf(tag: nat, wireType: nat)
    requires wireType < 8
    ensures (8 * tag + wireType) / 8 == tag && (8 * tag + wireType) % 8 == wireType
  {
  }

  lemma FirstTagByte(s: seq<byte>)
    requires |s| > 0
    ensures Number(s[..1]) == Low7(s[0]) == 8 * (Low7(s[0]) / 8) + s[0] % 8
    ensures Pow128(1) == 128
  {
    assert s[..1] == [s[0]];
    OneByte(s[0]);
    LowThree(s[0]);
    hide Number, Low7;
    assert Pow128(1) == 128 * Pow128(0);
  }

  lemma OneByte(b: byte)
    ensures Number([b]) == Low7(b)
  {
    assert Number([b][1..]) == 0;
  }

  lemma LowThree(b: byte)
    ensures Low7(b) == 8 * (Low7(b) / 8) + b % 8
  {
  }

  lemma TagStep(s: seq<byte>, rv: nat, tag: nat, wireType: nat, shift: nat)
    requires rv < |s| && 8 * shift == Pow128(rv)
    requires 8 * tag + wireType == Number(s[..rv])
    ensures 8 * (tag + shift * Low7(s[rv])) + wireType == Number(s[..rv + 1])
    ensures 8 * (shift * 128) == Pow128(rv + 1)
  {
    ValueSnoc(s, rv);
    var b := Low7(s[rv]);
    assert 8 * (shift * b) == (8 * shift) * b;
  }

  function Pow128(n: nat): (p: nat)
    ensures p >= 1
  {
    if n == 0 then 1 else 128 * Pow128(n - 1)
  }

  /** One more byte adds its seven bits at the next position. */
  lemma {:induction false} ValueSnoc(s: seq<byte>, n: nat)
    requires n < |s|
    ensures Number(s[..n + 1]) == Number(s[..n]) + Pow128(n) * Low7(s[n])
  {
    if n == 0 {
      assert s[..1] == [s[0]];
    } else {
      var t := s[1..];
      ValueSnoc(t, n - 1);
      assert Number(s[..n + 1]) == Low7(s[0]) + 128 * Number(t[..n]) by { assert s[..n + 1][1..] == t[..n]; }
      assert Number(s[..n]) == Low7(s[0]) + 128 * Number(t[..n - 1]) by { assert s[..n][1..] == t[..n - 1]; }
      hide Number;
      MulAssociates(128, Pow128(n - 1), Low7(s[n]));
    }
  }

  lemma {:induction false} ValueLimit(s: seq<byte>)
    ensures Number(s) < Pow128(|s|)
  {
    if s != [] {
      ValueLimit(s[1..]);
    }
  }

  /** The value `parse_uint32` gives: the low 32 bits of the number. */
  function ParseUint32(s: seq<byte>): (v: nat)
    ensures v < TWO_32
  {
    Number(s) % TWO_32
  }

  function ParseUint64(s: seq<byte>): (v: nat)
    ensures v < TWO_64
  {
    Number(s) % TWO_64
  }

  /** `parse_boolean`: any of the value bits is set. */
  predicate ParseBoolean(s: seq<byte>) {
    exists i :: 0 <= i < |s| && s[i] % 128 != 0
  }

  lemma MulAssociates(a: nat, b: nat, c: nat)
    ensures a * (b * c) == (a * b) * c
  {
  }

  lemma {:induction false} ValueSplit(s: seq<byte>, n: nat)
    requires n <= |s|
    ensures Number(s) == Number(s[..n]) + Pow128(n) * Number(s[n..])
  {
    if n > 0 {
      var t := s[1..];
      ValueSplit(t, n - 1);
      assert t[n - 1..] == s[n..];
      assert Number(s[..n]) == Low7(s[0]) + 128 * Number(t[..n - 1]) by {
        assert s[..n][1..] == t[..n - 1];
      }
      MulAssociates(128, Pow128(n - 1), Number(s[n..]));
    }
  }

  lemma ValueLow32(s: seq<byte>)
    requires |s| >= 5
    ensures Number(s[..4]) < 0x1000_0000
    ensures Number(s) % TWO_32 == Number(s[..4]) + 0x1000_0000 * (s[4] as int) % TWO_32
  {
    ValueLimit(s[..4]);
    ValueSplit(s, 5);
    ValueSnoc(s, 4);
    Powers();
    assert s[..5][..4] == s[..4];
    Low32OfSum(Number(s[..4]), s[4], Number(s[5..]));
  }

  lemma DropMultiple(a: nat, k: nat)
    requires a < TWO_32
    ensures (a + TWO_32 * k) % TWO_32 == a
  {
  }

  lemma Low32OfSum(f: nat, x: nat, r: nat)
    requires f < 0x1000_0000 && x < 256
    ensures (f + 0x1000_0000 * (x % 128) + 0x8_0000_0000 * r) % TWO_32 == f + 0x1000_0000 * x % TWO_32
  {
    var y, z, w := x % 16, x % 128 / 16, x / 16;
    LowBits(x);
    DropMultiple(0x1000_0000 * y, w);
    DropMultiple(f + 0x1000_0000 * y, z + 8 * r);
    assert 0x1000_0000 * x == 0x1000_0000 * y + TWO_32 * w;
    assert f + 0x1000_0000 * (x % 128) + 0x8_0000_0000 * r == f + 0x1000_0000 * y + TWO_32 * (z + 8 * r);
  }

  lemma LowBits(x: nat)
    requires x < 256
    ensures x == 16 * (x / 16) + x % 16 && x % 128 == 16 * (x % 128 / 16) + x % 16
  {
  }

  lemma Powers()
    ensures Pow128(1) == 0x80 && Pow128(2) == 0x4000 && Pow128(3) == 0x20_0000
    ensures Pow128(4) == 0x1000_0000 && Pow128(5) == 0x8_0000_0000
  {
    assert Pow128(2) == 128 * Pow128(1);
    assert Pow128(3) == 128 * Pow128(2);
    assert Pow128(4) == 128 * Pow128(3);
    assert Pow128(5) == 128 * Pow128(4);
  }

  /** The numbers of the first prefixes of a varint. */
  lemma FirstFew(s: seq<byte>)
    ensures |s| >= 1 ==> Number(s[..1]) == Low7(s[0])
    ensures |s| >= 2 ==> Number(s[..2]) == Low7(s[0]) + 0x80 * Low7(s[1])
    ensures |s| >= 3 ==> Number(s[..3]) == Low7(s[0]) + 0x80 * Low7(s[1]) + 0x4000 * Low7(s[2])
    ensures |s| >= 4 ==> Number(s[..4]) == Low7(s[0]) + 0x80 * Low7(s[1]) + 0x4000 * Low7(s[2]) + 0x20_0000 * Low7(s[3])
  {
    Powers();
    assert Number([]) == 0 && Pow128(0) == 1;
    hide Number, Pow128;
    if |s| >= 1 { assert s[..0] == []; ValueSnoc(s, 0); }
    if |s| >= 2 { ValueSnoc(s, 1); }
    if |s| >= 3 { ValueSnoc(s, 2); }
    if |s| >= 4 { ValueSnoc(s, 3); }
  }

  lemma ValueOfFew(s: seq<byte>)
    requires 1 <= |s| <= 4
    ensures ParseUint32(s) == Number(s) == ParseUint64(s)
    ensures Number(s) ==
            Low7(s[0]) + (if |s| > 1 then 0x80 * Low7(s[1]) else 0) + (if |s| > 2 then 0x4000 * Low7(s[2]) else 0)
            + (if |s| > 3 then 0x20_0000 * Low7(s[3]) else 0)
  {
    hide Number;
    FirstFew(s);
    assert s[..|s|] == s;
  }

  /** `parse_uint32` looks at no more than five bytes; the fifth loses its top bits in the shift. */
  method ParseUint32Bytes(data: seq<byte>, at: nat, len: nat) returns (rv: nat)
    requires 1 <= len && at + len <= |data|
    ensures rv == ParseUint32(data[at..at + len])
  {
    hide Number, ParseUint32;
    ghost var s := data[at..at + len];
    if len <= 4 { ValueOfFew(s); } else { ValueLow32(s); FirstFour(s); LowWord(s); }
    rv := Low7(data[at]);
    if len > 1 {
      rv := rv + 0x80 * Low7(data[at + 1]);
      if len > 2 {
        rv := rv + 0x4000 * Low7(data[at + 2]);
        if len > 3 {
          rv := rv + 0x20_0000 * Low7(data[at + 3]);
          if len > 4 {
            rv := rv + 0x1000_0000 * (data[at + 4] as int) % TWO_32;
          }
        }
      }
    }
  }

  lemma LowWord(s: seq<byte>)
    ensures ParseUint32(s) == Number(s) % TWO_32
  {
  }

  /** The shift of the loop in `parse_uint64`, modulo 2^64: bits above the word are lost. */
  method ParseUint64Bytes(data: seq<byte>, at: nat, len: nat) returns (rv: nat)
    requires 1 <= len <= 10 && at + len <= |data|
    ensures rv == ParseUint64(data[at..at + len])
  {
    ghost var s := data[at..at + len];
    hide Number, Pow128, ParseUint32, ParseUint64, Low7;
    if len < 5 {
      ValueOfFew(s);
      rv := ParseUint32Bytes(data, at, len);
      return;
    }
    rv := Low7(data[at]) + 0x80 * Low7(data[at + 1]) + 0x4000 * Low7(data[at + 2])
        + 0x20_0000 * Low7(data[at + 3]);
    FirstFour(s);
    var shift: nat := 0x1000_0000;
    var i := 4;
    while i < len
      invariant 4 <= i <= len
      invariant shift == Pow128(i)
      invariant rv == Number(s[..i]) % TWO_64
    {
      NextGroup(s, i, rv, shift);
      rv := (rv + shift * Low7(data[at + i])) % TWO_64;
      shift := shift * 128;
      i := i + 1;
    }
    assert s[..len] == s;
    WholeWord(s);
  }

  /** One turn of the loop, its overflow included. */
  lemma NextGroup(s: seq<byte>, i: nat, rv: nat, shift: nat)
    requires i < |s| && shift == Pow128(i) && rv == Number(s[..i]) % TWO_64
    ensures (rv + shift * Low7(s[i])) % TWO_64 == Number(s[..i + 1]) % TWO_64
    ensures Pow128(i + 1) == shift * 128
  {
    hide Number, Pow128, Low7;
    ValueSnoc(s, i);
    ModAdd(Number(s[..i]), shift * Low7(s[i]));
    NextPower(i);
  }

  lemma ModAdd(a: nat, b: nat)
    ensures (a % TWO_64 + b) % TWO_64 == (a + b) % TWO_64
  {
  }

  lemma NextPower(i: nat)
    ensures Pow128(i + 1) == Pow128(i) * 128
  {
  }

  lemma WholeWord(s: seq<byte>)
    ensures ParseUint64(s) == Number(s) % TWO_64
  {
  }

  lemma FirstFour(s: seq<byte>)
    requires |s| >= 4
    ensures Number(s[..4]) == Low7(s[0]) + 0x80 * Low7(s[1]) + 0x4000 * Low7(s[2]) + 0x20_0000 * Low7(s[3])
    ensures Number(s[..4]) < 0x1000_0000 == Pow128(4)
  {
    Powers();
    FirstFew(s);
  }

  method ParseBooleanBytes(data: seq<byte>, at: nat, len: nat) returns (r: bool)
    requires at + len <= |data|
    ensures r == ParseBoolean(data[at..at + len])
  {
    ghost var s := data[at..at + len];
    var i := 0;
    while i < len
      invariant i <= len
      invariant forall j :: 0 <= j < i ==> s[j] % 128 == 0
    {
      if data[at + i] % 128 != 0 {
        assert s[i] % 128 != 0;
        return true;
      }
      i := i + 1;
    }
    return false;
  }

  // ----- the scalar round trips -----

  /** Every int32, negative ones as ten bytes, survives the varint and the 32-bit parser. */
  lemma Int32RoundTrip(v: int)
    requires -TWO_31 <= v < TWO_31
    ensures ToSigned32(ParseUint32(Encode(Unsigned64(v)))) == v
    ensures |Encode(Unsigned64(v))| == Int32Size(v) <= 10
  {
    hide Encode, Number;
    NumberOfEncode(Unsigned64(v));
    if v < 0 {
      NegativeDigits(v);
      assert v + TWO_64 == TWO_32 * 0xFFFF_FFFF + (v + TWO_32);
    } else {
      Uint32SizeExact(v);
    }
  }

  lemma Int32SizeExact(v: int)
    requires -TWO_31 <= v < TWO_31
    ensures |Encode(Unsigned64(v))| == Int32Size(v)
  {
    Int32RoundTrip(v);
  }

  lemma Uint32RoundTrip(v: nat)
    requires v < TWO_32
    ensures ParseUint32(Encode(v)) == v
    ensures |Encode(v)| == Uint32Size(v) <= 5
  {
    NumberOfEncode(v);
    Uint32SizeExact(v);
  }

  lemma Uint64RoundTrip(v: nat)
    requires v < TWO_64
    ensures ParseUint64(Encode(v)) == v
    ensures |Encode(v)| == Uint64Size(v) <= 10
  {
    NumberOfEncode(v);
    Uint64SizeExact(v);
  }

  /** Every field number from 1 to 2^32 - 1 and every wire type comes back from its tag. */
  lemma TagRoundTrip(id: nat, wireType: nat, rest: seq<byte>)
    requires 1 <= id < TWO_32 && wireType < 8
    ensures ParsedTag(Tag(id, wireType) + rest) == GotTag(id, wireType, TagSize(id))
  {
    var v := 8 * id + wireType;
    TagSizeExact(id, wireType);
    VarintLengthOfEncode(v, rest, 5);
    NumberOfEncode(v);
  }
}
