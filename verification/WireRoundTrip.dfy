/**
 Decoding undoes encoding: for every schema and every well-formed message, decoding its
 encoding succeeds and gives the message back, with the fields the encoder leaves out at
 their defaults.
 */
module WireRoundTrip {
  import opened Common
  import opened Bytes
  import opened Varint
  import opened Schema
  import opened WireMessage
  import opened WireFormat

  // ----- well-formed messages -----

  predicate InRange(ty: FieldType, n: int) {
    match ty
    case SINT32 => -TWO_31 <= n < TWO_31
    case INT32 => -TWO_31 <= n < TWO_31
    case ENUM => -TWO_31 <= n < TWO_31
    case SFIXED32 => -TWO_31 <= n < TWO_31
    case UINT32 => 0 <= n < TWO_32
    case FIXED32 => 0 <= n < TWO_32
    case SINT64 => -TWO_63 <= n < TWO_63
    case INT64 => -TWO_63 <= n < TWO_63
    case SFIXED64 => -TWO_63 <= n < TWO_63
    case UINT64 => 0 <= n < TWO_64
    case FIXED64 => 0 <= n < TWO_64
    case _ => false
  }

  ghost predicate ValueFits(schema: seq<Desc>, ty: FieldType, v: Value)
    decreases v, 0
  {
    match ty
    case BOOL => v.Flag?
    case STRING => v.TextNull? || v.TextDefault? || (v.Text? && 0 !in v.s)
    case BYTES => v.Blob?
    case MESSAGE(k) => v.MsgNull? || (v.Msg? && v.m.desc == k && Fits(schema, v.m))
    case _ => v.Num? && InRange(ty, v.n)
  }

  ghost predicate SlotFits(schema: seq<Desc>, f: Field, slot: Slot)
    decreases slot, 1
  {
    match f.rule
    case Unlabeled => slot.Plain? && ValueFits(schema, f.ty, slot.v)
    case Optional => (if IsPointer(f.ty) then slot.Plain? else slot.Maybe?) && ValueFits(schema, f.ty, slot.v)
    case Oneof(_) => slot.Shared?
    case Repeated(_) =>
      // a NULL element would be dereferenced by the encoder
      && slot.List?
      && forall i :: 0 <= i < |slot.vs| ==>
           ValueFits(schema, f.ty, slot.vs[i]) && !slot.vs[i].TextNull? && !slot.vs[i].MsgNull?
  }

  ghost predicate UnionFits(schema: seq<Desc>, fields: seq<Field>, g: nat, u: Union)
    decreases u, 1
  {
    u.Holding? ==>
      var i := FindField(fields, u.which);
      i >= 0 && fields[i].rule == Oneof(g) && ValueFits(schema, fields[i].ty, u.v)
  }

  ghost predicate UnknownFits(fields: seq<Field>, u: UnknownField) {
    && 1 <= u.tag < TWO_32 && FindField(fields, TagAsInt(u.tag)) < 0
    && u.wireType < 8 && |u.data| > 0 && MemberLength(u.wireType, u.data) == |u.data|
  }

  /** A message that matches its descriptor, with no more members than the slabs hold. */
  ghost predicate Fits(schema: seq<Desc>, m: Message)
    decreases m, 2
  {
    && m.desc < |schema|
    && var d := schema[m.desc];
    && |m.slots| == |d.fields| && |m.unions| == d.groups
    && (forall i :: 0 <= i < |m.slots| ==> SlotFits(schema, d.fields[i], m.slots[i]))
    && (forall g :: 0 <= g < |m.unions| ==> UnionFits(schema, d.fields, g, m.unions[g]))
    && (forall j :: 0 <= j < |m.unknown| ==> UnknownFits(d.fields, m.unknown[j]))
    && |Recs(schema, m)| <= SLAB_CAPACITY
  }

  // ----- the message that comes back -----

  /** A value as the decoder builds it; an empty string in the wire is a string of its own. */
  function Restored(schema: seq<Desc>, v: Value): Value
    decreases v, 0
  {
    match v
    case Msg(m) => Msg(Canon(schema, m))
    case TextDefault => Text([])
    case _ => v
  }

  function RestoredAll(schema: seq<Desc>, vs: seq<Value>): (rs: seq<Value>)
    ensures |rs| == |vs|
    decreases vs, 1
  {
    if vs == [] then [] else [Restored(schema, vs[0])] + RestoredAll(schema, vs[1..])
  }

  /** Left-out fields are at their defaults, all others keep their value. */
  function CanonSlot(schema: seq<Desc>, f: Field, m: Message, i: nat): Slot
    requires i < |m.slots|
    decreases m, 0
  {
    match Emitted(f, m, i)
    case None =>
      if f.rule.Repeated? && m.slots[i].List? then List(RestoredAll(schema, m.slots[i].vs)) else InitSlot(f)
    case Some(v) =>
      match f.rule
      case Unlabeled => Plain(Restored(schema, v))
      case Optional => if IsPointer(f.ty) then Plain(Restored(schema, v)) else Maybe(true, Restored(schema, v))
      case _ => InitSlot(f)
  }

  function CanonSlots(schema: seq<Desc>, m: Message, n: nat): (slots: seq<Slot>)
    requires n <= |m.slots| && n <= |FieldsOf(schema, m)|
    ensures |slots| == n
    decreases m, 1, n
  {
    if n == 0 then []
    else CanonSlots(schema, m, n - 1) + [CanonSlot(schema, FieldsOf(schema, m)[n - 1], m, n - 1)]
  }

  /** A oneof member counts once the decoder has seen its field, which is below index `n`. */
  function CanonUnion(schema: seq<Desc>, fields: seq<Field>, u: Union, n: nat): Union
    decreases u, 1
  {
    if u.Holding? && !IsAbsent(u.v) && 0 <= FindField(fields, u.which) < n
    then Holding(u.which, Restored(schema, u.v)) else Empty
  }

  function CanonUnions(schema: seq<Desc>, m: Message, g: nat, n: nat): (us: seq<Union>)
    requires g <= |m.unions|
    ensures |us| == g
    ensures forall j :: 0 <= j < g ==> us[j] == CanonUnion(schema, FieldsOf(schema, m), m.unions[j], n)
    decreases m, 2, g
  {
    if g == 0 then []
    else CanonUnions(schema, m, g - 1, n) + [CanonUnion(schema, FieldsOf(schema, m), m.unions[g - 1], n)]
  }

  function Canon(schema: seq<Desc>, m: Message): Message
    decreases m, 3
  {
    if !Shaped(schema, m) then m
    else Message(m.desc, CanonSlots(schema, m, |m.slots|), CanonUnions(schema, m, |m.unions|, |m.slots|), m.unknown)
  }

  // ----- scanning recovers the records -----

  ghost predicate RecOk(r: Rec) {
    1 <= r.tag < TWO_32 && r.wireType < 8 && |r.data| > 0 && MemberLength(r.wireType, r.data) == |r.data|
  }

  ghost predicate RecsOk(recs: seq<Rec>) {
    forall k :: 0 <= k < |recs| ==> RecOk(recs[k])
  }

  /** Bytes that follow a whole varint do not change its length. */
  lemma VarintLengthExtends(s: seq<byte>, rest: seq<byte>, max: nat)
    requires VarintLength(s, max) > 0
    ensures VarintLength(s + rest, max) == VarintLength(s, max)
    ensures (s + rest)[..VarintLength(s, max)] == s[..VarintLength(s, max)]
  {
    var n := VarintLength(s, max);
    assert s + rest == s[..n] + (s[n..] + rest);
    VarintLengthOfVarint(s[..n], s[n..] + rest, max);
  }

  lemma MemberLengthExtends(wireType: nat, s: seq<byte>, rest: seq<byte>)
    requires |s| > 0 && MemberLength(wireType, s) == |s|
    ensures MemberLength(wireType, s + rest) == |s|
  {
    if wireType == VARINT {
      VarintLengthExtends(s, rest, 10);
    } else if wireType == LENGTH_PREFIXED {
      VarintLengthExtends(s, rest, 5);
    }
  }

  lemma ScanOneRec(r: Rec, rest: seq<byte>)
    requires RecOk(r)
    ensures RecBytes(r) + rest != []
    ensures ScanMember(RecBytes(r) + rest) == Some((r, |RecBytes(r)|))
    ensures (RecBytes(r) + rest)[|RecBytes(r)|..] == rest
  {
    hide Tag, TagSize, MemberLength, ParsedTag;
    var tag := Tag(r.tag, r.wireType);
    var s := RecBytes(r) + rest;
    assert s == tag + (r.data + rest);
    TagRoundTrip(r.tag, r.wireType, r.data + rest);
    TagSizeExact(r.tag, r.wireType);
    assert s[|tag|..] == r.data + rest;
    MemberLengthExtends(r.wireType, r.data, rest);
    assert s[|tag|..|tag| + |r.data|] == r.data;
  }

  lemma {:induction false} ScanRecs(recs: seq<Rec>)
    requires RecsOk(recs)
    ensures TypesOk(recs) && Scan(RecsBytes(recs)) == Some(recs)
  {
    if recs != [] {
      ScanOneRec(recs[0], RecsBytes(recs[1..]));
      ScanRecs(recs[1..]);
      assert [recs[0]] + recs[1..] == recs;
    }
  }

  // ----- values -----

  lemma IntegerRoundTrip(ty: FieldType, n: int)
    requires IsPackable(ty) && !ty.BOOL? && InRange(ty, n)
    ensures ScalarValue(ty, ScalarData(ty, Num(n))) == Num(n)
  {
    hide ScalarValue, ScalarData, InRange;
    match ty
    case SINT32 => Varint32RoundTrip(ty, n);
    case INT32 => Varint32RoundTrip(ty, n);
    case ENUM => Varint32RoundTrip(ty, n);
    case UINT32 => Varint32RoundTrip(ty, n);
    case SINT64 => Varint64RoundTrip(ty, n);
    case INT64 => Varint64RoundTrip(ty, n);
    case UINT64 => Varint64RoundTrip(ty, n);
    case _ => FixedRoundTrip(ty, n);
  }

  lemma Varint32RoundTrip(ty: FieldType, n: int)
    requires (ty.SINT32? || ty.INT32? || ty.ENUM? || ty.UINT32?) && InRange(ty, n)
    ensures ScalarValue(ty, ScalarData(ty, Num(n))) == Num(n)
  {
    hide Encode, Number, ParseUint32, ParseUint64, ZigZag32, UnZigZag32, ToSigned32, Unsigned64;
    match ty
    case SINT32 => ZigZagInverse32(n); Uint32RoundTrip(ZigZag32(n)); Wrap32(n);
    case INT32 => Int32RoundTrip(n); Wrap32(n);
    case ENUM => Int32RoundTrip(n); Wrap32(n);
    case UINT32 => Uint32RoundTrip(n);
  }

  lemma Varint64RoundTrip(ty: FieldType, n: int)
    requires (ty.SINT64? || ty.INT64? || ty.UINT64?) && InRange(ty, n)
    ensures ScalarValue(ty, ScalarData(ty, Num(n))) == Num(n)
  {
    hide Encode, Number, ParseUint32, ParseUint64, ZigZag64, UnZigZag64, ToSigned64, Unsigned64;
    match ty
    case SINT64 => ZigZagInverse64(n); Uint64RoundTrip(ZigZag64(n)); Wrap64(n);
    case INT64 => Uint64RoundTrip(n % TWO_64); Wrap64(n);
    case UINT64 => Uint64RoundTrip(n);
  }

  lemma FixedRoundTrip(ty: FieldType, n: int)
    requires FixedWidth(ty) > 0 && InRange(ty, n)
    ensures ScalarValue(ty, ScalarData(ty, Num(n))) == Num(n)
  {
    hide LittleEndian, FromLittleEndian, ToSigned32, ToSigned64;
    match ty
    case FIXED32 => FixedInverse(n);
    case SFIXED32 => FixedInverse(n % TWO_32); Wrap32(n);
    case FIXED64 => FixedInverse(n);
    case SFIXED64 => FixedInverse(n % TWO_64); Wrap64(n);
  }

  lemma Wrap32(n: int)
    requires -TWO_31 <= n < TWO_31
    ensures ToSigned32(n % TWO_32) == n
  {
    if n < 0 {
      assert n % TWO_32 == n + TWO_32;
    }
  }

  lemma Wrap64(n: int)
    requires -TWO_63 <= n < TWO_63
    ensures ToSigned64(n % TWO_64) == n
  {
    if n < 0 {
      assert n % TWO_64 == n + TWO_64;
    }
  }

  /** The member bytes of a number are one varint, or exactly as wide as the type. */
  lemma ScalarShape(ty: FieldType, v: Value)
    requires IsPackable(ty)
    ensures FixedWidth(ty) > 0 ==> |ScalarData(ty, v)| == FixedWidth(ty)
    ensures FixedWidth(ty) == 0 ==> IsVarint(ScalarData(ty, v)) && |ScalarData(ty, v)| <= 10
    ensures WireTypeOf(ty) == if FixedWidth(ty) == 0 then VARINT else if FixedWidth(ty) == 4 then FIXED_32 else FIXED_64
  {
    var n := NumOf(v);
    match ty
    case SINT32 => VarintShape(ZigZag32(ToSigned32(n % TWO_32)));
    case INT32 => VarintShape(Unsigned64(ToSigned32(n % TWO_32)));
    case ENUM => VarintShape(Unsigned64(ToSigned32(n % TWO_32)));
    case UINT32 => VarintShape(n % TWO_32);
    case SINT64 => VarintShape(ZigZag64(ToSigned64(n % TWO_64)));
    case INT64 => VarintShape(n % TWO_64);
    case UINT64 => VarintShape(n % TWO_64);
    case _ =>
  }

  lemma VarintShape(u: nat)
    requires u < TWO_64
    ensures IsVarint(Encode(u)) && |Encode(u)| <= 10
  {
    EncodeIsVarint(u);
    Uint64SizeExact(u);
  }

  lemma ScalarMember(ty: FieldType, v: Value, rest: seq<byte>)
    requires IsPackable(ty)
    ensures |ScalarData(ty, v)| > 0
    ensures MemberLength(WireTypeOf(ty), ScalarData(ty, v)) == |ScalarData(ty, v)|
    ensures FixedWidth(ty) == 0 ==> VarintLength(ScalarData(ty, v) + rest, 10) == |ScalarData(ty, v)|
  {
    ScalarShape(ty, v);
    var s := ScalarData(ty, v);
    if FixedWidth(ty) == 0 {
      VarintLengthOfVarint(s, rest, 10);
      VarintLengthOfVarint(s, [], 10);
      assert s + [] == s;
    }
  }

  ghost predicate ScalarFits(ty: FieldType, v: Value) {
    IsPackable(ty) && if ty.BOOL? then v.Flag? else v.Num? && InRange(ty, v.n)
  }

  lemma ScalarRoundTrip(ty: FieldType, v: Value)
    requires ScalarFits(ty, v)
    ensures ScalarValue(ty, ScalarData(ty, v)) == v
  {
    if ty.BOOL? {
      var s := ScalarData(ty, v);
      assert s == [if v.b then 1 else 0];
      assert v.b ==> s[0] % 128 != 0;
    } else {
      IntegerRoundTrip(ty, v.n);
    }
  }

  lemma {:induction false} PackedDataFront(ty: FieldType, vs: seq<Value>)
    requires vs != []
    ensures PackedData(ty, vs) == ScalarData(ty, vs[0]) + PackedData(ty, vs[1..])
  {
    hide ScalarData;
    var last := |vs| - 1;
    if last > 0 {
      PackedDataFront(ty, vs[..last]);
      assert vs[..last][1..] == vs[1..][..last - 1];
      var x, y, z := ScalarData(ty, vs[0]), PackedData(ty, vs[1..][..last - 1]), ScalarData(ty, vs[last]);
      assert PackedData(ty, vs) == (x + y) + z;
      assert PackedData(ty, vs[1..]) == y + z;
    } else {
      assert PackedData(ty, vs[..0]) == [];
    }
  }

  lemma PackedStep(ty: FieldType, v: Value, rest: seq<byte>)
    requires ScalarFits(ty, v)
    ensures PackedValues(ty, ScalarData(ty, v) + rest)
         == ([v] + PackedValues(ty, rest).0, PackedValues(ty, rest).1)
  {
    ScalarShape(ty, v);
    ScalarMember(ty, v, rest);
    ScalarRoundTrip(ty, v);
    hide ScalarData, ScalarValue, VarintLength, IsVarint;
    var s := ScalarData(ty, v);
    assert (s + rest)[..|s|] == s && (s + rest)[|s|..] == rest;
  }

  /** A packed payload is cut back into exactly its elements. */
  lemma {:induction false} PackedRoundTrip(ty: FieldType, vs: seq<Value>)
    requires forall i :: 0 <= i < |vs| ==> ScalarFits(ty, vs[i])
    ensures PackedValues(ty, PackedData(ty, vs)) == (vs, true)
  {
    if vs != [] {
      PackedDataFront(ty, vs);
      PackedStep(ty, vs[0], PackedData(ty, vs[1..]));
      PackedRoundTrip(ty, vs[1..]);
      assert [vs[0]] + vs[1..] == vs;
    }
  }

  lemma PrefixedMember(tag: nat, s: seq<byte>)
    requires |s| <= INT_MAX
    ensures MemberLength(LENGTH_PREFIXED, Prefixed(s)) == |Prefixed(s)| > |s|
    ensures Payload(Rec(tag, LENGTH_PREFIXED, Prefixed(s))) == s
  {
    Uint32SizeExact(|s|);
    VarintLengthOfEncode(|s|, s, 5);
    NumberOfEncode(|s|);
  }

  lemma {:induction false} CStringWhole(s: seq<byte>)
    requires 0 !in s
    ensures CString(s) == s
  {
    if s != [] {
      CStringWhole(s[1..]);
    }
  }

  ghost predicate SizeOk(schema: seq<Desc>, ty: FieldType, v: Value) {
    |Data(schema, ty, v)| <= INT_MAX
  }

  lemma PrefixedLonger(s: seq<byte>)
    ensures |Prefixed(s)| > |s|
  {
  }

  lemma TextRoundTrip(schema: seq<Desc>, ty: FieldType, v: Value, id: nat, n: nat)
    requires ty.STRING? || ty.BYTES?
    requires ValueFits(schema, ty, v) && !v.TextNull?
    requires |Prefixed(Chars(v))| < n <= INT_MAX + 1
    ensures ParseValue(schema, ty, Rec(id, LENGTH_PREFIXED, Prefixed(Chars(v))), n) == Done(Restored(schema, v))
  {
    PrefixedLonger(Chars(v));
    PrefixedMember(id, Chars(v));
    if v.Text? {
      CStringWhole(v.s);
    }
    hide Payload, Prefixed, MemberLength;
  }

  /** One value packed as a member and parsed again. */
  lemma ValueRoundTrip(schema: seq<Desc>, ty: FieldType, v: Value, id: nat, n: nat)
    requires WellFormed(schema) && ValueFits(schema, ty, v) && !v.TextNull? && !v.MsgNull?
    requires |Data(schema, ty, v)| < n <= INT_MAX + 1
    ensures ParseValue(schema, ty, Rec(id, WireTypeOf(ty), Data(schema, ty, v)), n) == Done(Restored(schema, v))
    decreases v, 0
  {
    hide WellFormed, Fits, Enc, Recs, Canon, Decode, Encode, ScalarData, ScalarValue, Payload, Prefixed, MemberLength;
    if IsPackable(ty) {
      ScalarRoundTrip(ty, v);
    } else if ty.MESSAGE? {
      PrefixedLonger(Enc(schema, v.m));
      PrefixedMember(id, Enc(schema, v.m));
      RoundTrip(schema, v.m);
    } else {
      TextRoundTrip(schema, ty, v, id, n);
    }
  }

  lemma DataMember(schema: seq<Desc>, ty: FieldType, v: Value, id: nat)
    requires SizeOk(schema, ty, v)
    ensures |Data(schema, ty, v)| > 0
    ensures MemberLength(WireTypeOf(ty), Data(schema, ty, v)) == |Data(schema, ty, v)|
  {
    hide Prefixed, Enc, ScalarData, MemberLength, Encode;
    if IsPackable(ty) {
      ScalarMember(ty, v, []);
    } else if ty.MESSAGE? && v.Msg? {
      PrefixedLonger(Enc(schema, v.m));
      PrefixedMember(id, Enc(schema, v.m));
    } else {
      PrefixedLonger(Chars(v));
      PrefixedMember(id, Chars(v));
    }
  }

  // ----- replaying the records of a message -----

  lemma {:induction false} ReplayAppend(schema: seq<Desc>, fields: seq<Field>, a: seq<Rec>, b: seq<Rec>, m: Message, n: nat)
    requires TagsOk(a + b) && ShorterThan(a + b, n) && |m.slots| == |fields|
    ensures TagsOk(a) && TagsOk(b) && ShorterThan(a, n) && ShorterThan(b, n)
    ensures Replay(schema, fields, a + b, m, n) ==
            match Replay(schema, fields, a, m, n)
            case Done(m') => Replay(schema, fields, b, m', n)
            case other => other
  {
    SubRecs(a, b, n);
    if b == [] {
      assert a + b == a;
    } else {
      assert (a + b)[..|a + b| - 1] == a + b[..|b| - 1];
      SubRecs(a + b[..|b| - 1], [b[|b| - 1]], n);
      ReplayAppend(schema, fields, a, b[..|b| - 1], m, n);
    }
  }

  lemma SubCounts(fields: seq<Field>, a: seq<Rec>, b: seq<Rec>)
    ensures CountsOk(fields, a + b) <==> CountsOk(fields, a) && CountsOk(fields, b)
  {
    hide CountOk;
    var ab := a + b;
    assert forall k :: 0 <= k < |a| ==> ab[k] == a[k];
    assert forall k :: 0 <= k < |b| ==> ab[|a| + k] == b[k];
    assert forall k :: |a| <= k < |ab| ==> ab[k] == b[k - |a|];
  }

  lemma SubRecs(a: seq<Rec>, b: seq<Rec>, n: nat)
    ensures TagsOk(a + b) <==> TagsOk(a) && TagsOk(b)
    ensures RecsOk(a + b) <==> RecsOk(a) && RecsOk(b)
    ensures ShorterThan(a + b, n) <==> ShorterThan(a, n) && ShorterThan(b, n)
  {
    var ab := a + b;
    assert forall k :: 0 <= k < |a| ==> ab[k] == a[k];
    assert forall k :: 0 <= k < |b| ==> ab[|a| + k] == b[k];
    assert forall k :: |a| <= k < |ab| ==> ab[k] == b[k - |a|];
  }

  lemma {:induction false} RecShorter(recs: seq<Rec>)
    requires TypesOk(recs)
    ensures ShorterThan(recs, |RecsBytes(recs)|)
  {
    if recs != [] {
      RecShorter(recs[1..]);
      assert forall k :: 1 <= k < |recs| ==> recs[k] == recs[1..][k - 1];
    }
  }

  /** The message under construction once the records of the first `n` fields are in. */
  ghost function Partial(schema: seq<Desc>, m: Message, n: nat): (p: Message)
    requires Fits(schema, m) && n <= |m.slots|
    ensures |p.slots| == |m.slots| && |p.unions| == |m.unions|
  {
    Message(m.desc, CanonSlots(schema, m, n) + InitSlots(schema[m.desc].fields)[n..],
            CanonUnions(schema, m, |m.unions|, n), [])
  }

  /** The next field touches its own slot only ... */
  lemma PartialNextSlot(schema: seq<Desc>, m: Message, n: nat)
    requires WellFormed(schema) && Fits(schema, m) && n < |m.slots|
    ensures var f := schema[m.desc].fields[n];
            Partial(schema, m, n).slots[n] == InitSlot(f)
            && Partial(schema, m, n + 1).slots == Partial(schema, m, n).slots[n := CanonSlot(schema, f, m, n)]
  {
    FitsShape(schema, m);
    PartialSlots(schema, m, n);
    PartialSlots(schema, m, n + 1);
    CanonSlotsNext(schema, m, n);
    hide *;
    OneMore(CanonSlots(schema, m, n), InitSlots(schema[m.desc].fields), CanonSlot(schema, schema[m.desc].fields[n], m, n));
  }

  lemma PartialSlots(schema: seq<Desc>, m: Message, n: nat)
    requires Fits(schema, m) && n <= |m.slots|
    ensures m.desc < |schema| && n <= |FieldsOf(schema, m)| == |schema[m.desc].fields|
    ensures |CanonSlots(schema, m, n)| == n && |InitSlots(schema[m.desc].fields)| == |m.slots|
    ensures Partial(schema, m, n).slots == CanonSlots(schema, m, n) + InitSlots(schema[m.desc].fields)[n..]
  {
    FitsShape(schema, m);
    hide Fits, CanonSlots, InitSlots, CanonUnions;
  }

  lemma CanonSlotsNext(schema: seq<Desc>, m: Message, n: nat)
    requires n < |m.slots| && n < |FieldsOf(schema, m)| && m.desc < |schema|
    ensures CanonSlots(schema, m, n + 1) == CanonSlots(schema, m, n) + [CanonSlot(schema, schema[m.desc].fields[n], m, n)]
  {
    hide CanonSlot;
  }

  /** One element of `b` replaced by `x`, those before it being `a`. */
  lemma OneMore(a: seq<Slot>, b: seq<Slot>, x: Slot)
    requires |a| < |b|
    ensures (a + b[|a|..])[|a|] == b[|a|] && (a + [x]) + b[|a| + 1..] == (a + b[|a|..])[|a| := x]
  {
  }

  /** ... and no union, unless it is the selected member of one. */
  lemma UnionNext(schema: seq<Desc>, fields: seq<Field>, g: nat, u: Union, n: nat)
    requires n < |fields| && FindField(fields, fields[n].id) == n
    requires UnionFits(schema, fields, g, u)
    ensures var f := fields[n];
            CanonUnion(schema, fields, u, n + 1) ==
            if f.rule == Oneof(g) && u.Holding? && u.which == f.id && !IsAbsent(u.v)
            then Holding(f.id, Restored(schema, u.v)) else CanonUnion(schema, fields, u, n)
  {
  }

  /** Oneof `g`, which held `u`, after field `n` has been replayed. */
  ghost function Selected(schema: seq<Desc>, f: Field, m: Message, n: nat, g: nat, u: Union): Union
    requires n < |m.slots|
  {
    if f.rule == Oneof(g) && Emitted(f, m, n).Some? then Holding(f.id, Restored(schema, Emitted(f, m, n).value)) else u
  }

  lemma NextUnion(schema: seq<Desc>, m: Message, n: nat, g: nat)
    requires WellFormed(schema) && Fits(schema, m) && n < |m.slots| && g < |m.unions|
    ensures Partial(schema, m, n + 1).unions[g]
         == Selected(schema, schema[m.desc].fields[n], m, n, g, Partial(schema, m, n).unions[g])
  {
    var d := schema[m.desc];
    FindFieldExact(d, |schema|, n);
    assert UnionFits(schema, d.fields, g, m.unions[g]);
    hide Fits, WellFormed, UnionFits, CanonUnion, Restored;
    UnionNext(schema, d.fields, g, m.unions[g], n);
  }

  lemma PartialNextUnions(schema: seq<Desc>, m: Message, n: nat)
    requires WellFormed(schema) && Fits(schema, m) && n < |m.slots|
    ensures var f := schema[m.desc].fields[n];
            var p, q := Partial(schema, m, n).unions, Partial(schema, m, n + 1).unions;
            if f.rule.Oneof? && Emitted(f, m, n).Some?
            then f.rule.group < |p| && q == p[f.rule.group := Holding(f.id, Restored(schema, Emitted(f, m, n).value))]
            else q == p
  {
    FitsShape(schema, m);
    GroupExists(schema, m, n);
    hide *;
    var f, p, q := schema[m.desc].fields[n], Partial(schema, m, n).unions, Partial(schema, m, n + 1).unions;
    forall g | 0 <= g < |p| ensures q[g] == Selected(schema, f, m, n, g, p[g]) {
      NextUnion(schema, m, n, g);
    }
    UnionsSelected(schema, f, m, n, p, q);
  }

  lemma UnionsSelected(schema: seq<Desc>, f: Field, m: Message, n: nat, p: seq<Union>, q: seq<Union>)
    requires n < |m.slots| && |p| == |q| && (f.rule.Oneof? ==> f.rule.group < |p|)
    requires forall g :: 0 <= g < |p| ==> q[g] == Selected(schema, f, m, n, g, p[g])
    ensures if f.rule.Oneof? && Emitted(f, m, n).Some?
            then q == p[f.rule.group := Holding(f.id, Restored(schema, Emitted(f, m, n).value))]
            else q == p
  {
    hide Emitted, Restored;
  }

  lemma GroupExists(schema: seq<Desc>, m: Message, n: nat)
    requires WellFormed(schema) && Fits(schema, m) && n < |m.slots|
    ensures var f := schema[m.desc].fields[n]; f.rule.Oneof? ==> f.rule.group < |m.unions|
  {
    var d := schema[m.desc];
    assert WellFormedField(d.fields[n], d.groups, |schema|);
    hide SlotFits, UnionFits, UnknownFits, Recs;
  }

  lemma FieldRecOk(schema: seq<Desc>, f: Field, v: Value)
    requires 1 <= f.id < TWO_31 && SizeOk(schema, f.ty, v)
    ensures RecOk(Rec(f.id, WireTypeOf(f.ty), Data(schema, f.ty, v)))
  {
    DataMember(schema, f.ty, v, f.id);
  }

  /** Replaying a single record is parsing it. */
  lemma ReplayOne(schema: seq<Desc>, fields: seq<Field>, r: Rec, m: Message, n: nat)
    requires r.tag < TWO_32 && |r.data| < n && |m.slots| == |fields|
    ensures TagsOk([r]) && ShorterThan([r], n)
    ensures Replay(schema, fields, [r], m, n) == ParseMember(schema, fields, r, m, n)
  {
    assert [r][..0] == [];
    assert Replay(schema, fields, [], m, n) == Done(m);
  }

  lemma ParseSingular(schema: seq<Desc>, fields: seq<Field>, i: nat, r: Rec, w: Value, p: Message, n: nat)
    requires i < |fields| && |p.slots| == |fields| && FindField(fields, fields[i].id) == i
    requires r.tag == fields[i].id < TWO_31 && |r.data| < n
    requires p.slots[i] == InitSlot(fields[i]) && !fields[i].rule.Repeated?
    requires fields[i].rule.Oneof? ==> fields[i].rule.group < |p.unions|
    requires ParseValue(schema, fields[i].ty, r, n) == Done(w)
    ensures ParseMember(schema, fields, r, p, n) == Done(Stored(fields[i], i, w, p))
  {
    hide ParseValue;
  }

  /** The message under construction after a singular field that holds `w`. */
  ghost function Stored(f: Field, i: nat, w: Value, p: Message): Message
    requires i < |p.slots| && (f.rule.Oneof? ==> f.rule.group < |p.unions|)
  {
    match f.rule
    case Oneof(g) => p.(unions := p.unions[g := Holding(f.id, w)])
    case Unlabeled => p.(slots := p.slots[i := Plain(w)])
    case _ => p.(slots := p.slots[i := if IsPointer(f.ty) then Plain(w) else Maybe(true, w)])
  }

  lemma SingularNext(schema: seq<Desc>, m: Message, i: nat)
    requires WellFormed(schema) && Fits(schema, m) && i < |m.slots|
    requires Emitted(schema[m.desc].fields[i], m, i).Some?
    ensures var f, p := schema[m.desc].fields[i], Partial(schema, m, i);
            && p.slots[i] == InitSlot(f) && !f.rule.Repeated?
            && (f.rule.Oneof? ==> f.rule.group < |p.unions|)
            && Partial(schema, m, i + 1) == Stored(f, i, Restored(schema, Emitted(f, m, i).value), p)
  {
    PartialNextSlot(schema, m, i);
    PartialNextUnions(schema, m, i);
    PartialRest(schema, m, i);
    hide Fits, WellFormed, Partial, Restored;
    var p := Partial(schema, m, i);
    assert p.slots[i := p.slots[i]] == p.slots;
  }

  lemma SingularParses(schema: seq<Desc>, m: Message, i: nat, n: nat)
    requires WellFormed(schema) && Fits(schema, m) && i < |m.slots| && n <= INT_MAX + 1
    requires Emitted(schema[m.desc].fields[i], m, i).Some?
    requires |Data(schema, schema[m.desc].fields[i].ty, Emitted(schema[m.desc].fields[i], m, i).value)| < n
    ensures var fields := schema[m.desc].fields;
            var f, v := fields[i], Emitted(fields[i], m, i).value;
            var r := Rec(f.id, WireTypeOf(f.ty), Data(schema, f.ty, v));
            && FindField(fields, f.id) == i && 1 <= f.id < TWO_31
            && ParseValue(schema, f.ty, r, n) == Done(Restored(schema, v)) && RecOk(r)
    decreases m, 2
  {
    EmittedFits(schema, m, i);
    FindFieldExact(schema[m.desc], |schema|, i);
    var f, v := schema[m.desc].fields[i], Emitted(schema[m.desc].fields[i], m, i).value;
    hide Fits, Emitted, ParseValue, Data, Restored, RecOk, ValueFits;
    FieldRecOk(schema, f, v);
    ValueRoundTrip(schema, f.ty, v, f.id, n);
  }

  lemma SingularReplay(schema: seq<Desc>, m: Message, i: nat, n: nat)
    requires WellFormed(schema) && Fits(schema, m) && i < |m.slots| && n <= INT_MAX + 1
    requires Emitted(schema[m.desc].fields[i], m, i).Some?
    requires ShorterThan(FieldRecs(schema, schema[m.desc].fields[i], m, i), n)
    ensures var f := schema[m.desc].fields[i];
            RecsOk(FieldRecs(schema, f, m, i)) && CountsOk(schema[m.desc].fields, FieldRecs(schema, f, m, i))
            && Replay(schema, schema[m.desc].fields, FieldRecs(schema, f, m, i), Partial(schema, m, i), n)
               == Done(Partial(schema, m, i + 1))
    decreases m, 3
  {
    FitsShape(schema, m);
    hide *;
    SingularNext(schema, m, i);
    var fields, p := schema[m.desc].fields, Partial(schema, m, i);
    var f, v := fields[i], Emitted(fields[i], m, i).value;
    var r := Rec(f.id, WireTypeOf(f.ty), Data(schema, f.ty, v));
    SingularRec(schema, f, m, i, n);
    SingularParses(schema, m, i, n);
    SingularCounts(schema, fields, i, r);
    ParseSingular(schema, fields, i, r, Restored(schema, v), p, n);
    ReplayOne(schema, fields, r, p, n);
  }

  /** A singular field is one record. */
  lemma SingularRec(schema: seq<Desc>, f: Field, m: Message, i: nat, n: nat)
    requires i < |m.slots| && Emitted(f, m, i).Some? && ShorterThan(FieldRecs(schema, f, m, i), n)
    ensures var r := Rec(f.id, WireTypeOf(f.ty), Data(schema, f.ty, Emitted(f, m, i).value));
            FieldRecs(schema, f, m, i) == [r] && |r.data| < n
  {
    var r := Rec(f.id, WireTypeOf(f.ty), Data(schema, f.ty, Emitted(f, m, i).value));
    assert FieldRecs(schema, f, m, i) == [r];
    assert [r][0] == r;
    hide Data;
  }

  lemma SingularCounts(schema: seq<Desc>, fields: seq<Field>, i: nat, r: Rec)
    requires i < |fields| && FindField(fields, fields[i].id) == i && r.tag == fields[i].id && 1 <= r.tag < TWO_31
    requires !fields[i].rule.Repeated? && RecOk(r)
    ensures RecsOk([r]) && CountsOk(fields, [r])
  {
    hide RecOk, FindField;
  }

  lemma PartialRest(schema: seq<Desc>, m: Message, n: nat)
    requires Fits(schema, m) && n < |m.slots|
    ensures Partial(schema, m, n).desc == Partial(schema, m, n + 1).desc
    ensures Partial(schema, m, n).unknown == Partial(schema, m, n + 1).unknown == []
  {
    hide SlotFits, UnionFits, UnknownFits, Recs;
  }

  lemma EmittedFits(schema: seq<Desc>, m: Message, i: nat)
    requires Fits(schema, m) && WellFormed(schema) && i < |m.slots|
    requires Emitted(schema[m.desc].fields[i], m, i).Some?
    ensures var f := schema[m.desc].fields[i];
            var v := Emitted(f, m, i).value;
            ValueFits(schema, f.ty, v) && !v.TextNull? && !v.MsgNull?
            && 1 <= f.id < TWO_31 && !f.rule.Repeated? && (f.rule.Oneof? ==> f.rule.group < |m.unions|)
  {
    var d := schema[m.desc];
    var f := d.fields[i];
    assert SlotFits(schema, f, m.slots[i]);
    if f.rule.Oneof? {
      assert UnionFits(schema, d.fields, f.rule.group, m.unions[f.rule.group]);
      FindFieldExact(d, |schema|, i);
    }
  }

  // ----- repeated fields -----

  ghost predicate ElementsFit(schema: seq<Desc>, ty: FieldType, vs: seq<Value>) {
    forall i :: 0 <= i < |vs| ==> ValueFits(schema, ty, vs[i]) && !vs[i].TextNull? && !vs[i].MsgNull?
  }

  /** An unpacked element is appended to what its field already holds. */
  lemma ParseElement(schema: seq<Desc>, fields: seq<Field>, i: nat, r: Rec, w: Value, p: Message, n: nat)
    requires i < |fields| && |p.slots| == |fields| && FindField(fields, fields[i].id) == i
    requires r.tag == fields[i].id < TWO_31 && |r.data| < n && r.wireType == WireTypeOf(fields[i].ty)
    requires p.slots[i].List? && fields[i].rule.Repeated?
    requires ParseValue(schema, fields[i].ty, r, n) == Done(w)
    ensures ParseMember(schema, fields, r, p, n) == Done(p.(slots := p.slots[i := List(p.slots[i].vs + [w])]))
  {
    hide ParseValue, PackedValues;
  }

  lemma ListFront(schema: seq<Desc>, f: Field, vs: seq<Value>)
    requires vs != []
    ensures ListRecs(schema, f, vs)
         == [Rec(f.id, WireTypeOf(f.ty), Data(schema, f.ty, vs[0]))] + ListRecs(schema, f, vs[1..])
    ensures RestoredAll(schema, vs) == [Restored(schema, vs[0])] + RestoredAll(schema, vs[1..])
  {
    hide Data, Restored;
  }

  /** The first element of a list, and the rest left to the records that follow. */
  lemma ListStep(schema: seq<Desc>, fields: seq<Field>, i: nat, v: Value, rest: seq<Rec>, p: Message, n: nat)
    requires WellFormed(schema) && n <= INT_MAX + 1
    requires i < |fields| && |p.slots| == |fields| && FindField(fields, fields[i].id) == i
    requires 1 <= fields[i].id < TWO_31 && p.slots[i].List? && fields[i].rule.Repeated?
    requires ValueFits(schema, fields[i].ty, v) && !v.TextNull? && !v.MsgNull?
    requires |Data(schema, fields[i].ty, v)| < n && ShorterThan(rest, n) && TagsOk(rest)
    ensures var f := fields[i];
            var r := Rec(f.id, WireTypeOf(f.ty), Data(schema, f.ty, v));
            RecOk(r) && CountOk(fields, r) && TagsOk([r] + rest) && ShorterThan([r] + rest, n)
            && Replay(schema, fields, [r] + rest, p, n)
               == Replay(schema, fields, rest, p.(slots := p.slots[i := List(p.slots[i].vs + [Restored(schema, v)])]), n)
    decreases v, 1
  {
    var f := fields[i];
    var r := Rec(f.id, WireTypeOf(f.ty), Data(schema, f.ty, v));
    FieldRecOk(schema, f, v);
    ValueRoundTrip(schema, f.ty, v, f.id, n);
    assert CountOk(fields, r);
    hide ParseValue, ParseMember, Replay, WellFormed, Data, Restored, RecOk, CountOk, ValueFits;
    SubRecs([r], rest, n);
    ParseElement(schema, fields, i, r, Restored(schema, v), p, n);
    ReplayOne(schema, fields, r, p, n);
    ReplayAppend(schema, fields, [r], rest, p, n);
  }

  lemma AppendTwice(p: Message, i: nat, w: Value, ws: seq<Value>)
    requires i < |p.slots| && p.slots[i].List?
    ensures var q := p.(slots := p.slots[i := List(p.slots[i].vs + [w])]);
            q.(slots := q.slots[i := List(q.slots[i].vs + ws)])
            == p.(slots := p.slots[i := List(p.slots[i].vs + ([w] + ws))])
  {
    assert p.slots[i].vs + [w] + ws == p.slots[i].vs + ([w] + ws);
    var ss := p.slots[i := List(p.slots[i].vs + [w])];
    assert ss[i := List(p.slots[i].vs + [w] + ws)] == p.slots[i := List(p.slots[i].vs + [w] + ws)];
  }

  lemma ElementsTail(schema: seq<Desc>, ty: FieldType, vs: seq<Value>)
    requires ElementsFit(schema, ty, vs) && vs != []
    ensures ElementsFit(schema, ty, vs[1..])
    ensures ValueFits(schema, ty, vs[0]) && !vs[0].TextNull? && !vs[0].MsgNull?
  {
    hide ValueFits;
    assert forall i :: 0 <= i < |vs| - 1 ==> vs[1..][i] == vs[i + 1];
  }

  lemma {:induction false} ListReplay(schema: seq<Desc>, fields: seq<Field>, i: nat, vs: seq<Value>, p: Message, n: nat)
    requires WellFormed(schema) && n <= INT_MAX + 1
    requires i < |fields| && |p.slots| == |fields| && FindField(fields, fields[i].id) == i
    requires 1 <= fields[i].id < TWO_31 && p.slots[i].List? && fields[i].rule.Repeated?
    requires ElementsFit(schema, fields[i].ty, vs)
    requires ShorterThan(ListRecs(schema, fields[i], vs), n)
    ensures RecsOk(ListRecs(schema, fields[i], vs)) && CountsOk(fields, ListRecs(schema, fields[i], vs))
    ensures Replay(schema, fields, ListRecs(schema, fields[i], vs), p, n)
         == Done(p.(slots := p.slots[i := List(p.slots[i].vs + RestoredAll(schema, vs))]))
    decreases vs, 2
  {
    var f := fields[i];
    hide WellFormed, ParseMember, ValueFits, Data, Restored, RecOk, CountOk, FindField;
    if vs == [] {
      assert p.slots[i].vs + [] == p.slots[i].vs;
      assert p.slots[i := p.slots[i]] == p.slots;
    } else {
      var r := Rec(f.id, WireTypeOf(f.ty), Data(schema, f.ty, vs[0]));
      var rest, w := ListRecs(schema, f, vs[1..]), Restored(schema, vs[0]);
      var p' := p.(slots := p.slots[i := List(p.slots[i].vs + [w])]);
      ListFront(schema, f, vs);
      ElementsTail(schema, f.ty, vs);
      assert |r.data| < n by { assert ([r] + rest)[0] == r; }
      SubRecs([r], rest, n);
      hide ListRecs, RestoredAll, Replay, ElementsFit, ShorterThan, TagsOk, RecsOk, CountsOk;
      assert TagsOk([r]) by { assert r.tag < TWO_32; }
      ListReplay(schema, fields, i, vs[1..], p', n);
      ListStep(schema, fields, i, vs[0], rest, p, n);
      SubCounts(fields, [r], rest);
      AppendTwice(p, i, w, RestoredAll(schema, vs[1..]));
    }
  }

  lemma {:induction false} RestoredScalars(schema: seq<Desc>, ty: FieldType, vs: seq<Value>)
    requires ElementsFit(schema, ty, vs) && IsPackable(ty)
    ensures RestoredAll(schema, vs) == vs
    ensures forall i :: 0 <= i < |vs| ==> ScalarFits(ty, vs[i])
  {
    if vs != [] {
      assert forall i :: 0 <= i < |vs| - 1 ==> vs[1..][i] == vs[i + 1];
      RestoredScalars(schema, ty, vs[1..]);
      assert [vs[0]] + vs[1..] == vs;
    }
  }

  lemma {:induction false} PackedDataWidth(ty: FieldType, vs: seq<Value>)
    requires IsPackable(ty)
    ensures FixedWidth(ty) > 0 ==> |PackedData(ty, vs)| == FixedWidth(ty) * |vs|
  {
    if vs != [] {
      PackedDataWidth(ty, vs[..|vs| - 1]);
      ScalarShape(ty, vs[|vs| - 1]);
    }
  }

  lemma PackedCount(ty: FieldType, vs: seq<Value>)
    requires IsPackable(ty)
    ensures CountPacked(ty, PackedData(ty, vs)).Some?
  {
    PackedDataWidth(ty, vs);
  }

  /** A packed field is one record that restores the whole list. */
  lemma PackedReplay(schema: seq<Desc>, fields: seq<Field>, i: nat, vs: seq<Value>, p: Message, n: nat)
    requires i < |fields| && |p.slots| == |fields| && FindField(fields, fields[i].id) == i
    requires 1 <= fields[i].id < TWO_31 && p.slots[i] == List([]) && fields[i].rule.Repeated?
    requires IsPackable(fields[i].ty) && ElementsFit(schema, fields[i].ty, vs)
    requires |Prefixed(PackedData(fields[i].ty, vs))| < n <= INT_MAX + 1
    ensures var r := Rec(fields[i].id, LENGTH_PREFIXED, Prefixed(PackedData(fields[i].ty, vs)));
            RecOk(r) && CountOk(fields, r) && ParseMember(schema, fields, r, p, n)
            == Done(p.(slots := p.slots[i := List(RestoredAll(schema, vs))]))
  {
    var f := fields[i];
    var r := Rec(f.id, LENGTH_PREFIXED, Prefixed(PackedData(f.ty, vs)));
    RestoredScalars(schema, f.ty, vs);
    PackedRoundTrip(f.ty, vs);
    PrefixedMember(f.id, PackedData(f.ty, vs));
    PackedCount(f.ty, vs);
    hide CountPacked;
    hide PackedValues, PackedData, Prefixed, MemberLength, ElementsFit, ScalarFits, RestoredAll, Payload;
    assert IsPackedMember(f, r);
    assert [] + vs == vs;
  }

  lemma PackedFieldReplay(schema: seq<Desc>, fields: seq<Field>, m: Message, i: nat, p: Message, n: nat)
    requires i < |fields| && |p.slots| == |fields| == |m.slots| && FindField(fields, fields[i].id) == i
    requires 1 <= fields[i].id < TWO_31 && p.slots[i] == List([]) && n <= INT_MAX + 1
    requires fields[i].rule == Repeated(true) && IsPackable(fields[i].ty)
    requires m.slots[i].List? && ElementsFit(schema, fields[i].ty, m.slots[i].vs)
    requires ShorterThan(FieldRecs(schema, fields[i], m, i), n)
    ensures RecsOk(FieldRecs(schema, fields[i], m, i)) && CountsOk(fields, FieldRecs(schema, fields[i], m, i))
    ensures Replay(schema, fields, FieldRecs(schema, fields[i], m, i), p, n)
         == Done(p.(slots := p.slots[i := List(RestoredAll(schema, m.slots[i].vs))]))
  {
    var f, vs := fields[i], m.slots[i].vs;
    hide ElementsFit, ParseMember, Data, PackedData, Prefixed, RecOk, CountOk, FindField;
    if vs == [] {
      assert FieldRecs(schema, f, m, i) == [];
      assert RestoredAll(schema, vs) == [];
      assert p.slots[i := p.slots[i]] == p.slots;
      assert p.(slots := p.slots) == p;
    } else {
      var r := Rec(f.id, LENGTH_PREFIXED, Prefixed(PackedData(f.ty, vs)));
      assert FieldRecs(schema, f, m, i) == [r];
      assert |r.data| < n by { assert [r][0] == r; }
      hide FieldRecs, RestoredAll, Replay;
      PackedReplay(schema, fields, i, vs, p, n);
      ReplayOne(schema, fields, r, p, n);
    }
  }

  /** What the descriptor and the message say about one repeated field. */
  lemma RepeatedFacts(schema: seq<Desc>, m: Message, i: nat)
    requires WellFormed(schema) && Fits(schema, m) && i < |m.slots|
    requires schema[m.desc].fields[i].rule.Repeated?
    ensures var f := schema[m.desc].fields[i];
            && m.slots[i].List? && ElementsFit(schema, f.ty, m.slots[i].vs)
            && FindField(schema[m.desc].fields, f.id) == i
            && 1 <= f.id < TWO_31 && (f.rule.packed ==> IsPackable(f.ty))
            && CanonSlot(schema, f, m, i) == List(RestoredAll(schema, m.slots[i].vs))
  {
    var d := schema[m.desc];
    var f := d.fields[i];
    assert SlotFits(schema, f, m.slots[i]) && WellFormedField(f, d.groups, |schema|);
    FindFieldExact(d, |schema|, i);
  }

  lemma RepeatedNext(schema: seq<Desc>, m: Message, i: nat)
    requires WellFormed(schema) && Fits(schema, m) && i < |m.slots|
    requires schema[m.desc].fields[i].rule.Repeated?
    ensures var p := Partial(schema, m, i);
            && p.slots[i] == List([]) && m.slots[i].List?
            && Partial(schema, m, i + 1) == p.(slots := p.slots[i := List(RestoredAll(schema, m.slots[i].vs))])
  {
    FitsShape(schema, m);
    RepeatedFacts(schema, m, i);
    EmptyListFirst(schema[m.desc].fields[i]);
    hide *;
    PartialNextSlot(schema, m, i);
    PartialNextUnions(schema, m, i);
    PartialRest(schema, m, i);
  }

  lemma EmptyListFirst(f: Field)
    requires f.rule.Repeated?
    ensures InitSlot(f) == List([])
  {
  }

  lemma RepeatedReplay(schema: seq<Desc>, m: Message, i: nat, n: nat)
    requires WellFormed(schema) && Fits(schema, m) && i < |m.slots| && n <= INT_MAX + 1
    requires schema[m.desc].fields[i].rule.Repeated?
    requires ShorterThan(FieldRecs(schema, schema[m.desc].fields[i], m, i), n)
    ensures var f := schema[m.desc].fields[i];
            RecsOk(FieldRecs(schema, f, m, i)) && CountsOk(schema[m.desc].fields, FieldRecs(schema, f, m, i))
            && Replay(schema, schema[m.desc].fields, FieldRecs(schema, f, m, i), Partial(schema, m, i), n)
               == Done(Partial(schema, m, i + 1))
    decreases m, 3
  {
    RepeatedFacts(schema, m, i);
    RepeatedNext(schema, m, i);
    var d := schema[m.desc];
    var f, p, vs := d.fields[i], Partial(schema, m, i), m.slots[i].vs;
    hide Fits, Partial, RestoredAll, CanonSlot, ElementsFit, ParseMember, Data, PackedData, RecOk, CountOk, FindField;
    if !f.rule.packed {
      assert FieldRecs(schema, f, m, i) == ListRecs(schema, f, vs);
      ListReplay(schema, d.fields, i, vs, p, n);
      assert [] + RestoredAll(schema, vs) == RestoredAll(schema, vs);
    } else {
      PackedFieldReplay(schema, d.fields, m, i, p, n);
    }
  }

  // ----- whole messages -----

  lemma FieldReplay(schema: seq<Desc>, m: Message, i: nat, n: nat)
    requires WellFormed(schema) && Fits(schema, m) && i < |m.slots| && n <= INT_MAX + 1
    requires ShorterThan(FieldRecs(schema, schema[m.desc].fields[i], m, i), n)
    ensures var f := schema[m.desc].fields[i];
            RecsOk(FieldRecs(schema, f, m, i)) && CountsOk(schema[m.desc].fields, FieldRecs(schema, f, m, i))
            && Replay(schema, schema[m.desc].fields, FieldRecs(schema, f, m, i), Partial(schema, m, i), n)
               == Done(Partial(schema, m, i + 1))
    decreases m, 4
  {
    var f := schema[m.desc].fields[i];
    if f.rule.Repeated? {
      RepeatedReplay(schema, m, i, n);
    } else if Emitted(f, m, i).Some? {
      SingularReplay(schema, m, i, n);
    } else {
      PartialNextSlot(schema, m, i);
      PartialNextUnions(schema, m, i);
      PartialRest(schema, m, i);
      hide Fits, WellFormed, Partial, ShorterThan;
      var p := Partial(schema, m, i);
      assert FieldRecs(schema, f, m, i) == [];
      assert p.slots[i := p.slots[i]] == p.slots;
    }
  }

  lemma FieldsRecsNext(schema: seq<Desc>, m: Message, i: nat)
    requires Shaped(schema, m) && 0 < i <= |m.slots|
    ensures FieldsRecs(schema, m, i)
         == FieldsRecs(schema, m, i - 1) + FieldRecs(schema, FieldsOf(schema, m)[i - 1], m, i - 1)
  {
    hide FieldRecs;
  }

  lemma FitsShape(schema: seq<Desc>, m: Message)
    requires Fits(schema, m)
    ensures m.desc < |schema| && |schema[m.desc].fields| == |m.slots| && Shaped(schema, m)
    ensures |Init(schema, m.desc).slots| == |m.slots|
  {
    hide SlotFits, UnionFits, UnknownFits, Recs;
  }

  /** Records that replay one after the other replay together. */
  lemma ReplayBoth(schema: seq<Desc>, fields: seq<Field>, a: seq<Rec>, b: seq<Rec>, start: Message, mid: Message,
                   end: Message, n: nat)
    requires ShorterThan(a + b, n) && ShorterThan(a, n) && ShorterThan(b, n) && |start.slots| == |fields| == |mid.slots|
    requires RecsOk(a) && RecsOk(b) && CountsOk(fields, a) && CountsOk(fields, b) && TagsOk(a) && TagsOk(b)
    requires Replay(schema, fields, a, start, n) == Done(mid) && Replay(schema, fields, b, mid, n) == Done(end)
    ensures RecsOk(a + b) && CountsOk(fields, a + b) && TagsOk(a + b)
    ensures Replay(schema, fields, a + b, start, n) == Done(end)
  {
    SubCounts(fields, a, b);
    SubRecs(a, b, n);
    hide *;
    ReplayAppend(schema, fields, a, b, start, n);
  }

  lemma NoRecords(schema: seq<Desc>, m: Message, n: nat)
    requires Shaped(schema, m) && m.desc < |schema|
    ensures RecsOk(FieldsRecs(schema, m, 0)) && CountsOk(schema[m.desc].fields, FieldsRecs(schema, m, 0))
    ensures TagsOk(FieldsRecs(schema, m, 0)) && ShorterThan(FieldsRecs(schema, m, 0), n)
    ensures Replay(schema, schema[m.desc].fields, FieldsRecs(schema, m, 0), Init(schema, m.desc), n) == Done(Init(schema, m.desc))
  {
    hide CountOk, Init;
  }

  /** The records of the first `i` fields build the message that far. */
  ghost predicate FieldsReplayed(schema: seq<Desc>, m: Message, i: nat, n: nat)
    requires Fits(schema, m) && i <= |m.slots|
  {
    var recs := FieldsRecs(schema, m, i);
    && RecsOk(recs) && TagsOk(recs) && ShorterThan(recs, n) && CountsOk(schema[m.desc].fields, recs)
    && Replay(schema, schema[m.desc].fields, recs, Init(schema, m.desc), n) == Done(Partial(schema, m, i))
  }

  lemma FieldsReplayStart(schema: seq<Desc>, m: Message, n: nat)
    requires Fits(schema, m)
    ensures FieldsReplayed(schema, m, 0, n)
  {
    FitsShape(schema, m);
    PartialStart(schema, m);
    NoRecords(schema, m, n);
    hide Fits, RecsOk, CountsOk, FieldsRecs, ShorterThan, TagsOk, Init, Partial, Replay;
  }

  lemma FieldsReplayNext(schema: seq<Desc>, m: Message, i: nat, n: nat)
    requires Fits(schema, m) && 0 < i <= |m.slots|
    requires FieldsReplayed(schema, m, i - 1, n) && ShorterThan(FieldsRecs(schema, m, i), n)
    requires var fields := schema[m.desc].fields;
             var recs := FieldRecs(schema, fields[i - 1], m, i - 1);
             RecsOk(recs) && TagsOk(recs) && ShorterThan(recs, n) && CountsOk(fields, recs)
             && Replay(schema, fields, recs, Partial(schema, m, i - 1), n) == Done(Partial(schema, m, i))
    ensures FieldsReplayed(schema, m, i, n)
  {
    FitsShape(schema, m);
    FieldsRecsNext(schema, m, i);
    hide Fits, FieldRecs, FieldsRecs, Init, Partial, Replay, ShorterThan, RecsOk, CountsOk, TagsOk;
    var fields := schema[m.desc].fields;
    var a, b := FieldsRecs(schema, m, i - 1), FieldRecs(schema, fields[i - 1], m, i - 1);
    ReplayBoth(schema, fields, a, b, Init(schema, m.desc), Partial(schema, m, i - 1), Partial(schema, m, i), n);
  }

  lemma FieldsAre(schema: seq<Desc>, m: Message)
    requires m.desc < |schema|
    ensures FieldsOf(schema, m) == schema[m.desc].fields
  {
  }

  lemma {:induction false} FieldsReplay(schema: seq<Desc>, m: Message, i: nat, n: nat)
    requires WellFormed(schema) && Fits(schema, m) && i <= |m.slots| && n <= INT_MAX + 1
    requires ShorterThan(FieldsRecs(schema, m, i), n)
    ensures FieldsReplayed(schema, m, i, n)
    decreases m, 5, i
  {
    hide *;
    FitsShape(schema, m);
    if i == 0 {
      FieldsReplayStart(schema, m, n);
    } else {
      FieldsRecsNext(schema, m, i);
      var fields := FieldsOf(schema, m);
      FieldsAre(schema, m);
      var a, b := FieldsRecs(schema, m, i - 1), FieldRecs(schema, fields[i - 1], m, i - 1);
      SubRecs(a, b, n);
      FieldsReplay(schema, m, i - 1, n);
      FieldReplay(schema, m, i - 1, n);
      OkTags(b);
      FieldsReplayNext(schema, m, i, n);
    }
  }

  lemma OkTags(recs: seq<Rec>)
    requires RecsOk(recs)
    ensures TagsOk(recs)
  {
    hide MemberLength;
  }

  lemma PartialStart(schema: seq<Desc>, m: Message)
    requires Fits(schema, m)
    ensures Partial(schema, m, 0) == Init(schema, m.desc)
  {
    hide SlotFits, UnionFits, UnknownFits, Recs;
    assert CanonUnions(schema, m, |m.unions|, 0) == EmptyUnions(|m.unions|);
  }

  lemma PartialEnd(schema: seq<Desc>, m: Message)
    requires Fits(schema, m)
    ensures Partial(schema, m, |m.slots|).(unknown := m.unknown) == Canon(schema, m)
  {
    hide SlotFits, UnionFits, UnknownFits, Recs;
    assert CanonSlots(schema, m, |m.slots|) + [] == CanonSlots(schema, m, |m.slots|);
  }

  ghost predicate UnknownsFit(fields: seq<Field>, us: seq<UnknownField>) {
    forall j :: 0 <= j < |us| ==> UnknownFits(fields, us[j])
  }

  lemma ParseUnknown(schema: seq<Desc>, fields: seq<Field>, u: UnknownField, p: Message, n: nat)
    requires UnknownFits(fields, u) && |p.slots| == |fields| && |u.data| < n
    ensures var r := Rec(u.tag, u.wireType, u.data);
            RecOk(r) && CountOk(fields, r)
            && ParseMember(schema, fields, r, p, n) == Done(p.(unknown := p.unknown + [u]))
  {
  }

  lemma UnknownLast(us: seq<UnknownField>, fields: seq<Field>)
    requires us != [] && UnknownsFit(fields, us)
    ensures var u := us[|us| - 1];
            UnknownFits(fields, u) && UnknownsFit(fields, us[..|us| - 1])
            && UnknownRecs(us) == UnknownRecs(us[..|us| - 1]) + [Rec(u.tag, u.wireType, u.data)]
            && us[..|us| - 1] + [u] == us
  {
    var u := us[|us| - 1];
    assert UnknownFits(fields, u) && u.wireType < 8;
    hide UnknownFits;
  }

  lemma {:induction false} UnknownReplay(schema: seq<Desc>, fields: seq<Field>, us: seq<UnknownField>, p: Message, n: nat)
    requires UnknownsFit(fields, us) && |p.slots| == |fields| && p.unknown == []
    requires ShorterThan(UnknownRecs(us), n)
    ensures RecsOk(UnknownRecs(us)) && CountsOk(fields, UnknownRecs(us))
    ensures Replay(schema, fields, UnknownRecs(us), p, n) == Done(p.(unknown := us))
  {
    if us != [] {
      hide UnknownRecs, UnknownsFit, UnknownFits, ParseMember, CountOk, RecOk, FindField, MemberLength, Replay;
      UnknownLast(us, fields);
      var last := |us| - 1;
      var a, r := UnknownRecs(us[..last]), Rec(us[last].tag, us[last].wireType, us[last].data);
      assert |r.data| < n by { assert (a + [r])[|a|] == r; }
      SubRecs(a, [r], n);
      SubCounts(fields, a, [r]);
      UnknownReplay(schema, fields, us[..last], p, n);
      ParseUnknown(schema, fields, us[last], p.(unknown := us[..last]), n);
      ReplayOne(schema, fields, r, p.(unknown := us[..last]), n);
      ReplayAppend(schema, fields, a, [r], p, n);
    }
  }

  /** The round trip. */
  lemma RoundTrip(schema: seq<Desc>, m: Message)
    requires WellFormed(schema) && Fits(schema, m) && |Enc(schema, m)| <= INT_MAX
    ensures Decode(schema, m.desc, Enc(schema, m)) == Done(Canon(schema, m))
    decreases m, 9
  {
    RecsParts(schema, m);
    hide *;
    var fields, n := schema[m.desc].fields, |Enc(schema, m)|;
    var a, b := FieldsRecs(schema, m, |m.slots|), UnknownRecs(m.unknown);
    RecShorter(a + b);
    SubRecs(a, b, n);
    FieldsReplay(schema, m, |m.slots|, n);
    var p := Partial(schema, m, |m.slots|);
    FieldsReplayedSays(schema, m, |m.slots|, n);
    NoUnknownYet(schema, m);
    UnknownReplay(schema, fields, m.unknown, p, n);
    OkTags(b);
    ReplayBoth(schema, fields, a, b, Init(schema, m.desc), p, p.(unknown := m.unknown), n);
    ScanRecs(a + b);
    PartialEnd(schema, m);
    DecodeReplays(schema, m.desc, Enc(schema, m), a + b);
  }

  /** The records of a message, fewer than the slabs hold. */
  lemma RecsParts(schema: seq<Desc>, m: Message)
    requires Fits(schema, m)
    ensures m.desc < |schema| && |schema[m.desc].fields| == |m.slots| == |FieldsOf(schema, m)|
    ensures |Init(schema, m.desc).slots| == |m.slots| && UnknownsFit(schema[m.desc].fields, m.unknown)
    ensures var recs := FieldsRecs(schema, m, |m.slots|) + UnknownRecs(m.unknown);
            Enc(schema, m) == RecsBytes(recs) && |recs| <= SLAB_CAPACITY
  {
    FitsShape(schema, m);
    hide SlotFits, UnionFits, UnknownFits, FieldsRecs, UnknownRecs, RecsBytes, Init;
  }

  lemma FieldsReplayedSays(schema: seq<Desc>, m: Message, i: nat, n: nat)
    requires Fits(schema, m) && i <= |m.slots| && FieldsReplayed(schema, m, i, n)
    ensures m.desc < |schema| && |m.slots| == |FieldsOf(schema, m)| == |schema[m.desc].fields|
    ensures var recs := FieldsRecs(schema, m, i);
            && RecsOk(recs) && TagsOk(recs) && ShorterThan(recs, n) && CountsOk(schema[m.desc].fields, recs)
            && |Init(schema, m.desc).slots| == |m.slots|
            && Replay(schema, schema[m.desc].fields, recs, Init(schema, m.desc), n) == Done(Partial(schema, m, i))
  {
    FitsShape(schema, m);
    hide Fits, FieldsRecs, Init, Partial, Replay, ShorterThan, RecsOk, CountsOk, TagsOk;
  }

  lemma NoUnknownYet(schema: seq<Desc>, m: Message)
    requires Fits(schema, m)
    ensures Partial(schema, m, |m.slots|).unknown == []
  {
    hide Fits;
  }

  lemma DecodeReplays(schema: seq<Desc>, k: nat, s: seq<byte>, recs: seq<Rec>)
    requires k < |schema| && Scan(s) == Some(recs) && |recs| <= SLAB_CAPACITY && TagsOk(recs) && ShorterThan(recs, |s|)
    requires CountsOk(schema[k].fields, recs) && |Init(schema, k).slots| == |schema[k].fields|
    ensures Decode(schema, k, s) == Replay(schema, schema[k].fields, recs, Init(schema, k), |s|)
  {
    hide Scan, Replay, CountsOk, Init;
  }

  // ----- the decoded message is the same message -----

  /** Equal to every reader: a missing string pointer reads as the empty string. */
  ghost predicate SameValue(a: Value, b: Value)
    decreases a, 0
  {
    match a
    case Msg(m) => b.Msg? && SameMessage(m, b.m)
    case MsgNull => b.MsgNull?
    case Num(_) => a == b
    case Flag(_) => a == b
    case Blob(_) => a == b
    case _ => (b.Text? || b.TextNull? || b.TextDefault?) && Chars(a) == Chars(b)
  }

  ghost predicate SameSlot(a: Slot, b: Slot)
    decreases a, 1
  {
    match a
    case Plain(v) => b.Plain? && SameValue(v, b.v)
    case Maybe(has, v) => b.Maybe? && has == b.has && (has ==> SameValue(v, b.v))
    case List(vs) => b.List? && |vs| == |b.vs| && forall i :: 0 <= i < |vs| ==> SameValue(vs[i], b.vs[i])
    case Shared => b.Shared?
  }

  ghost predicate SameUnion(a: Union, b: Union)
    decreases a, 1
  {
    if a.Empty? then b.Empty? else b.Holding? && a.which == b.which && SameValue(a.v, b.v)
  }

  ghost predicate SameMessage(a: Message, b: Message)
    decreases a, 2
  {
    && a.desc == b.desc && |a.slots| == |b.slots| && |a.unions| == |b.unions| && a.unknown == b.unknown
    && (forall i :: 0 <= i < |a.slots| ==> SameSlot(a.slots[i], b.slots[i]))
    && (forall g :: 0 <= g < |a.unions| ==> SameUnion(a.unions[g], b.unions[g]))
  }

  /** No selected string or message of a oneof is missing, at any depth. */
  predicate OneofsSetIn(v: Value)
    decreases v, 0
  {
    v.Msg? ==> OneofsSet(v.m)
  }

  predicate OneofsSetSlot(s: Slot)
    decreases s, 1
  {
    match s
    case Plain(v) => OneofsSetIn(v)
    case Maybe(has, v) => has ==> OneofsSetIn(v)
    case List(vs) => forall i :: 0 <= i < |vs| ==> OneofsSetIn(vs[i])
    case Shared => true
  }

  predicate OneofsSet(m: Message)
    decreases m, 2
  {
    && (forall i :: 0 <= i < |m.slots| ==> OneofsSetSlot(m.slots[i]))
    && (forall g :: 0 <= g < |m.unions| ==>
          (m.unions[g].Holding? ==> !IsAbsent(m.unions[g].v) && OneofsSetIn(m.unions[g].v)))
  }

  lemma RestoredSame(schema: seq<Desc>, ty: FieldType, v: Value)
    requires ValueFits(schema, ty, v) && WellFormed(schema)
    ensures SameValue(v, Restored(schema, v)) <==> OneofsSetIn(v)
    decreases v, 0
  {
    if v.Msg? {
      MessageFits(schema, ty, v);
      hide *;
      CanonSame(schema, v.m);
      SameInside(schema, v);
    } else {
      hide ValueFits, WellFormed;
    }
  }

  lemma MessageFits(schema: seq<Desc>, ty: FieldType, v: Value)
    requires ValueFits(schema, ty, v) && v.Msg?
    ensures Fits(schema, v.m)
  {
    hide Fits;
  }

  lemma SameInside(schema: seq<Desc>, v: Value)
    requires v.Msg?
    ensures SameValue(v, Restored(schema, v)) <==> SameMessage(v.m, Canon(schema, v.m))
    ensures OneofsSetIn(v) <==> OneofsSet(v.m)
  {
    hide SameMessage, Canon, OneofsSet;
  }

  lemma {:induction false} RestoredAllAt(schema: seq<Desc>, vs: seq<Value>, i: nat)
    requires i < |vs|
    ensures RestoredAll(schema, vs)[i] == Restored(schema, vs[i])
  {
    hide Restored;
    if i > 0 {
      RestoredAllAt(schema, vs[1..], i - 1);
    }
  }

  lemma CanonSlotSame(schema: seq<Desc>, m: Message, i: nat)
    requires Fits(schema, m) && WellFormed(schema) && i < |m.slots|
    ensures SameSlot(m.slots[i], CanonSlot(schema, schema[m.desc].fields[i], m, i)) <==> OneofsSetSlot(m.slots[i])
    decreases m, 1
  {
    var f, slot := schema[m.desc].fields[i], m.slots[i];
    assert SlotFits(schema, f, slot);
    hide Fits, WellFormed, ValueFits, SameValue, OneofsSetIn, Restored, RestoredAll;
    if slot.List? {
      ElementsSame(schema, f.ty, slot.vs);
    } else if !slot.Shared? {
      RestoredSame(schema, f.ty, slot.v);
    }
  }

  lemma ElementsSame(schema: seq<Desc>, ty: FieldType, vs: seq<Value>)
    requires WellFormed(schema) && forall k :: 0 <= k < |vs| ==> ValueFits(schema, ty, vs[k])
    ensures |RestoredAll(schema, vs)| == |vs|
    ensures forall k :: 0 <= k < |vs| ==> (SameValue(vs[k], RestoredAll(schema, vs)[k]) <==> OneofsSetIn(vs[k]))
    decreases vs, 0
  {
    hide *;
    forall k | 0 <= k < |vs| ensures SameValue(vs[k], RestoredAll(schema, vs)[k]) <==> OneofsSetIn(vs[k]) {
      RestoredAllAt(schema, vs, k);
      RestoredSame(schema, ty, vs[k]);
    }
  }

  lemma {:induction false} CanonSlotsAt(schema: seq<Desc>, m: Message, n: nat, i: nat)
    requires i < n <= |m.slots| && n <= |FieldsOf(schema, m)|
    ensures CanonSlots(schema, m, n)[i] == CanonSlot(schema, FieldsOf(schema, m)[i], m, i)
  {
    hide CanonSlot;
    if i < n - 1 {
      CanonSlotsAt(schema, m, n - 1, i);
    }
  }

  lemma CanonUnionSame(schema: seq<Desc>, m: Message, g: nat)
    requires Fits(schema, m) && WellFormed(schema) && g < |m.unions|
    ensures SameUnion(m.unions[g], CanonUnion(schema, schema[m.desc].fields, m.unions[g], |m.slots|))
       <==> (m.unions[g].Holding? ==> !IsAbsent(m.unions[g].v) && OneofsSetIn(m.unions[g].v))
    decreases m, 1
  {
    var fields, u := schema[m.desc].fields, m.unions[g];
    assert UnionFits(schema, fields, g, u);
    if u.Holding? {
      RestoredSame(schema, fields[FindField(fields, u.which)].ty, u.v);
    }
  }

  /** What comes back reads the same exactly when no selected oneof pointer is missing. */
  lemma CanonSame(schema: seq<Desc>, m: Message)
    requires Fits(schema, m) && WellFormed(schema)
    ensures SameMessage(m, Canon(schema, m)) <==> OneofsSet(m)
    decreases m, 3
  {
    FitsShape(schema, m);
    var c := Canon(schema, m);
    forall i | 0 <= i < |m.slots| ensures SameSlot(m.slots[i], c.slots[i]) <==> OneofsSetSlot(m.slots[i]) {
      CanonSlotsAt(schema, m, |m.slots|, i);
      CanonSlotSame(schema, m, i);
    }
    forall g | 0 <= g < |m.unions|
      ensures SameUnion(m.unions[g], c.unions[g])
         <==> (m.unions[g].Holding? ==> !IsAbsent(m.unions[g].v) && OneofsSetIn(m.unions[g].v))
    {
      CanonUnionSame(schema, m, g);
    }
    hide SameSlot, SameUnion, OneofsSetSlot, OneofsSetIn, Fits, WellFormed, IsAbsent;
  }

  /** Decoding undoes encoding, up to what no reader can tell apart. */
  lemma DecodeAfterEncode(schema: seq<Desc>, m: Message)
    requires WellFormed(schema) && Fits(schema, m) && |Enc(schema, m)| <= INT_MAX
    ensures Decode(schema, m.desc, Enc(schema, m)).Done?
    ensures SameMessage(m, Decode(schema, m.desc, Enc(schema, m)).value) <==> OneofsSet(m)
  {
    RoundTrip(schema, m);
    CanonSame(schema, m);
  }

  /** A oneof of one string. */
  function StringChoice(): Desc {
    Desc([Field(1, STRING, Oneof(0))], [IntRange(1, 0), IntRange(0, 1)], 1)
  }

  lemma StringChoiceFits()
    ensures WellFormed([StringChoice()])
  {
    var d := StringChoice();
    assert forall r, j :: InRun(d, r, j) ==> r == 0 && j == 0;
    assert WellFormedField(d.fields[0], 1, 1);
    assert WellFormedDesc(d, 1);
  }

  lemma NullChoiceRecs()
    ensures Recs([StringChoice()], Message(0, [Shared], [Holding(1, TextNull)], [])) == []
  {
    var schema, m := [StringChoice()], Message(0, [Shared], [Holding(1, TextNull)], []);
    var f := Field(1, STRING, Oneof(0));
    assert FieldsOf(schema, m) == [f];
    assert Emitted(f, m, 0) == None;
    assert FieldRecs(schema, f, m, 0) == [];
    assert FieldsRecs(schema, m, 0) == [] && FieldsRecs(schema, m, 1) == [] && UnknownRecs([]) == [];
  }

  /** A oneof that selects a NULL string is not written, so nothing is selected in what comes back. */
  lemma NullChoiceIsLost()
    ensures var schema, m := [StringChoice()], Message(0, [Shared], [Holding(1, TextNull)], []);
            && WellFormed(schema) && Fits(schema, m) && !OneofsSet(m) && Enc(schema, m) == []
            && Decode(schema, 0, []) == Done(Message(0, [Shared], [Empty], []))
  {
    var schema := [StringChoice()];
    StringChoiceFits();
    NullChoiceFits();
    NullChoiceRecs();
    assert RecsBytes([]) == [];
    NothingDecoded(schema);
    hide WellFormed, Recs, Decode, Fits, OneofsSet;
  }

  lemma NullChoiceFits()
    ensures var m := Message(0, [Shared], [Holding(1, TextNull)], []); Fits([StringChoice()], m) && !OneofsSet(m)
  {
    NullMayBeHeld();
    NullChoiceRecs();
    NullIsNoChoice();
    hide Recs, UnionFits, SlotFits, OneofsSet;
  }

  lemma NullMayBeHeld()
    ensures var schema := [StringChoice()];
            UnionFits(schema, schema[0].fields, 0, Holding(1, TextNull)) && SlotFits(schema, schema[0].fields[0], Shared)
  {
    var f := Field(1, STRING, Oneof(0));
    assert StringChoice().fields == [f] && FindField([f], 1) == 0;
    hide FindField;
  }

  lemma NullIsNoChoice()
    ensures !OneofsSet(Message(0, [Shared], [Holding(1, TextNull)], []))
  {
    assert IsAbsent(TextNull);
    var m := Message(0, [Shared], [Holding(1, TextNull)], []);
    assert m.unions[0] == Holding(1, TextNull);
    hide OneofsSetSlot, OneofsSetIn;
  }

  lemma NothingDecoded(schema: seq<Desc>)
    requires schema == [StringChoice()]
    ensures Decode(schema, 0, []) == Done(Message(0, [Shared], [Empty], []))
  {
    assert Scan([]) == Some([]);
    assert schema[0].fields == [Field(1, STRING, Oneof(0))];
    assert InitSlots(schema[0].fields) == [Shared] && EmptyUnions(1) == [Empty];
    hide ParseMember;
  }
}
