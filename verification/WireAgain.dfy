/**
 Encoding what has been decoded: whatever bytes a message was decoded from, its encoding decodes to
 the same message, unless an unknown field has the number 0 or the members no longer fit the slabs.
 */
module WireAgain {
  import opened Common
  import opened Bytes
  import opened Varint
  import opened Schema
  import opened WireMessage
  import opened WireFormat
  import opened WireRoundTrip
  import opened WireStructure

  // ----- what decoded messages are like -----

  ghost predicate ValueSane(schema: seq<Desc>, ty: FieldType, v: Value)
    decreases v, 0
  {
    match ty
    case BOOL => v.Flag?
    case STRING => v.TextDefault? || (v.Text? && 0 !in v.s)
    case BYTES => v.Blob?
    case MESSAGE(k) => v.MsgNull? || (v.Msg? && v.m.desc == k && Sane(schema, v.m))
    case _ => v.Num? && InRange(ty, v.n)
  }

  ghost predicate SlotSane(schema: seq<Desc>, f: Field, slot: Slot)
    decreases slot, 1
  {
    match f.rule
    case Unlabeled => slot.Plain? && ValueSane(schema, f.ty, slot.v)
    case Optional => (if IsPointer(f.ty) then slot.Plain? else slot.Maybe?) && ValueSane(schema, f.ty, slot.v)
    case Oneof(_) => slot.Shared?
    case Repeated(_) =>
      slot.List? && forall i :: 0 <= i < |slot.vs| ==> ValueSane(schema, f.ty, slot.vs[i]) && !IsAbsent(slot.vs[i])
  }

  ghost predicate UnionSane(schema: seq<Desc>, fields: seq<Field>, g: nat, u: Union)
    decreases u, 1
  {
    u.Holding? ==>
      var i := FindField(fields, u.which);
      i >= 0 && fields[i].rule == Oneof(g) && ValueSane(schema, fields[i].ty, u.v) && !IsAbsent(u.v)
  }

  /** An unknown field as it is cut off the input; its number may be 0. */
  ghost predicate UnknownSane(fields: seq<Field>, u: UnknownField) {
    && u.tag < TWO_32 && FindField(fields, TagAsInt(u.tag)) < 0
    && u.wireType < 8 && |u.data| > 0 && MemberLength(u.wireType, u.data) == |u.data|
  }

  /** Like a message that fits, except for numbers of unknown fields and for the count of records. */
  ghost predicate Sane(schema: seq<Desc>, m: Message)
    decreases m, 2
  {
    && m.desc < |schema|
    && var d := schema[m.desc];
    && |m.slots| == |d.fields| && |m.unions| == d.groups
    && (forall i :: 0 <= i < |m.slots| ==> SlotSane(schema, d.fields[i], m.slots[i]))
    && (forall g :: 0 <= g < |m.unions| ==> UnionSane(schema, d.fields, g, m.unions[g]))
    && (forall j :: 0 <= j < |m.unknown| ==> UnknownSane(d.fields, m.unknown[j]))
  }

  // ----- members -----

  lemma ScalarInRange(ty: FieldType, s: seq<byte>)
    requires IsPackable(ty)
    ensures if ty.BOOL? then ScalarValue(ty, s).Flag? else ScalarValue(ty, s).Num? && InRange(ty, ScalarValue(ty, s).n)
  {
    hide Number, FromLittleEndian;
  }

  /** The numbers that come back from their encoding are exactly those in the range of the type. */
  lemma RangeExactly(ty: FieldType, n: int)
    requires IsPackable(ty) && !ty.BOOL?
    ensures ScalarValue(ty, ScalarData(ty, Num(n))) == Num(n) <==> InRange(ty, n)
  {
    ScalarInRange(ty, ScalarData(ty, Num(n)));
    hide ScalarValue, ScalarData, InRange;
    if InRange(ty, n) {
      IntegerRoundTrip(ty, n);
    }
  }

  lemma {:induction false} CStringPlain(s: seq<byte>)
    ensures 0 !in CString(s)
  {
    if s != [] {
      CStringPlain(s[1..]);
    }
  }

  lemma {:induction false} PackedSane(schema: seq<Desc>, ty: FieldType, s: seq<byte>)
    requires IsPackable(ty)
    ensures forall i :: 0 <= i < |PackedValues(ty, s).0| ==>
              ValueSane(schema, ty, PackedValues(ty, s).0[i]) && !IsAbsent(PackedValues(ty, s).0[i])
    decreases |s|
  {
    hide ScalarValue, InRange;
    var n := if FixedWidth(ty) == 0 then VarintLength(s, 10) else FixedWidth(ty);
    if s != [] && 0 < n <= |s| {
      ScalarInRange(ty, s[..n]);
      PackedSane(schema, ty, s[n..]);
    }
  }

  lemma InitSane(schema: seq<Desc>, k: nat)
    requires k < |schema|
    ensures Sane(schema, Init(schema, k)) && Init(schema, k).desc == k
  {
    var m, fields := Init(schema, k), schema[k].fields;
    forall i | 0 <= i < |fields| ensures SlotSane(schema, fields[i], m.slots[i]) {
      FreshSane(schema, fields[i]);
    }
    hide SlotSane, InitSlot;
  }

  lemma FreshSane(schema: seq<Desc>, f: Field)
    ensures SlotSane(schema, f, InitSlot(f))
  {
    hide Sane;
  }

  lemma ValueIsSane(schema: seq<Desc>, ty: FieldType, r: Rec, n: nat)
    requires WellFormed(schema) && |r.data| < n && ParseValue(schema, ty, r, n).Done?
    ensures var v := ParseValue(schema, ty, r, n).value; ValueSane(schema, ty, v) && !IsAbsent(v)
    decreases n, 0
  {
    match ty {
      case MESSAGE(k) => DecodedSane(schema, k, Payload(r));
      case STRING => CStringPlain(Payload(r));
      case BYTES =>
      case _ => ScalarInRange(ty, r.data);
    }
    hide Decode, Sane, Payload, ScalarValue, CString;
  }

  // ----- merging -----

  lemma {:induction false} MergeSane(schema: seq<Desc>, e: Message, l: Message)
    requires WellFormed(schema) && Sane(schema, e) && Sane(schema, l) && e.desc == l.desc && Merge(schema, e, l).Done?
    ensures Sane(schema, Merge(schema, e, l).value) && Merge(schema, e, l).value.desc == l.desc
    decreases e
  {
    var fields, m := schema[l.desc].fields, Merge(schema, e, l).value;
    IdsStartAtOne(schema, l.desc);
    MergeFieldsAre(schema, fields, |fields|, e, l);
    MergeLeaves(schema, fields, |fields|, e, l);
    forall i | 0 <= i < |fields| ensures SlotSane(schema, fields[i], m.slots[i]) {
      MergedSlotSane(schema, fields, i, e, l, m);
    }
    forall g | 0 <= g < |m.unions| ensures UnionSane(schema, fields, g, m.unions[g]) {
      assert UnionSane(schema, fields, g, e.unions[g]) && UnionSane(schema, fields, g, l.unions[g]);
      assert m.unions[g] in {e.unions[g], l.unions[g]};
    }
  }

  lemma MergedSlotSane(schema: seq<Desc>, fields: seq<Field>, i: nat, e: Message, l: Message, m: Message)
    requires WellFormed(schema) && Sane(schema, e) && Sane(schema, l) && e.desc == l.desc && fields == schema[l.desc].fields
    requires i < |fields| == |m.slots| && |m.unions| == |l.unions| && FieldMerged(schema, fields, i, e, l, m)
    ensures SlotSane(schema, fields[i], m.slots[i])
    decreases e, 0
  {
    var f, es, ls := fields[i], e.slots[i], l.slots[i];
    assert SlotSane(schema, f, es) && SlotSane(schema, f, ls);
    hide Sane, WellFormed, Merge;
    if es.Plain? && ls.Plain? && es.v.Msg? && ls.v.Msg? {
      SubmessageSane(schema, f, es);
      SubmessageSane(schema, f, ls);
      if Merge(schema, es.v.m, ls.v.m).Done? {
        MergeSane(schema, es.v.m, ls.v.m);
      }
    }
  }

  lemma SubmessageSane(schema: seq<Desc>, f: Field, s: Slot)
    requires SlotSane(schema, f, s) && s.Plain? && s.v.Msg?
    ensures f.ty.MESSAGE? && s.v.m.desc == f.ty.desc && Sane(schema, s.v.m)
  {
    hide Sane;
  }

  lemma JoinedSane(schema: seq<Desc>, f: Field, s: Slot, v: Value)
    requires WellFormed(schema) && SlotSane(schema, f, s) && ValueSane(schema, f.ty, v) && Joined(schema, s, v).Done?
    ensures ValueSane(schema, f.ty, Joined(schema, s, v).value)
  {
    hide Sane, Merge;
    if s.Plain? && s.v.Msg? && v.Msg? {
      SubmessageSane(schema, f, s);
      MergeSane(schema, s.v.m, v.m);
    }
  }

  // ----- the two passes -----

  /** A record as it is cut off the input. */
  ghost predicate IsMember(r: Rec) {
    r.tag < TWO_32 && r.wireType < 8 && |r.data| > 0 && MemberLength(r.wireType, r.data) == |r.data|
  }

  ghost predicate AreMembers(recs: seq<Rec>) {
    forall k :: 0 <= k < |recs| ==> IsMember(recs[k])
  }

  lemma MemberAlone(wireType: nat, s: seq<byte>)
    requires MemberLength(wireType, s) > 0
    ensures var len := MemberLength(wireType, s); MemberLength(wireType, s[..len]) == len
  {
    var len := MemberLength(wireType, s);
    if wireType == VARINT {
      VarintLengthOfVarint(s[..len], [], 10);
      assert s[..len] + [] == s[..len];
    } else if wireType == LENGTH_PREFIXED {
      var n := VarintLength(s, 5);
      VarintLengthOfVarint(s[..n], s[n..len], 5);
      assert s[..n] + s[n..len] == s[..len] && s[..len][..n] == s[..n];
    }
  }

  lemma ScanMemberIs(s: seq<byte>)
    requires s != [] && ScanMember(s).Some?
    ensures IsMember(ScanMember(s).value.0)
  {
    hide MemberLength;
    var used := ParsedTag(s).used;
    MemberAlone(ParsedTag(s).wireType, s[used..]);
    var len := MemberLength(ParsedTag(s).wireType, s[used..]);
    assert s[used..][..len] == s[used..used + len];
  }

  lemma {:induction false} ScannedAreMembers(s: seq<byte>)
    requires Scan(s).Some?
    ensures AreMembers(Scan(s).value)
    decreases |s|
  {
    hide ScanMember, IsMember;
    if s != [] {
      ScanMemberIs(s);
      ScannedAreMembers(s[ScanMember(s).value.1..]);
    }
  }

  lemma MemberSane(schema: seq<Desc>, k: nat, r: Rec, m: Message, n: nat)
    requires WellFormed(schema) && k < |schema| && Sane(schema, m) && m.desc == k && IsMember(r) && |r.data| < n
    requires ParseMember(schema, schema[k].fields, r, m, n).Done?
    ensures Sane(schema, ParseMember(schema, schema[k].fields, r, m, n).value)
    decreases n, 1
  {
    hide MemberLength;
    var fields := schema[k].fields;
    var i := FindField(fields, TagAsInt(r.tag));
    if i >= 0 {
      var f := fields[i];
      assert SlotSane(schema, f, m.slots[i]);
      if IsPackedMember(f, r) {
        PackedSane(schema, f.ty, Payload(r));
      } else {
        ValueIsSane(schema, f.ty, r, n);
        if !f.rule.Repeated? && !f.rule.Oneof? {
          JoinedSane(schema, f, m.slots[i], ParseValue(schema, f.ty, r, n).value);
        }
      }
      hide PackedValues, ParseValue, Joined, ValueSane, WellFormed, Payload, UnknownSane;
    }
  }

  lemma {:induction false} ReplaySane(schema: seq<Desc>, k: nat, recs: seq<Rec>, n: nat)
    requires WellFormed(schema) && k < |schema| && AreMembers(recs) && TagsOk(recs) && ShorterThan(recs, n)
    requires Replay(schema, schema[k].fields, recs, Init(schema, k), n).Done?
    ensures Sane(schema, Replay(schema, schema[k].fields, recs, Init(schema, k), n).value)
    decreases n, 2, |recs|
  {
    hide Sane, WellFormed, ParseMember, IsMember;
    if recs == [] {
      InitSane(schema, k);
    } else {
      var prefix := recs[..|recs| - 1];
      ReplaySane(schema, k, prefix, n);
      MemberSane(schema, k, recs[|recs| - 1], Replay(schema, schema[k].fields, prefix, Init(schema, k), n).value, n);
    }
  }

  /** Whatever bytes are decoded. */
  lemma {:induction false} DecodedSane(schema: seq<Desc>, k: nat, s: seq<byte>)
    requires WellFormed(schema) && Decode(schema, k, s).Done?
    ensures Sane(schema, Decode(schema, k, s).value) && Decode(schema, k, s).value.desc == k
    decreases |s|, 3
  {
    ScannedTags(s);
    ScannedAreMembers(s);
    hide Sane, WellFormed, Scan, Replay;
    ReplaySane(schema, k, Scan(s).value, |s|);
  }

  // ----- encoding it again -----

  ghost predicate WritableIn(schema: seq<Desc>, v: Value)
    decreases v, 0
  {
    v.Msg? ==> Writable(schema, v.m)
  }

  ghost predicate WritableSlot(schema: seq<Desc>, s: Slot)
    decreases s, 1
  {
    match s
    case Plain(v) => WritableIn(schema, v)
    case List(vs) => forall i :: 0 <= i < |vs| ==> WritableIn(schema, vs[i])
    case _ => true
  }

  /** At any depth no unknown field has the number 0, and there are no more members than the slabs hold. */
  ghost predicate Writable(schema: seq<Desc>, m: Message)
    decreases m, 2
  {
    && (forall i :: 0 <= i < |m.slots| ==> WritableSlot(schema, m.slots[i]))
    && (forall g :: 0 <= g < |m.unions| ==> (m.unions[g].Holding? ==> WritableIn(schema, m.unions[g].v)))
    && (forall j :: 0 <= j < |m.unknown| ==> m.unknown[j].tag > 0)
    && |Recs(schema, m)| <= 16 * 0x7F_FFFF
  }

  lemma {:induction false} ValueAgain(schema: seq<Desc>, ty: FieldType, v: Value)
    requires ValueSane(schema, ty, v)
    ensures ValueFits(schema, ty, v) <==> WritableIn(schema, v)
    ensures !v.TextNull? && (v.MsgNull? ==> IsAbsent(v))
    decreases v, 0
  {
    if ty.MESSAGE? && v.Msg? {
      FitsAgain(schema, v.m);
    }
    hide Sane, Fits, Writable;
  }

  lemma {:induction false} SlotAgain(schema: seq<Desc>, f: Field, s: Slot)
    requires SlotSane(schema, f, s)
    ensures SlotFits(schema, f, s) <==> WritableSlot(schema, s)
    decreases s, 1
  {
    match f.rule {
      case Unlabeled => ValueAgain(schema, f.ty, s.v);
      case Optional => ValueAgain(schema, f.ty, s.v);
      case Oneof(_) =>
      case Repeated(_) =>
        forall i | 0 <= i < |s.vs|
          ensures ValueFits(schema, f.ty, s.vs[i]) <==> WritableIn(schema, s.vs[i])
          ensures !s.vs[i].TextNull? && !s.vs[i].MsgNull?
        {
          ValueAgain(schema, f.ty, s.vs[i]);
        }
    }
    hide ValueSane, ValueFits, Writable;
  }

  lemma {:induction false} UnionAgain(schema: seq<Desc>, fields: seq<Field>, g: nat, u: Union)
    requires UnionSane(schema, fields, g, u)
    ensures UnionFits(schema, fields, g, u) <==> (u.Holding? ==> WritableIn(schema, u.v))
    decreases u, 1
  {
    if u.Holding? {
      ValueAgain(schema, fields[FindField(fields, u.which)].ty, u.v);
    }
    hide ValueSane, ValueFits, Writable;
  }

  /** What the decoder builds can be encoded exactly when it is writable. */
  lemma {:induction false} FitsAgain(schema: seq<Desc>, m: Message)
    requires Sane(schema, m)
    ensures Fits(schema, m) <==> Writable(schema, m)
    decreases m, 2
  {
    var d := schema[m.desc];
    forall i | 0 <= i < |m.slots| ensures SlotFits(schema, d.fields[i], m.slots[i]) <==> WritableSlot(schema, m.slots[i]) {
      SlotAgain(schema, d.fields[i], m.slots[i]);
    }
    forall g | 0 <= g < |m.unions|
      ensures UnionFits(schema, d.fields, g, m.unions[g]) <==> (m.unions[g].Holding? ==> WritableIn(schema, m.unions[g].v))
    {
      UnionAgain(schema, d.fields, g, m.unions[g]);
    }
    hide SlotSane, SlotFits, UnionSane, UnionFits, WritableSlot, WritableIn, MemberLength, Recs, FindField;
  }

  lemma {:induction false} SaneOneofsIn(schema: seq<Desc>, ty: FieldType, v: Value)
    requires ValueSane(schema, ty, v)
    ensures OneofsSetIn(v)
    decreases v, 0
  {
    if v.Msg? {
      SaneOneofs(schema, v.m);
    }
    hide Sane;
  }

  lemma {:induction false} SaneOneofsSlot(schema: seq<Desc>, f: Field, s: Slot)
    requires SlotSane(schema, f, s)
    ensures OneofsSetSlot(s)
    decreases s, 1
  {
    match s {
      case Plain(v) => SaneOneofsIn(schema, f.ty, v);
      case Maybe(_, v) => SaneOneofsIn(schema, f.ty, v);
      case List(vs) =>
        forall i | 0 <= i < |vs| ensures OneofsSetIn(vs[i]) {
          SaneOneofsIn(schema, f.ty, vs[i]);
        }
      case Shared =>
    }
    hide ValueSane, OneofsSetIn;
  }

  /** What a decoded oneof selects is there. */
  lemma {:induction false} SaneOneofs(schema: seq<Desc>, m: Message)
    requires Sane(schema, m)
    ensures OneofsSet(m)
    decreases m, 2
  {
    var d := schema[m.desc];
    forall i | 0 <= i < |m.slots| ensures OneofsSetSlot(m.slots[i]) {
      SaneOneofsSlot(schema, d.fields[i], m.slots[i]);
    }
    forall g | 0 <= g < |m.unions| && m.unions[g].Holding? ensures !IsAbsent(m.unions[g].v) && OneofsSetIn(m.unions[g].v) {
      assert UnionSane(schema, d.fields, g, m.unions[g]);
      SaneOneofsIn(schema, d.fields[FindField(d.fields, m.unions[g].which)].ty, m.unions[g].v);
    }
    hide SlotSane, UnionSane, OneofsSetSlot, OneofsSetIn;
  }

  /**
   Decoding, encoding and decoding again gives the same message to every reader, for input of any
   bytes from which a writable message is decoded.
   */
  lemma DecodeEncodeDecode(schema: seq<Desc>, k: nat, s: seq<byte>)
    requires WellFormed(schema) && Decode(schema, k, s).Done? && Writable(schema, Decode(schema, k, s).value)
    requires |Enc(schema, Decode(schema, k, s).value)| < 0x8000_0000
    ensures var m := Decode(schema, k, s).value;
            && Fits(schema, m) && Decode(schema, k, Enc(schema, m)).Done?
            && SameMessage(m, Decode(schema, k, Enc(schema, m)).value)
  {
    DecodedSane(schema, k, s);
    var m := Decode(schema, k, s).value;
    FitsAgain(schema, m);
    SaneOneofs(schema, m);
    hide *;
    DecodeAfterEncode(schema, m);
  }

  // ----- a field number that is lost -----

  function Nameless(): Message {
    Message(0, [Plain(TextDefault)], [], [UnknownField(0, 0, [5])])
  }

  /** The tag 80 00 is a varint of two bytes for the number 0. */
  lemma NamelessScanned()
    ensures Scan([0x80, 0, 5]) == Some([Rec(0, 0, [5])])
  {
    var s: seq<byte> := [0x80, 0, 5];
    assert s[1..] == [0, 5] && s[..2] == [0x80, 0] && s[2..] == [5] && s[2..3] == [5] && s[3..] == [];
    assert Number([0x80, 0]) == 0 by {
      assert [0x80 as byte, 0 as byte][1..] == [0] && [0 as byte][1..] == [];
    }
    assert VarintLength([0, 5], 4) == 1 && VarintLength(s, 5) == 2;
    assert ParsedTag(s) == GotTag(0, 0, 2);
    assert MemberLength(0, [5]) == 1;
    assert ScanMember(s) == Some((Rec(0, 0, [5]), 3));
    assert Scan([]) == Some([]) && [Rec(0, 0, [5])] + [] == [Rec(0, 0, [5])];
    hide ScanMember;
  }

  lemma NamelessDecoded()
    ensures Decode([Letters()], 0, [0x80, 0, 5]) == Done(Nameless())
  {
    var schema, r := [Letters()], Rec(0, 0, [5]);
    var fields, recs := schema[0].fields, [r];
    NamelessScanned();
    assert fields == [Field(1, STRING, Unlabeled)] && FindField(fields, 0) < 0;
    var start := Init(schema, 0);
    assert start == Message(0, [Plain(TextDefault)], [], []);
    ReplayOne(schema, fields, r, start, 3);
    assert [] + [UnknownField(0, 0, [5])] == [UnknownField(0, 0, [5])];
    assert ParseMember(schema, fields, r, start, 3) == Done(Nameless());
    assert CountsOk(fields, recs);
    hide Scan, ParseMember, Init;
    DecodeReplays(schema, 0, [0x80, 0, 5], recs);
  }

  lemma NamelessEncoded()
    ensures Enc([Letters()], Nameless()) == [0, 5]
  {
    var schema, m := [Letters()], Nameless();
    assert FieldsOf(schema, m) == [Field(1, STRING, Unlabeled)];
    assert FieldsRecs(schema, m, 0) == [] && FieldRecs(schema, FieldsOf(schema, m)[0], m, 0) == [] && FieldsRecs(schema, m, 1) == [];
    assert UnknownRecs(m.unknown) == [Rec(0, 0, [5])];
    assert Recs(schema, m) == [Rec(0, 0, [5])];
    OneRecord(Rec(0, 0, [5]));
    assert Encode(0) == [0];
  }

  /** A tag of two bytes for the number 0 is accepted, but encoded again it is not. */
  lemma ZeroIsLost()
    ensures var schema := [Letters()];
            && Decode(schema, 0, [0x80, 0, 5]) == Done(Nameless()) && Enc(schema, Nameless()) == [0, 5]
            && Decode(schema, 0, [0, 5]) == Failed
  {
    NamelessDecoded();
    NamelessEncoded();
    hide Decode, Enc;
    assert Decode([Letters()], 0, [0, 5]) == Failed by { ZeroRefused(); }
  }

  lemma ZeroRefused()
    ensures Decode([Letters()], 0, [0, 5]) == Failed
  {
    assert Scan([0, 5]) == None;
  }
}
