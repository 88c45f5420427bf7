/**
 What one more record at the end of an input does to the decoded message, for any input that
 can be decoded: a later value replaces an earlier one, lists grow, submessages are merged,
 unknown fields are kept and a wire type that does not fit is refused.
 */
module WireNext {
  import opened Common
  import opened Bytes
  import opened Varint
  import opened Schema
  import opened WireMessage
  import opened WireFormat
  import opened WireRoundTrip
  import opened WireStructure
  import WireTyped

  // ----- cutting the input into records -----

  /** The member at the front of `s` does not depend on what follows. */
  lemma MemberLengthSame(wireType: nat, s: seq<byte>, rest: seq<byte>)
    requires MemberLength(wireType, s) > 0
    ensures MemberLength(wireType, s + rest) == MemberLength(wireType, s)
  {
    if wireType == VARINT {
      VarintLengthExtends(s, rest, 10);
    } else if wireType == LENGTH_PREFIXED {
      VarintLengthExtends(s, rest, 5);
    }
  }

  lemma DropBoth(s: seq<byte>, rest: seq<byte>, n: nat)
    requires n <= |s|
    ensures (s + rest)[n..] == s[n..] + rest
  {
  }

  lemma ScanMemberSame(s: seq<byte>, rest: seq<byte>)
    requires s != [] && ScanMember(s).Some?
    ensures s + rest != [] && ScanMember(s + rest) == ScanMember(s)
  {
    hide MemberLength, Number, IsVarint;
    VarintLengthExtends(s, rest, 5);
    var used := ParsedTag(s).used;
    assert (s + rest)[used..] == s[used..] + rest by { DropBoth(s, rest, used); }
    MemberLengthSame(ParsedTag(s).wireType, s[used..], rest);
    var len := MemberLength(ParsedTag(s).wireType, s[used..]);
    assert (s + rest)[used..used + len] == s[used..used + len];
  }

  lemma ScanStep(s: seq<byte>)
    requires s != []
    ensures Scan(s) == if ScanMember(s).None? || Scan(s[ScanMember(s).value.1..]).None? then None
                       else Some([ScanMember(s).value.0] + Scan(s[ScanMember(s).value.1..]).value)
  {
    hide ScanMember, TypesOk, ShorterThan;
  }

  lemma NothingFirst(t: seq<byte>)
    ensures [] + t == t && Scan([]) == Some([]) && (Scan(t).Some? ==> [] + Scan(t).value == Scan(t).value)
  {
  }

  /** The records of two inputs, one behind the other. */
  lemma {:induction false} ScanAppend(s: seq<byte>, t: seq<byte>)
    requires Scan(s).Some?
    ensures Scan(s + t) == if Scan(t).Some? then Some(Scan(s).value + Scan(t).value) else None
    decreases |s|
  {
    hide *;
    if s == [] {
      NothingFirst(t);
    } else {
      ScanStep(s);
      ScanMemberSame(s, t);
      ScanStep(s + t);
      var (rec, used) := ScanMember(s).value;
      DropBoth(s, t, used);
      ScanAppend(s[used..], t);
      if Scan(t).Some? {
        var rest := Scan(s[used..]).value;
        assert [rec] + rest + Scan(t).value == [rec] + (rest + Scan(t).value);
      }
    }
  }

  // ----- one more record -----

  lemma ParseBound(schema: seq<Desc>, fields: seq<Field>, r: Rec, m: Message, n: nat, k: nat)
    requires r.tag < TWO_32 && |r.data| < n && |r.data| < k && |m.slots| == |fields|
    ensures ParseMember(schema, fields, r, m, n) == ParseMember(schema, fields, r, m, k)
  {
    var i := FindField(fields, TagAsInt(r.tag));
    if i >= 0 {
      ValueBound(schema, fields[i].ty, r, n, k);
    }
    hide ParseValue, Joined, PackedValues;
  }

  lemma ValueBound(schema: seq<Desc>, ty: FieldType, r: Rec, n: nat, k: nat)
    requires |r.data| < n && |r.data| < k
    ensures ParseValue(schema, ty, r, n) == ParseValue(schema, ty, r, k)
  {
    hide Decode;
  }

  lemma {:induction false} ReplayBound(schema: seq<Desc>, fields: seq<Field>, recs: seq<Rec>, m: Message, n: nat, k: nat)
    requires TagsOk(recs) && ShorterThan(recs, n) && ShorterThan(recs, k) && |m.slots| == |fields|
    ensures Replay(schema, fields, recs, m, n) == Replay(schema, fields, recs, m, k)
    decreases |recs|
  {
    hide ParseMember;
    if recs != [] {
      var prefix := recs[..|recs| - 1];
      ReplayBound(schema, fields, prefix, m, n, k);
      if Replay(schema, fields, prefix, m, n).Done? {
        ParseBound(schema, fields, recs[|recs| - 1], Replay(schema, fields, prefix, m, n).value, n, k);
      }
    }
  }

  /** The slabs have room for one more record. */
  ghost predicate HasRoom(s: seq<byte>) {
    Scan(s).Some? && |Scan(s).value| < 16 * 0x7F_FFFF
  }

  lemma DecodeSays(schema: seq<Desc>, k: nat, s: seq<byte>)
    requires Decode(schema, k, s).Done? && HasRoom(s)
    ensures k < |schema| && |Init(schema, k).slots| == |schema[k].fields|
    ensures var recs, fields := Scan(s).value, schema[k].fields;
            && TagsOk(recs) && ShorterThan(recs, |s|) && |recs| < SLAB_CAPACITY && CountsOk(fields, recs)
            && Decode(schema, k, s) == Replay(schema, fields, recs, Init(schema, k), |s|)
            && |Decode(schema, k, s).value.slots| == |fields|
  {
    ScannedTags(s);
    hide Scan, CountsOk;
  }

  lemma ScannedSays(s: seq<byte>)
    requires Scan(s).Some?
    ensures TagsOk(Scan(s).value) && ShorterThan(Scan(s).value, |s|)
  {
    ScannedTags(s);
  }

  lemma OneMore(fields: seq<Field>, r: Rec, n: nat)
    requires RecOk(r) && CountOk(fields, r)
    ensures CountsOk(fields, [r]) && RecsOk([r]) && r.tag < TWO_32
    ensures ShorterThan([r], n) ==> |r.data| < n
  {
    hide CountOk, MemberLength;
    assert [r][0] == r;
  }

  /** Decoding one record more is parsing it into what has been decoded so far. */
  lemma NextRecord(schema: seq<Desc>, k: nat, s: seq<byte>, r: Rec)
    requires Decode(schema, k, s).Done? && HasRoom(s)
    requires k < |schema| && RecOk(r) && CountOk(schema[k].fields, r)
    ensures |Decode(schema, k, s).value.slots| == |schema[k].fields|
    ensures Decode(schema, k, s + RecBytes(r))
         == ParseMember(schema, schema[k].fields, r, Decode(schema, k, s).value, |r.data| + 1)
  {
    var fields, recs, t := schema[k].fields, Scan(s).value, s + RecBytes(r);
    DecodeSays(schema, k, s);
    OneMore(fields, r, |t|);
    OneRecord(r);
    hide *;
    ScanRecs([r]);
    ScanAppend(s, RecBytes(r));
    ScannedSays(t);
    SubCounts(fields, recs, [r]);
    SubRecs(recs, [r], |t|);
    DecodeReplays(schema, k, t, recs + [r]);
    ReplayAppend(schema, fields, recs, [r], Init(schema, k), |t|);
    ReplayBound(schema, fields, recs, Init(schema, k), |s|, |t|);
    var m := Decode(schema, k, s).value;
    ReplayOne(schema, fields, r, m, |t|);
    ParseBound(schema, fields, r, m, |t|, |r.data| + 1);
  }

  // ----- what the record means -----

  /** The message has the storage that field `i` asks for. */
  ghost predicate PlaceFor(schema: seq<Desc>, k: nat, i: nat, m: Message) {
    && k < |schema| && i < |schema[k].fields| == |m.slots|
    && var f := schema[k].fields[i];
    && (f.rule.Oneof? ==> f.rule.group < |m.unions|)
    && (f.rule.Repeated? ==> m.slots[i].List?)
  }

  /** The message with `v` put into field `i`: the last value of a list, the only one of any other field. */
  ghost function Put(schema: seq<Desc>, k: nat, i: nat, v: Value, m: Message): Message
    requires PlaceFor(schema, k, i, m)
  {
    var f := schema[k].fields[i];
    match f.rule
    case Unlabeled => m.(slots := m.slots[i := Plain(v)])
    case Optional => m.(slots := m.slots[i := if f.ty.STRING? || f.ty.MESSAGE? then Plain(v) else Maybe(true, v)])
    case Oneof(g) => m.(unions := m.unions[g := Holding(f.id, v)])
    case Repeated(_) => m.(slots := m.slots[i := List(m.slots[i].vs + [v])])
  }

  lemma HasPlace(schema: seq<Desc>, k: nat, s: seq<byte>, i: nat)
    requires WellFormed(schema) && k < |schema| && i < |schema[k].fields| && Decode(schema, k, s).Done?
    ensures PlaceFor(schema, k, i, Decode(schema, k, s).value)
    ensures var f := schema[k].fields[i]; FindField(schema[k].fields, f.id) == i && 1 <= f.id < TWO_31
  {
    WireTyped.DecodedTyped(schema, k, s);
    var m, d := Decode(schema, k, s).value, schema[k];
    hide Decode;
    assert SlotTyped(schema, d.fields[i], m.slots[i]);
    assert WellFormedDesc(d, |schema|) && WellFormedField(d.fields[i], d.groups, |schema|);
    FindFieldExact(d, |schema|, i);
  }

  lemma ParsePut(schema: seq<Desc>, k: nat, i: nat, r: Rec, v: Value, m: Message)
    requires PlaceFor(schema, k, i, m) && r.tag == schema[k].fields[i].id < TWO_31
    requires var f := schema[k].fields[i];
             && FindField(schema[k].fields, f.id) == i && !IsPackedMember(f, r)
             && ParseValue(schema, f.ty, r, |r.data| + 1) == Done(v)
             && (v.Msg? && m.slots[i].Plain? ==> !m.slots[i].v.Msg?)
    ensures ParseMember(schema, schema[k].fields, r, m, |r.data| + 1) == Done(Put(schema, k, i, v, m))
    ensures CountOk(schema[k].fields, r)
  {
    hide ParseValue;
  }

  /** The record of a value that is not a message. */
  lemma RecordOf(schema: seq<Desc>, f: Field, v: Value)
    requires WellFormed(schema) && 1 <= f.id < TWO_31 && ValueFits(schema, f.ty, v) && (v.Num? || v.Flag? || v.Text? || v.Blob?)
    requires |ValueBytes(schema, f.id, f.ty, v)| < 0x8000_0000
    ensures var r := Rec(f.id, WireTypeOf(f.ty), Data(schema, f.ty, v));
            && RecBytes(r) == ValueBytes(schema, f.id, f.ty, v) && RecOk(r) && !IsPackedMember(f, r)
            && ParseValue(schema, f.ty, r, |r.data| + 1) == Done(v)
  {
    var r := Rec(f.id, WireTypeOf(f.ty), Data(schema, f.ty, v));
    ValueIs(schema, f.id, f.ty, v);
    assert |r.data| <= |RecBytes(r)|;
    hide ValueBytes, WellFormed, Data, ParseValue, MemberLength, Tag, ScalarData;
    ValueRoundTrip(schema, f.ty, v, f.id, |r.data| + 1);
    FieldRecOk(schema, f, v);
  }

  /** The last occurrence of a number, boolean, string or byte string wins; in a list it is one element more. */
  lemma LaterValue(schema: seq<Desc>, k: nat, s: seq<byte>, i: nat, v: Value)
    requires WellFormed(schema) && k < |schema| && i < |schema[k].fields| && Decode(schema, k, s).Done? && HasRoom(s)
    requires ValueFits(schema, schema[k].fields[i].ty, v) && (v.Num? || v.Flag? || v.Text? || v.Blob?)
    requires |ValueBytes(schema, schema[k].fields[i].id, schema[k].fields[i].ty, v)| < 0x8000_0000
    ensures PlaceFor(schema, k, i, Decode(schema, k, s).value)
    ensures Decode(schema, k, s + ValueBytes(schema, schema[k].fields[i].id, schema[k].fields[i].ty, v))
         == Done(Put(schema, k, i, v, Decode(schema, k, s).value))
  {
    hide *;
    HasPlace(schema, k, s, i);
    RecordOf(schema, schema[k].fields[i], v);
    var f := schema[k].fields[i];
    var r := Rec(f.id, WireTypeOf(f.ty), Data(schema, f.ty, v));
    ParsePut(schema, k, i, r, v, Decode(schema, k, s).value);
    NextRecord(schema, k, s, r);
  }

  /** A record of key, length and contents. */
  lemma PrefixedRecord(id: nat, b: seq<byte>)
    requires 1 <= id < TWO_32 && |b| <= INT_MAX
    ensures var r := Rec(id, LENGTH_PREFIXED, Prefixed(b));
            RecBytes(r) == Encode(8 * id + 2) + Encode(|b|) + b && RecOk(r) && Payload(r) == b && |r.data| > |b|
  {
    PrefixedMember(id, b);
    hide Encode, MemberLength, Payload;
  }

  lemma RecordAt(schema: seq<Desc>, k: nat, s: seq<byte>, i: nat, b: seq<byte>)
    requires WellFormed(schema) && k < |schema| && i < |schema[k].fields| && Decode(schema, k, s).Done? && |b| < 0x8000_0000
    ensures PlaceFor(schema, k, i, Decode(schema, k, s).value)
    ensures var id := schema[k].fields[i].id;
            var r := Rec(id, 2, Prefixed(b));
            && id < TWO_31 && FindField(schema[k].fields, id) == i
            && RecBytes(r) == Encode(8 * id + 2) + Encode(|b|) + b && RecOk(r) && Payload(r) == b
  {
    HasPlace(schema, k, s, i);
    PrefixedRecord(schema[k].fields[i].id, b);
    hide Decode, Encode, RecBytes, RecOk, Payload, PlaceFor;
  }

  /** A string ends at its first zero byte. */
  lemma {:induction false} CStringEnds(t: seq<byte>, rest: seq<byte>)
    requires 0 !in t
    ensures CString(t + [0] + rest) == t
  {
    var b := t + [0] + rest;
    if t != [] {
      CStringEnds(t[1..], rest);
      assert b[1..] == t[1..] + [0] + rest;
      assert [t[0]] + t[1..] == t;
    }
  }

  /** Whatever bytes are sent for a string, the last occurrence wins and ends at its first zero byte. */
  lemma LaterString(schema: seq<Desc>, k: nat, s: seq<byte>, i: nat, t: seq<byte>, b: seq<byte>)
    requires WellFormed(schema) && k < |schema| && i < |schema[k].fields| && Decode(schema, k, s).Done? && HasRoom(s)
    requires schema[k].fields[i].ty.STRING? && |b| < 0x8000_0000
    requires 0 !in t && (b == t || t + [0] <= b)
    ensures PlaceFor(schema, k, i, Decode(schema, k, s).value)
    ensures Decode(schema, k, s + (Encode(8 * schema[k].fields[i].id + 2) + Encode(|b|) + b))
         == Done(Put(schema, k, i, Text(t), Decode(schema, k, s).value))
  {
    hide *;
    var f := schema[k].fields[i];
    var r := Rec(f.id, 2, Prefixed(b));
    HasPlace(schema, k, s, i);
    RecordAt(schema, k, s, i, b);
    StringRecord(schema, f, r, t);
    ParsePut(schema, k, i, r, Text(t), Decode(schema, k, s).value);
    NextRecord(schema, k, s, r);
  }

  lemma StringRecord(schema: seq<Desc>, f: Field, r: Rec, t: seq<byte>)
    requires f.ty.STRING? && r.wireType == 2 && 0 !in t && (Payload(r) == t || t + [0] <= Payload(r))
    ensures !IsPackedMember(f, r) && ParseValue(schema, f.ty, r, |r.data| + 1) == Done(Text(t))
  {
    hide Payload;
    var b := Payload(r);
    if b == t {
      CStringWhole(t);
    } else {
      CStringEnds(t, b[|t| + 1..]);
      assert b == t + [0] + b[|t| + 1..];
    }
  }

  /** The submessage that field `i` holds so far, if it is not in a oneof or a list. */
  function Earlier(f: Field, slot: Slot): Option<Message> {
    if !f.rule.Oneof? && slot.Plain? && slot.v.Msg? then Some(slot.v.m) else None
  }

  /** The message with `sub` in field `i`, merged with what is there already. */
  ghost function PutMessage(schema: seq<Desc>, k: nat, i: nat, sub: Outcome<Message>, m: Message): Outcome<Message>
    requires PlaceFor(schema, k, i, m)
  {
    var earlier := Earlier(schema[k].fields[i], m.slots[i]);
    var all := if sub.Done? && earlier.Some? then Merge(schema, earlier.value, sub.value) else sub;
    if all.Done? then Done(Put(schema, k, i, Msg(all.value), m)) else Failed
  }

  lemma ParseMessage(schema: seq<Desc>, k: nat, i: nat, r: Rec, m: Message)
    requires PlaceFor(schema, k, i, m) && schema[k].fields[i].ty.MESSAGE? && r.wireType == 2
    requires r.tag == schema[k].fields[i].id < TWO_31 && FindField(schema[k].fields, r.tag) == i
    ensures CountOk(schema[k].fields, r)
    ensures ParseMember(schema, schema[k].fields, r, m, |r.data| + 1)
         == PutMessage(schema, k, i, Decode(schema, schema[k].fields[i].ty.desc, Payload(r)), m)
  {
    hide Decode, Merge, Payload;
  }

  /** A submessage takes in what the field holds so far; in a oneof and in a list it does not. */
  lemma LaterMessage(schema: seq<Desc>, k: nat, s: seq<byte>, i: nat, b: seq<byte>)
    requires WellFormed(schema) && k < |schema| && i < |schema[k].fields| && Decode(schema, k, s).Done? && HasRoom(s)
    requires schema[k].fields[i].ty.MESSAGE? && |b| < 0x8000_0000
    ensures PlaceFor(schema, k, i, Decode(schema, k, s).value)
    ensures var f := schema[k].fields[i];
            Decode(schema, k, s + (Encode(8 * f.id + 2) + Encode(|b|) + b))
            == PutMessage(schema, k, i, Decode(schema, f.ty.desc, b), Decode(schema, k, s).value)
  {
    hide *;
    var f := schema[k].fields[i];
    var r := Rec(f.id, 2, Prefixed(b));
    RecordAt(schema, k, s, i, b);
    ParseMessage(schema, k, i, r, Decode(schema, k, s).value);
    NextRecord(schema, k, s, r);
  }

  /** The message with `vs` behind the list of field `i`. */
  ghost function PutAll(schema: seq<Desc>, k: nat, i: nat, vs: seq<Value>, m: Message): Message
    requires PlaceFor(schema, k, i, m) && schema[k].fields[i].rule.Repeated?
  {
    m.(slots := m.slots[i := List(m.slots[i].vs + vs)])
  }

  /** A packed run of elements grows its list, whether the field is declared packed or not. */
  lemma LaterRun(schema: seq<Desc>, k: nat, s: seq<byte>, i: nat, vs: seq<Value>)
    requires WellFormed(schema) && k < |schema| && i < |schema[k].fields| && Decode(schema, k, s).Done? && HasRoom(s)
    requires schema[k].fields[i].rule.Repeated? && forall j :: 0 <= j < |vs| ==> ScalarFits(schema[k].fields[i].ty, vs[j])
    requires IsPackable(schema[k].fields[i].ty) && |ElementsBytes(schema[k].fields[i].ty, vs)| < 0x8000_0000
    ensures PlaceFor(schema, k, i, Decode(schema, k, s).value)
    ensures var f, b := schema[k].fields[i], ElementsBytes(schema[k].fields[i].ty, vs);
            Decode(schema, k, s + (Encode(8 * f.id + 2) + Encode(|b|) + b))
            == Done(PutAll(schema, k, i, vs, Decode(schema, k, s).value))
  {
    hide *;
    var f := schema[k].fields[i];
    var r := Rec(f.id, 2, Prefixed(ElementsBytes(f.ty, vs)));
    RecordAt(schema, k, s, i, ElementsBytes(f.ty, vs));
    ElementsAre(f.ty, vs);
    ParseRun(schema, k, i, r, vs, Decode(schema, k, s).value);
    NextRecord(schema, k, s, r);
  }

  lemma ParseRun(schema: seq<Desc>, k: nat, i: nat, r: Rec, vs: seq<Value>, m: Message)
    requires PlaceFor(schema, k, i, m) && schema[k].fields[i].rule.Repeated? && IsPackable(schema[k].fields[i].ty)
    requires r.tag == schema[k].fields[i].id < TWO_31 && FindField(schema[k].fields, r.tag) == i && r.wireType == 2
    requires forall j :: 0 <= j < |vs| ==> ScalarFits(schema[k].fields[i].ty, vs[j])
    requires Payload(r) == PackedData(schema[k].fields[i].ty, vs)
    ensures CountOk(schema[k].fields, r)
    ensures ParseMember(schema, schema[k].fields, r, m, |r.data| + 1) == Done(PutAll(schema, k, i, vs, m))
  {
    hide PackedData, CountPacked, Payload, PackedValues, ScalarFits;
    PackedRoundTrip(schema[k].fields[i].ty, vs);
    PackedCount(schema[k].fields[i].ty, vs);
  }

  /** A field whose number is not in the descriptor is kept with its wire type and bytes. */
  lemma UnknownIsKept(schema: seq<Desc>, k: nat, s: seq<byte>, id: nat, wireType: nat, data: seq<byte>)
    requires WellFormed(schema) && k < |schema| && Decode(schema, k, s).Done? && HasRoom(s)
    requires 1 <= id < 0x1_0000_0000 && forall i :: 0 <= i < |schema[k].fields| ==> schema[k].fields[i].id != id
    requires wireType < 8 && data != [] && MemberLength(wireType, data) == |data|
    ensures var m := Decode(schema, k, s).value;
            Decode(schema, k, s + (Encode(8 * id + wireType) + data))
            == Done(m.(unknown := m.unknown + [UnknownField(id, wireType, data)]))
  {
    var r := Rec(id, wireType, data);
    assert WellFormedDesc(schema[k], |schema|);
    assert FindField(schema[k].fields, TagAsInt(id)) < 0 by {
      var i := FindField(schema[k].fields, TagAsInt(id));
      assert i >= 0 ==> WellFormedField(schema[k].fields[i], schema[k].groups, |schema|);
    }
    hide MemberLength, Decode, FindField;
    NextRecord(schema, k, s, r);
  }

  /** A member whose wire type is not that of its field's type makes the whole input fail. */
  lemma WrongTypeFails(schema: seq<Desc>, k: nat, s: seq<byte>, i: nat, wireType: nat, data: seq<byte>)
    requires WellFormed(schema) && k < |schema| && i < |schema[k].fields| && Decode(schema, k, s).Done? && HasRoom(s)
    requires wireType < 8 && data != [] && MemberLength(wireType, data) == |data|
    requires var f := schema[k].fields[i];
             && !f.ty.BOOL? && 8 * f.id + wireType != Key(f.id, f.ty)
             && !(f.rule.Repeated? && wireType == 2)
    ensures Decode(schema, k, s + (Encode(8 * schema[k].fields[i].id + wireType) + data)).Failed?
  {
    hide *;
    var f := schema[k].fields[i];
    var r := Rec(f.id, wireType, data);
    HasPlace(schema, k, s, i);
    WrongRecord(f, r);
    ParseFails(schema, k, i, r, Decode(schema, k, s).value);
    NextRecord(schema, k, s, r);
  }

  lemma WrongRecord(f: Field, r: Rec)
    requires 1 <= f.id < TWO_31 && r.tag == f.id && r.wireType < 8 && r.data != []
    requires MemberLength(r.wireType, r.data) == |r.data| && 8 * f.id + r.wireType != Key(f.id, f.ty)
    ensures RecOk(r) && RecBytes(r) == Encode(8 * f.id + r.wireType) + r.data && r.wireType != WireTypeOf(f.ty)
  {
    hide MemberLength, Encode;
  }

  lemma ParseFails(schema: seq<Desc>, k: nat, i: nat, r: Rec, m: Message)
    requires PlaceFor(schema, k, i, m) && r.tag == schema[k].fields[i].id < TWO_31 && FindField(schema[k].fields, r.tag) == i
    requires var f := schema[k].fields[i];
             !f.ty.BOOL? && r.wireType != WireTypeOf(f.ty) && !(f.rule.Repeated? && r.wireType == 2)
    ensures CountOk(schema[k].fields, r)
    ensures ParseMember(schema, schema[k].fields, r, m, |r.data| + 1).Failed?
  {
  }

  /** Only a boolean is read from a member of any wire type: it is true when any value bit of any byte is set. */
  lemma AnyTypeIsBoolean(schema: seq<Desc>, k: nat, s: seq<byte>, i: nat, wireType: nat, data: seq<byte>)
    requires WellFormed(schema) && k < |schema| && i < |schema[k].fields| && Decode(schema, k, s).Done? && HasRoom(s)
    requires wireType < 8 && data != [] && MemberLength(wireType, data) == |data|
    requires schema[k].fields[i].ty.BOOL? && !(schema[k].fields[i].rule.Repeated? && wireType == 2)
    ensures PlaceFor(schema, k, i, Decode(schema, k, s).value)
    ensures Decode(schema, k, s + (Encode(8 * schema[k].fields[i].id + wireType) + data))
         == Done(Put(schema, k, i, Flag(exists j :: 0 <= j < |data| && data[j] % 128 != 0), Decode(schema, k, s).value))
  {
    hide *;
    var f := schema[k].fields[i];
    var r := Rec(f.id, wireType, data);
    HasPlace(schema, k, s, i);
    BooleanRecord(schema, f, r);
    ParsePut(schema, k, i, r, Flag(exists j :: 0 <= j < |data| && data[j] % 128 != 0), Decode(schema, k, s).value);
    NextRecord(schema, k, s, r);
  }

  lemma BooleanRecord(schema: seq<Desc>, f: Field, r: Rec)
    requires 1 <= f.id < TWO_31 && r.tag == f.id && r.wireType < 8 && r.data != [] && MemberLength(r.wireType, r.data) == |r.data|
    requires f.ty.BOOL? && !(f.rule.Repeated? && r.wireType == 2)
    ensures RecOk(r) && RecBytes(r) == Encode(8 * f.id + r.wireType) + r.data && !IsPackedMember(f, r)
    ensures ParseValue(schema, f.ty, r, |r.data| + 1) == Done(Flag(exists j :: 0 <= j < |r.data| && r.data[j] % 128 != 0))
  {
    hide MemberLength, Encode;
  }

  // ----- what is refused -----

  /** Which members can be cut off the front of the input: varints of at most ten bytes, fixed widths, and
      contents behind a length of at most five bytes that is below 2^31. Groups are not supported. */
  lemma MemberAtFront(wireType: nat, s: seq<byte>, n: nat)
    requires 0 < n <= |s|
    ensures MemberLength(wireType, s) == n <==>
            match wireType
            case 0 => n <= 10 && IsVarint(s[..n])
            case 1 => n == 8
            case 2 => exists p :: 1 <= p <= 5 && p <= n && IsVarint(s[..p]) && Number(s[..p]) == n - p < 0x8000_0000
            case 5 => n == 4
            case _ => false
  {
    if wireType == 0 {
      FirstVarint(s, 10, n);
    } else if wireType == 2 {
      forall p | 1 <= p <= 5 && p <= n {
        FirstVarint(s, 5, p);
      }
      assert IsVarint(s[..VarintLength(s, 5)]) || VarintLength(s, 5) == 0;
    }
  }

  /** There is at most one varint at the front of the input. */
  lemma FirstVarint(s: seq<byte>, max: nat, n: nat)
    requires 0 < n <= |s|
    ensures VarintLength(s, max) == n <==> n <= max && IsVarint(s[..n])
  {
    if n <= max && IsVarint(s[..n]) {
      VarintLengthOfVarint(s[..n], s[n..], max);
      assert s[..n] + s[n..] == s;
    }
  }

  /** The tag takes at most five bytes, and its first byte is at least 8. */
  lemma TagAtFront(s: seq<byte>, n: nat)
    requires 0 < n <= |s|
    ensures (exists tag, wireType :: ParsedTag(s) == GotTag(tag, wireType, n)) <==> n <= 5 && IsVarint(s[..n]) && s[0] >= 8
    ensures n <= 5 && IsVarint(s[..n]) && s[0] >= 8 ==>
            ParsedTag(s) == GotTag(Number(s[..n]) / 8, Number(s[..n]) % 8, n)
  {
    FirstVarint(s, 5, n);
  }
}
