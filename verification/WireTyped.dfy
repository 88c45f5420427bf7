/** Whatever the input bytes are, the decoder builds messages that match their descriptors. */
module WireTyped {
  import opened Common
  import opened Bytes
  import Varint
  import opened Schema
  import opened WireMessage
  import opened WireFormat

  lemma ScalarTyped(schema: seq<Desc>, ty: FieldType, s: seq<byte>)
    requires IsPackable(ty)
    ensures ValueTyped(schema, ty, ScalarValue(ty, s))
  {
  }

  lemma {:induction false} PackedTyped(schema: seq<Desc>, ty: FieldType, s: seq<byte>)
    requires IsPackable(ty)
    ensures forall i :: 0 <= i < |PackedValues(ty, s).0| ==> ValueTyped(schema, ty, PackedValues(ty, s).0[i])
    decreases |s|
  {
    hide ScalarValue, ValueTyped;
    var n := if FixedWidth(ty) == 0 then Varint.VarintLength(s, 10) else FixedWidth(ty);
    if s != [] && 0 < n <= |s| {
      ScalarTyped(schema, ty, s[..n]);
      PackedTyped(schema, ty, s[n..]);
    }
  }

  lemma InitTyped(schema: seq<Desc>, k: nat)
    requires k < |schema|
    ensures Typed(schema, Init(schema, k)) && Init(schema, k).desc == k
  {
    var m, fields := Init(schema, k), schema[k].fields;
    forall i | 0 <= i < |fields| ensures SlotTyped(schema, fields[i], m.slots[i]) {
      FreshTyped(schema, fields[i]);
    }
    hide SlotTyped, InitSlot;
  }

  lemma FreshTyped(schema: seq<Desc>, f: Field)
    ensures SlotTyped(schema, f, InitSlot(f))
  {
    hide Typed;
  }

  /** `parse_required_member` */
  lemma ValueIsTyped(schema: seq<Desc>, ty: FieldType, r: Rec, n: nat)
    requires WellFormed(schema) && |r.data| < n && ParseValue(schema, ty, r, n).Done?
    ensures ValueTyped(schema, ty, ParseValue(schema, ty, r, n).value)
    decreases n, 0
  {
    if ty.MESSAGE? {
      DecodedTyped(schema, ty.desc, Payload(r));
    }
    hide Decode, Typed, Payload;
  }

  lemma JoinedTyped(schema: seq<Desc>, f: Field, s: Slot, v: Value)
    requires WellFormed(schema) && SlotTyped(schema, f, s) && ValueTyped(schema, f.ty, v) && Joined(schema, s, v).Done?
    ensures ValueTyped(schema, f.ty, Joined(schema, s, v).value)
  {
    hide Typed, Merge;
    if s.Plain? && s.v.Msg? && v.Msg? {
      SubmessageTyped(schema, f, s);
      MergeTyped(schema, s.v.m, v.m);
    }
  }

  /** `parse_member` */
  lemma MemberTyped(schema: seq<Desc>, k: nat, r: Rec, m: Message, n: nat)
    requires WellFormed(schema) && k < |schema| && Typed(schema, m) && m.desc == k && r.tag < TWO_32 && |r.data| < n
    requires ParseMember(schema, schema[k].fields, r, m, n).Done?
    ensures Typed(schema, ParseMember(schema, schema[k].fields, r, m, n).value)
    decreases n, 1
  {
    var fields := schema[k].fields;
    var i := FindField(fields, TagAsInt(r.tag));
    if i >= 0 {
      var f := fields[i];
      assert SlotTyped(schema, f, m.slots[i]);
      if IsPackedMember(f, r) {
        PackedTyped(schema, f.ty, Payload(r));
      } else {
        ValueIsTyped(schema, f.ty, r, n);
        if !f.rule.Repeated? && !f.rule.Oneof? {
          JoinedTyped(schema, f, m.slots[i], ParseValue(schema, f.ty, r, n).value);
        }
      }
      hide PackedValues, ParseValue, Joined, ValueTyped, WellFormed, Payload;
    }
  }

  lemma {:induction false} ReplayTyped(schema: seq<Desc>, k: nat, recs: seq<Rec>, n: nat)
    requires WellFormed(schema) && k < |schema| && TagsOk(recs) && ShorterThan(recs, n)
    requires Replay(schema, schema[k].fields, recs, Init(schema, k), n).Done?
    ensures Typed(schema, Replay(schema, schema[k].fields, recs, Init(schema, k), n).value)
    decreases n, 2, |recs|
  {
    if recs == [] {
      InitTyped(schema, k);
    } else {
      hide Typed, WellFormed, ParseMember;
      var prefix := recs[..|recs| - 1];
      ReplayTyped(schema, k, prefix, n);
      MemberTyped(schema, k, recs[|recs| - 1], Replay(schema, schema[k].fields, prefix, Init(schema, k), n).value, n);
    }
  }

  /** `protobuf_c_message_unpack` */
  lemma {:induction false} DecodedTyped(schema: seq<Desc>, k: nat, s: seq<byte>)
    requires WellFormed(schema) && Decode(schema, k, s).Done?
    ensures Typed(schema, Decode(schema, k, s).value) && Decode(schema, k, s).value.desc == k
    decreases |s|, 3
  {
    ScannedTags(s);
    hide Typed, WellFormed, Scan, Replay;
    ReplayTyped(schema, k, Scan(s).value, |s|);
  }
}
