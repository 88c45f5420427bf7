/**
 The codec as its callers see it: the three encoders agree, and unpacking what was packed
 gives the message back.
 */
module WireCodec {
  import opened Bytes
  import opened Schema
  import opened WireMessage
  import opened WireFormat
  import opened WireRoundTrip
  import opened WirePack
  import opened WireBuffer
  import WireUnpack

  lemma FitsValuePacks(schema: seq<Desc>, ty: FieldType, v: Value)
    requires WellFormed(schema) && ValueFits(schema, ty, v)
    ensures PackableValue(schema, v)
    decreases v, 0
  {
    if v.Msg? {
      FitsPacks(schema, v.m);
    }
  }

  lemma FitsSlotPacks(schema: seq<Desc>, f: Field, s: Slot)
    requires WellFormed(schema) && SlotFits(schema, f, s)
    ensures PackableSlot(schema, s)
    decreases s, 1
  {
    hide WellFormed;
    if s.List? {
      forall i | 0 <= i < |s.vs| ensures PackableValue(schema, s.vs[i]) {
        FitsValuePacks(schema, f.ty, s.vs[i]);
      }
    } else if !s.Shared? {
      FitsValuePacks(schema, f.ty, s.v);
    }
  }

  /** A message that matches its descriptor meets every demand of the encoders. */
  lemma FitsPacks(schema: seq<Desc>, m: Message)
    requires WellFormed(schema) && Fits(schema, m)
    ensures Packable(schema, m)
    decreases m, 2
  {
    hide WellFormed, SlotFits, PackableSlot, PackableValue, ValueFits, Recs;
    var fields := schema[m.desc].fields;
    forall i | 0 <= i < |m.slots| ensures PackableSlot(schema, m.slots[i]) {
      FitsSlotPacks(schema, fields[i], m.slots[i]);
    }
    forall g | 0 <= g < |m.unions| && m.unions[g].Holding? ensures PackableValue(schema, m.unions[g].v) {
      assert UnionFits(schema, fields, g, m.unions[g]);
      FitsValuePacks(schema, fields[FindField(fields, m.unions[g].which)].ty, m.unions[g].v);
    }
    assert forall j :: 0 <= j < |m.unknown| ==> UnknownFits(fields, m.unknown[j]);
  }

  lemma WellFormedIds(schema: seq<Desc>)
    requires WellFormed(schema)
    ensures FieldIdsOk(schema)
  {
    forall k, i | 0 <= k < |schema| && 0 <= i < |schema[k].fields|
      ensures WellFormedField(schema[k].fields[i], schema[k].groups, |schema|)
    {
      assert WellFormedDesc(schema[k], |schema|);
    }
  }

  /** The three encoders agree on the length and on every byte. */
  method EncodersAgree(schema: seq<Desc>, m: Message) returns (size: nat, flat: array<byte>, buffer: Buffer)
    requires FieldIdsOk(schema) && Packable(schema, m) && |Enc(schema, m)| <= INT_MAX
    ensures size == flat.Length && flat[..] == Enc(schema, m)
    ensures buffer.Valid() && buffer.Contents() == flat[..]
  {
    hide FieldIdsOk, Packable, Enc, Splice;
    size := GetPackedSize(schema, m);
    flat := new byte[size](_ => 0);
    SpliceWhole(flat[..], Enc(schema, m));
    var written := Pack(schema, m, flat, 0);
    buffer := new Buffer(1);
    var appended := PackToBuffer(schema, m, buffer);
    assert written == size == appended;
  }

  /** Unpacking what was packed gives the message back, left-out fields at their defaults. */
  method PackThenUnpack(schema: seq<Desc>, m: Message) returns (o: Outcome<Message>)
    requires WellFormed(schema) && Fits(schema, m) && |Enc(schema, m)| <= INT_MAX
    ensures o == Done(Canon(schema, m))
    ensures SameMessage(m, o.value) <==> OneofsSet(m)
  {
    WellFormedIds(schema);
    FitsPacks(schema, m);
    RoundTrip(schema, m);
    CanonSame(schema, m);
    FitsShape(schema, m);
    hide *;
    var size := GetPackedSize(schema, m);
    var flat := new byte[size](_ => 0);
    ghost var blank := flat[..];
    var written := Pack(schema, m, flat, 0);
    SpliceWhole(blank, Enc(schema, m));
    o := WireUnpack.Unpack(schema, m.desc, flat[..]);
  }
}
