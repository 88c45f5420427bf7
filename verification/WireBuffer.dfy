/**
 The encoder that appends to a growing buffer. It appends exactly the reference encoding, so
 it agrees byte for byte with the encoder into a flat buffer and with the length calculator.
 */
module WireBuffer {
  import opened Common
  import opened Bytes
  import opened Varint
  import opened Schema
  import opened WireMessage
  import opened WireFormat
  import opened WirePack

  /** `ProtobufCBufferSimple` */
  class Buffer {
    var data: array<byte>
    var len: nat

    ghost predicate Valid()
      reads this
    {
      0 < data.Length && len <= data.Length
    }

    ghost function Contents(): seq<byte>
      requires Valid()
      reads this, data
    {
      data[..len]
    }

    constructor (alloced: nat)
      requires alloced > 0
      ensures Valid() && fresh(data) && Contents() == []
    {
      data := new byte[alloced];
      len := 0;
    }

    /** `protobuf_c_buffer_simple_append`: doubles the allocation until the bytes fit. */
    method Append(s: seq<byte>)
      requires Valid()
      modifies this, data
      ensures Valid() && (data == old(data) || fresh(data))
      ensures Contents() == old(Contents()) + s
    {
      var newLen := len + |s|;
      if newLen > data.Length {
        var newAlloced := data.Length * 2;
        while newAlloced < newLen
          invariant newAlloced > 0
        {
          newAlloced := newAlloced + newAlloced;
        }
        var newData := new byte[newAlloced];
        forall i | 0 <= i < len {
          newData[i] := data[i];
        }
        data := newData;
      }
      forall i | 0 <= i < |s| {
        data[len + i] := s[i];
      }
      len := newLen;
    }
  }

  /** What was written at the start of a scratch area. */
  lemma ScratchRead(base: seq<byte>, s: seq<byte>)
    requires |s| <= |base|
    ensures Splice(base, 0, s)[..|s|] == s
  {
  }

  /** A tag, and a varint or fixed-size value after it, collected in a scratch area first. */
  method AppendTagged(id: nat, wireType: nat, ty: FieldType, v: Value, buf: Buffer)
    requires buf.Valid() && id < TWO_32 && wireType < 8 && IsPackable(ty)
    modifies buf, buf.data
    ensures buf.Valid() && (buf.data == old(buf.data) || fresh(buf.data))
    ensures buf.Contents() == old(buf.Contents()) + (Tag(id, wireType) + ScalarData(ty, v))
  {
    hide Splice, Tag, ScalarData;
    TagSizeExact(id, wireType);
    ScalarBounds(ty, v);
    var scratch := new byte[20];
    ghost var base := scratch[..];
    var rv := PackTag(id, wireType, scratch, 0);
    ghost var b1 := scratch[..];
    var n := PackScalar(ty, v, scratch, rv);
    ThenWrite(base, 0, Tag(id, wireType), b1, ScalarData(ty, v), scratch[..]);
    ScratchRead(base, Tag(id, wireType) + ScalarData(ty, v));
    assert scratch[..rv + n] == scratch[..][..rv + n];
    buf.Append(scratch[..rv + n]);
  }

  /** A tag and a length. */
  method AppendHeader(id: nat, len: nat, buf: Buffer) returns (rv: nat)
    requires buf.Valid() && id < TWO_32 && len < TWO_32
    modifies buf, buf.data
    ensures buf.Valid() && (buf.data == old(buf.data) || fresh(buf.data))
    ensures buf.Contents() == old(buf.Contents()) + (Tag(id, LENGTH_PREFIXED) + Encode(len))
    ensures rv == |Tag(id, LENGTH_PREFIXED) + Encode(len)|
  {
    hide Splice, Tag, Encode;
    TagSizeExact(id, LENGTH_PREFIXED);
    Uint32SizeExact(len);
    var scratch := new byte[20];
    ghost var base := scratch[..];
    rv := PackTag(id, LENGTH_PREFIXED, scratch, 0);
    ghost var b1 := scratch[..];
    var n := PackUint32(len, scratch, rv);
    ThenWrite(base, 0, Tag(id, LENGTH_PREFIXED), b1, Encode(len), scratch[..]);
    ScratchRead(base, Tag(id, LENGTH_PREFIXED) + Encode(len));
    assert scratch[..rv + n] == scratch[..][..rv + n];
    buf.Append(scratch[..rv + n]);
    rv := rv + n;
  }

  /** `required_field_pack_to_buffer` */
  method RequiredFieldPackToBuffer(schema: seq<Desc>, f: Field, v: Value, buf: Buffer) returns (rv: nat)
    requires buf.Valid() && FieldIdsOk(schema) && PackableValue(schema, v) && |Data(schema, f.ty, v)| <= INT_MAX
    requires 1 <= f.id < TWO_31
    modifies buf, buf.data
    ensures buf.Valid() && (buf.data == old(buf.data) || fresh(buf.data))
    ensures buf.Contents() == old(buf.Contents()) + RecBytes(ValueRec(schema, f, v))
    ensures rv == |RecBytes(ValueRec(schema, f, v))|
    decreases v, 1
  {
    hide Tag, Encode, ScalarData;
    if IsPackable(f.ty) {
      AppendTagged(f.id, WireTypeOf(f.ty), f.ty, v, buf);
      rv := RequiredFieldGetPackedSize(schema, f, v);
    } else if f.ty.MESSAGE? && v.Msg? {
      rv := SubmessageToBuffer(schema, f.id, v.m, buf);
    } else {
      rv := CharsToBuffer(f.id, Chars(v), buf);
    }
  }

  method SubmessageToBuffer(schema: seq<Desc>, id: nat, m: Message, buf: Buffer) returns (rv: nat)
    requires buf.Valid() && FieldIdsOk(schema) && Packable(schema, m) && |Enc(schema, m)| <= INT_MAX
    requires id < TWO_32
    modifies buf, buf.data
    ensures buf.Valid() && (buf.data == old(buf.data) || fresh(buf.data))
    ensures buf.Contents() == old(buf.Contents()) + (Tag(id, LENGTH_PREFIXED) + Prefixed(Enc(schema, m)))
    ensures rv == |Tag(id, LENGTH_PREFIXED) + Prefixed(Enc(schema, m))|
    decreases m, 11
  {
    hide Tag, Encode, Enc, FieldIdsOk, Packable;
    ghost var start := buf.Contents();
    var sublen := GetPackedSize(schema, m);
    rv := AppendHeader(id, sublen, buf);
    var n := PackToBuffer(schema, m, buf);
    AppendAssociates(Tag(id, LENGTH_PREFIXED), Encode(sublen), Enc(schema, m));
    AppendAssociates(start, Tag(id, LENGTH_PREFIXED) + Encode(sublen), Enc(schema, m));
    rv := rv + sublen;
  }

  method CharsToBuffer(id: nat, s: seq<byte>, buf: Buffer) returns (rv: nat)
    requires buf.Valid() && id < TWO_32 && |s| < TWO_32
    modifies buf, buf.data
    ensures buf.Valid() && (buf.data == old(buf.data) || fresh(buf.data))
    ensures buf.Contents() == old(buf.Contents()) + (Tag(id, LENGTH_PREFIXED) + Prefixed(s))
    ensures rv == |Tag(id, LENGTH_PREFIXED) + Prefixed(s)|
  {
    hide Tag, Encode;
    ghost var start := buf.Contents();
    rv := AppendHeader(id, |s|, buf);
    buf.Append(s);
    AppendAssociates(Tag(id, LENGTH_PREFIXED), Encode(|s|), s);
    AppendAssociates(start, Tag(id, LENGTH_PREFIXED) + Encode(|s|), s);
    rv := rv + |s|;
  }

  lemma AppendAssociates(a: seq<byte>, b: seq<byte>, c: seq<byte>)
    ensures (a + b) + c == a + (b + c)
  {
  }

  /** `pack_buffer_packed_payload`; the fixed-width arrays of the source go in one piece. */
  method PackPayloadToBuffer(ty: FieldType, vs: seq<Value>, buf: Buffer) returns (rv: nat)
    requires buf.Valid() && IsPackable(ty)
    modifies buf, buf.data
    ensures buf.Valid() && (buf.data == old(buf.data) || fresh(buf.data))
    ensures buf.Contents() == old(buf.Contents()) + PackedData(ty, vs) && rv == |PackedData(ty, vs)|
  {
    hide PackedData, ScalarData, Splice;
    ghost var start := buf.Contents();
    ghost var done: seq<byte> := [];
    NoElements(ty);
    assert vs[..0] == [];
    rv := 0;
    var i := 0;
    while i < |vs|
      invariant 0 <= i <= |vs| && rv == |done| && done == PackedData(ty, vs[..i])
      invariant buf.Valid() && (buf.data == old(buf.data) || fresh(buf.data))
      invariant buf.Contents() == start + done
    {
      PackedNext(ty, vs, i);
      ScalarBounds(ty, vs[i]);
      var scratch := new byte[16];
      ghost var base := scratch[..];
      var n := PackScalar(ty, vs[i], scratch, 0);
      ScratchRead(base, ScalarData(ty, vs[i]));
      assert scratch[..n] == scratch[..][..n];
      buf.Append(scratch[..n]);
      AppendAssociates(start, done, ScalarData(ty, vs[i]));
      done := done + ScalarData(ty, vs[i]);
      rv := rv + n;
      i := i + 1;
    }
    assert vs[..|vs|] == vs;
  }

  /** `repeated_field_pack_to_buffer`, packed branch. */
  method PackedFieldPackToBuffer(f: Field, vs: seq<Value>, buf: Buffer) returns (rv: nat)
    requires buf.Valid() && IsPackable(f.ty) && 1 <= f.id < TWO_31 && |PackedData(f.ty, vs)| <= INT_MAX
    modifies buf, buf.data
    ensures buf.Valid() && (buf.data == old(buf.data) || fresh(buf.data))
    ensures var r := Rec(f.id, LENGTH_PREFIXED, Prefixed(PackedData(f.ty, vs)));
            buf.Contents() == old(buf.Contents()) + RecBytes(r) && rv == |RecBytes(r)|
  {
    hide PackedData, Encode, Tag;
    var payloadLen := PackedElementsSize(f.ty, vs);
    rv := AppendHeader(f.id, payloadLen, buf);
    var tmp := PackPayloadToBuffer(f.ty, vs, buf);
    assert tmp == payloadLen;
    AppendAssociates(Tag(f.id, LENGTH_PREFIXED), Encode(payloadLen), PackedData(f.ty, vs));
    rv := rv + payloadLen;
  }

  /** The other branch. */
  method UnpackedFieldPackToBuffer(schema: seq<Desc>, f: Field, vs: seq<Value>, ghost slot: Slot, buf: Buffer)
    returns (rv: nat)
    requires buf.Valid() && FieldIdsOk(schema) && 1 <= f.id < TWO_31 && slot == List(vs) && PackableSlot(schema, slot)
    requires |RecsBytes(ListRecs(schema, f, vs))| <= INT_MAX
    modifies buf, buf.data
    ensures buf.Valid() && (buf.data == old(buf.data) || fresh(buf.data))
    ensures buf.Contents() == old(buf.Contents()) + RecsBytes(ListRecs(schema, f, vs))
    ensures rv == |RecsBytes(ListRecs(schema, f, vs))|
    decreases slot, 2
  {
    ghost var start := buf.Contents();
    ghost var done: seq<byte> := [];
    EmptyList(schema, f);
    assert vs[..0] == [];
    hide RecsBytes, ListRecs, RecBytes, FieldIdsOk, PackableValue;
    rv := 0;
    var i := 0;
    while i < |vs|
      invariant 0 <= i <= |vs| && rv == |done| && done == RecsBytes(ListRecs(schema, f, vs[..i]))
      invariant buf.Valid() && (buf.data == old(buf.data) || fresh(buf.data))
      invariant buf.Contents() == start + done
    {
      ListNext(schema, f, vs, i);
      ListPrefix(schema, f, vs, i + 1);
      RecLength(ValueRec(schema, f, vs[i]));
      var n := RequiredFieldPackToBuffer(schema, f, vs[i], buf);
      AppendAssociates(start, done, RecBytes(ValueRec(schema, f, vs[i])));
      done := done + RecBytes(ValueRec(schema, f, vs[i]));
      rv := rv + n;
      i := i + 1;
    }
    assert vs[..|vs|] == vs;
  }

  method FieldPackToBuffer(schema: seq<Desc>, m: Message, i: nat, buf: Buffer) returns (rv: nat)
    requires buf.Valid() && FieldIdsOk(schema) && Packable(schema, m) && i < |m.slots|
    requires |RecsBytes(FieldRecs(schema, schema[m.desc].fields[i], m, i))| <= INT_MAX
    modifies buf, buf.data
    ensures buf.Valid() && (buf.data == old(buf.data) || fresh(buf.data))
    ensures var recs := FieldRecs(schema, schema[m.desc].fields[i], m, i);
            buf.Contents() == old(buf.Contents()) + RecsBytes(recs) && rv == |RecsBytes(recs)|
    decreases m, 8
  {
    var f := schema[m.desc].fields[i];
    assert PackableSlot(schema, m.slots[i]);
    assert 1 <= f.id < TWO_31 && (f.rule.Repeated? && f.rule.packed ==> IsPackable(f.ty));
    assert RecsBytes([]) == [];
    hide RecBytes, FieldIdsOk, RecsBytes, PackedData, Encode;
    rv := 0;
    if f.rule.Repeated? {
      if m.slots[i].List? {
        var vs := m.slots[i].vs;
        if !f.rule.packed {
          rv := UnpackedFieldPackToBuffer(schema, f, vs, m.slots[i], buf);
        } else if |vs| != 0 {
          OneRec(Rec(f.id, LENGTH_PREFIXED, Prefixed(PackedData(f.ty, vs))));
          RecLength(Rec(f.id, LENGTH_PREFIXED, Prefixed(PackedData(f.ty, vs))));
          rv := PackedFieldPackToBuffer(f, vs, buf);
        }
      }
    } else {
      match Emitted(f, m, i) {
        case None =>
        case Some(v) =>
          EmittedPackable(schema, f, m, i);
          OneRec(ValueRec(schema, f, v));
          RecLength(ValueRec(schema, f, v));
          rv := RequiredFieldPackToBuffer(schema, f, v, buf);
      }
    }
  }

  /** The bytes appended by the first `i` fields. */
  ghost predicate FieldsAppended(schema: seq<Desc>, m: Message, i: nat, start: seq<byte>, now: seq<byte>, rv: nat) {
    && Shaped(schema, m) && i <= |m.slots|
    && now == start + RecsBytes(FieldsRecs(schema, m, i)) && rv == |RecsBytes(FieldsRecs(schema, m, i))|
  }

  lemma NothingAppended(schema: seq<Desc>, m: Message, start: seq<byte>)
    requires Shaped(schema, m)
    ensures FieldsAppended(schema, m, 0, start, start, 0)
  {
    NoFields(schema, m);
    hide RecsBytes, FieldsRecs;
    assert start + [] == start;
  }

  /** One turn of the loop over the fields. */
  method FieldAppendNext(schema: seq<Desc>, m: Message, i: nat, buf: Buffer, rv: nat, ghost start: seq<byte>) returns (n: nat)
    requires buf.Valid() && FieldIdsOk(schema) && Packable(schema, m) && |Enc(schema, m)| <= INT_MAX
    requires i < |m.slots| && FieldsAppended(schema, m, i, start, buf.Contents(), rv)
    modifies buf, buf.data
    ensures buf.Valid() && (buf.data == old(buf.data) || fresh(buf.data))
    ensures FieldsAppended(schema, m, i + 1, start, buf.Contents(), rv + n)
    decreases m, 9, 0
  {
    FieldRoom(schema, m, i);
    FieldsNext(schema, m, i);
    ghost var done, more := RecsBytes(FieldsRecs(schema, m, i)), RecsBytes(FieldRecs(schema, FieldsOf(schema, m)[i], m, i));
    AppendAssociates(start, done, more);
    hide RecsBytes, FieldsRecs, Enc, FieldRecs, Packable, FieldIdsOk, Buffer.Valid, Buffer.Contents;
    n := FieldPackToBuffer(schema, m, i, buf);
  }

  method FieldsPackToBuffer(schema: seq<Desc>, m: Message, buf: Buffer) returns (rv: nat)
    requires buf.Valid() && FieldIdsOk(schema) && Packable(schema, m) && |Enc(schema, m)| <= INT_MAX
    modifies buf, buf.data
    ensures buf.Valid() && (buf.data == old(buf.data) || fresh(buf.data))
    ensures FieldsAppended(schema, m, |m.slots|, old(buf.Contents()), buf.Contents(), rv)
    decreases m, 9
  {
    hide *;
    PackableShape(schema, m);
    ghost var start := buf.Contents();
    NothingAppended(schema, m, start);
    rv := 0;
    var i := 0;
    while i < |m.slots|
      invariant buf.Valid() && (buf.data == old(buf.data) || fresh(buf.data))
      invariant 0 <= i <= |m.slots| && FieldsAppended(schema, m, i, start, buf.Contents(), rv)
    {
      var n := FieldAppendNext(schema, m, i, buf, rv, start);
      rv := rv + n;
      i := i + 1;
    }
  }

  /** `unknown_field_pack_to_buffer` for every unknown field. */
  method UnknownsPackToBuffer(us: seq<UnknownField>, buf: Buffer) returns (rv: nat)
    requires buf.Valid()
    requires forall j :: 0 <= j < |us| ==> us[j].tag < TWO_32 && us[j].wireType < 8
    modifies buf, buf.data
    ensures buf.Valid() && (buf.data == old(buf.data) || fresh(buf.data))
    ensures buf.Contents() == old(buf.Contents()) + RecsBytes(UnknownRecs(us)) && rv == |RecsBytes(UnknownRecs(us))|
  {
    assert us[..0] == [] && RecsBytes(UnknownRecs([])) == [];
    hide RecsBytes, UnknownRecs, Tag, Splice;
    ghost var start := buf.Contents();
    ghost var done: seq<byte> := [];
    rv := 0;
    var j := 0;
    while j < |us|
      invariant 0 <= j <= |us| && rv == |done| && done == RecsBytes(UnknownRecs(us[..j]))
      invariant buf.Valid() && (buf.data == old(buf.data) || fresh(buf.data))
      invariant buf.Contents() == start + done
    {
      UnknownNext(us, j);
      var n := AppendTag(us[j].tag, us[j].wireType, buf);
      buf.Append(us[j].data);
      AppendAssociates(start + done, Tag(us[j].tag, us[j].wireType), us[j].data);
      AppendAssociates(start, done, Tag(us[j].tag, us[j].wireType) + us[j].data);
      done := done + (Tag(us[j].tag, us[j].wireType) + us[j].data);
      rv := rv + n + |us[j].data|;
      j := j + 1;
    }
    assert us[..j] == us;
  }

  method AppendTag(id: nat, wireType: nat, buf: Buffer) returns (rv: nat)
    requires buf.Valid() && id < TWO_32 && wireType < 8
    modifies buf, buf.data
    ensures buf.Valid() && (buf.data == old(buf.data) || fresh(buf.data))
    ensures buf.Contents() == old(buf.Contents()) + Tag(id, wireType) && rv == |Tag(id, wireType)|
  {
    hide Splice, Tag;
    TagSizeExact(id, wireType);
    var header := new byte[10];
    ghost var base := header[..];
    rv := PackTag(id, wireType, header, 0);
    ScratchRead(base, Tag(id, wireType));
    assert header[..rv] == header[..][..rv];
    buf.Append(header[..rv]);
  }

  /** Appends exactly the encoding of `m`. */
  method PackToBuffer(schema: seq<Desc>, m: Message, buf: Buffer) returns (rv: nat)
    requires buf.Valid() && FieldIdsOk(schema) && Packable(schema, m) && |Enc(schema, m)| <= INT_MAX
    modifies buf, buf.data
    ensures buf.Valid() && (buf.data == old(buf.data) || fresh(buf.data))
    ensures buf.Contents() == old(buf.Contents()) + Enc(schema, m) && rv == |Enc(schema, m)|
    decreases m, 10
  {
    EncParts(schema, m);
    hide RecsBytes, FieldsRecs, Enc, PackableSlot, PackableValue, FieldIdsOk, UnknownRecs;
    ghost var start := buf.Contents();
    rv := FieldsPackToBuffer(schema, m, buf);
    var n := UnknownsPackToBuffer(m.unknown, buf);
    AppendAssociates(start, RecsBytes(FieldsRecs(schema, m, |m.slots|)), RecsBytes(UnknownRecs(m.unknown)));
    rv := rv + n;
  }
}
