/**
 The length calculator and the encoder into a flat buffer.

 `protobuf_c_message_get_packed_size` is proved to return the length of the reference
 encoding, `protobuf_c_message_pack` to write exactly its bytes and nothing else.
 */
module WirePack {
  import opened Common
  import opened Bytes
  import opened Varint
  import opened Schema
  import opened WireMessage
  import opened WireFormat

  // ----- what the encoders demand of a message -----

  ghost predicate PackableValue(schema: seq<Desc>, v: Value)
    decreases v, 0
  {
    v.Msg? ==> Packable(schema, v.m)
  }

  ghost predicate PackableSlot(schema: seq<Desc>, s: Slot)
    decreases s, 1
  {
    match s
    case List(vs) => forall i :: 0 <= i < |vs| ==>
      PackableValue(schema, vs[i]) && !vs[i].TextNull? && !vs[i].MsgNull?
    case Shared => true
    case _ => PackableValue(schema, s.v)
  }

  /** A slot for every field, down to the last submessage, and no NULL list elements. */
  ghost predicate Packable(schema: seq<Desc>, m: Message)
    decreases m, 2
  {
    && m.desc < |schema| && |m.slots| == |schema[m.desc].fields|
    && (forall i :: 0 <= i < |m.slots| ==> PackableSlot(schema, m.slots[i]))
    && (forall g :: 0 <= g < |m.unions| ==>
          m.unions[g].Holding? ==> PackableValue(schema, m.unions[g].v))
    && (forall j :: 0 <= j < |m.unknown| ==> m.unknown[j].tag < TWO_32 && m.unknown[j].wireType < 8)
  }

  ghost predicate FieldIdsOk(schema: seq<Desc>) {
    forall k, i :: 0 <= k < |schema| && 0 <= i < |schema[k].fields| ==>
      1 <= schema[k].fields[i].id < TWO_31
      && (schema[k].fields[i].rule.Repeated? && schema[k].fields[i].rule.packed ==> IsPackable(schema[k].fields[i].ty))
  }

  lemma PackableShape(schema: seq<Desc>, m: Message)
    requires Packable(schema, m)
    ensures m.desc < |schema| && |m.slots| == |schema[m.desc].fields| && Shaped(schema, m)
  {
    hide PackableSlot, PackableValue;
  }

  lemma EmittedPackable(schema: seq<Desc>, f: Field, m: Message, i: nat)
    requires Packable(schema, m) && i < |m.slots| && Emitted(f, m, i).Some?
    ensures PackableValue(schema, Emitted(f, m, i).value)
  {
    assert PackableSlot(schema, m.slots[i]);
  }

  // ----- sizes inside a message -----

  lemma {:induction false} RecsBytesBound(recs: seq<Rec>, k: nat)
    requires TypesOk(recs) && k < |recs|
    ensures |RecBytes(recs[k])| <= |RecsBytes(recs)|
  {
    hide RecBytes;
    if k > 0 {
      RecsBytesBound(recs[1..], k - 1);
    }
  }

  /** The encoding begins with the records of the first fields. */
  lemma {:induction false} FieldsPrefix(schema: seq<Desc>, m: Message, i: nat, n: nat)
    requires i <= n <= |m.slots| && n <= |FieldsOf(schema, m)|
    ensures |RecsBytes(FieldsRecs(schema, m, i))| <= |RecsBytes(FieldsRecs(schema, m, n))|
    decreases n
  {
    hide RecsBytes, FieldRecs, FieldsRecs;
    if i < n {
      FieldsNext(schema, m, n - 1);
      FieldsPrefix(schema, m, i, n - 1);
    }
  }

  lemma FieldsNext(schema: seq<Desc>, m: Message, i: nat)
    requires i < |m.slots| && i < |FieldsOf(schema, m)|
    ensures RecsBytes(FieldsRecs(schema, m, i + 1))
         == RecsBytes(FieldsRecs(schema, m, i)) + RecsBytes(FieldRecs(schema, FieldsOf(schema, m)[i], m, i))
  {
    hide RecsBytes, FieldRecs;
    RecsBytesAppend(FieldsRecs(schema, m, i), FieldRecs(schema, FieldsOf(schema, m)[i], m, i));
  }

  lemma UnknownsPackable(schema: seq<Desc>, m: Message)
    requires Packable(schema, m)
    ensures forall j :: 0 <= j < |m.unknown| ==> m.unknown[j].tag < TWO_32 && m.unknown[j].wireType < 8
  {
  }

  lemma EncParts(schema: seq<Desc>, m: Message)
    requires Shaped(schema, m)
    ensures Enc(schema, m) == RecsBytes(FieldsRecs(schema, m, |m.slots|)) + RecsBytes(UnknownRecs(m.unknown))
  {
    hide RecsBytes, UnknownRecs, FieldsRecs;
    RecsBytesAppend(FieldsRecs(schema, m, |m.slots|), UnknownRecs(m.unknown));
  }

  lemma UnknownNext(us: seq<UnknownField>, j: nat)
    requires j < |us| && us[j].wireType < 8
    ensures RecsBytes(UnknownRecs(us[..j + 1]))
         == RecsBytes(UnknownRecs(us[..j])) + RecBytes(Rec(us[j].tag, us[j].wireType, us[j].data))
  {
    var r := Rec(us[j].tag, us[j].wireType, us[j].data);
    hide RecBytes;
    assert UnknownRecs(us[..j + 1]) == UnknownRecs(us[..j]) + [r];
    RecsBytesAppend(UnknownRecs(us[..j]), [r]);
    OneRec(r);
  }

  lemma OneRec(r: Rec)
    requires r.wireType < 8
    ensures RecsBytes([r]) == RecBytes(r)
  {
    hide RecBytes;
    assert [r][1..] == [];
    assert RecsBytes([r]) == RecBytes(r) + [];
  }

  lemma {:induction false} UnknownPrefix(us: seq<UnknownField>, j: nat)
    requires j <= |us| && forall k :: 0 <= k < |us| ==> us[k].wireType < 8
    ensures |RecsBytes(UnknownRecs(us[..j]))| <= |RecsBytes(UnknownRecs(us))|
    decreases |us| - j
  {
    if j < |us| {
      UnknownNext(us, j);
      UnknownPrefix(us, j + 1);
    } else {
      assert us[..j] == us;
    }
  }

  /** Element by element, an unpacked list is the records of its elements. */
  function ValueRec(schema: seq<Desc>, f: Field, v: Value): (r: Rec)
    ensures r.wireType < 8
  {
    Rec(f.id, WireTypeOf(f.ty), Data(schema, f.ty, v))
  }

  lemma {:induction false} ListNext(schema: seq<Desc>, f: Field, vs: seq<Value>, i: nat)
    requires i < |vs|
    ensures RecsBytes(ListRecs(schema, f, vs[..i + 1]))
         == RecsBytes(ListRecs(schema, f, vs[..i])) + RecBytes(ValueRec(schema, f, vs[i]))
  {
    hide Data, RecBytes;
    if i == 0 {
      assert vs[..1] == [vs[0]];
      assert ListRecs(schema, f, vs[..1]) == [ValueRec(schema, f, vs[0])];
      OneRec(ValueRec(schema, f, vs[0]));
    } else {
      ListNext(schema, f, vs[1..], i - 1);
      assert vs[..i + 1][1..] == vs[1..][..i] && vs[..i][1..] == vs[1..][..i - 1];
      var x := RecBytes(ValueRec(schema, f, vs[0]));
      ListFirst(schema, f, vs[..i + 1]);
      ListFirst(schema, f, vs[..i]);
      hide ListRecs, RecsBytes;
      var y, z := RecsBytes(ListRecs(schema, f, vs[1..][..i - 1])), RecBytes(ValueRec(schema, f, vs[i]));
      assert x + (y + z) == (x + y) + z;
    }
  }

  lemma ListFirst(schema: seq<Desc>, f: Field, vs: seq<Value>)
    requires vs != []
    ensures RecsBytes(ListRecs(schema, f, vs))
         == RecBytes(ValueRec(schema, f, vs[0])) + RecsBytes(ListRecs(schema, f, vs[1..]))
  {
    hide Data, RecBytes;
    var r, rest := ValueRec(schema, f, vs[0]), ListRecs(schema, f, vs[1..]);
    assert ListRecs(schema, f, vs) == [r] + rest;
    RecsBytesAppend([r], rest);
    OneRec(r);
  }

  lemma {:induction false} ListPrefix(schema: seq<Desc>, f: Field, vs: seq<Value>, i: nat)
    requires i <= |vs|
    ensures |RecsBytes(ListRecs(schema, f, vs[..i]))| <= |RecsBytes(ListRecs(schema, f, vs))|
    decreases |vs| - i
  {
    if i < |vs| {
      ListNext(schema, f, vs, i);
      ListPrefix(schema, f, vs, i + 1);
    } else {
      assert vs[..i] == vs;
    }
  }

  // ----- protobuf_c_message_get_packed_size -----

  method ScalarSize(ty: FieldType, v: Value) returns (n: nat)
    requires IsPackable(ty)
    ensures n == |ScalarData(ty, v)|
  {
    var x := NumOf(v);
    n := 1;
    match ty {
      case SINT32 =>
        Uint32SizeExact(ZigZag32(ToSigned32(x % TWO_32)));
        n := Uint32Size(ZigZag32(ToSigned32(x % TWO_32)));
      case INT32 =>
        Int32SizeExact(ToSigned32(x % TWO_32));
        n := Int32Size(ToSigned32(x % TWO_32));
      case ENUM =>
        Int32SizeExact(ToSigned32(x % TWO_32));
        n := Int32Size(ToSigned32(x % TWO_32));
      case UINT32 =>
        Uint32SizeExact(x % TWO_32);
        n := Uint32Size(x % TWO_32);
      case SINT64 =>
        Uint64SizeExact(ZigZag64(ToSigned64(x % TWO_64)));
        n := Uint64Size(ZigZag64(ToSigned64(x % TWO_64)));
      case INT64 =>
        Uint64SizeExact(x % TWO_64);
        n := Uint64Size(x % TWO_64);
      case UINT64 =>
        Uint64SizeExact(x % TWO_64);
        n := Uint64Size(x % TWO_64);
      case FIXED32 => n := 4;
      case SFIXED32 => n := 4;
      case FIXED64 => n := 8;
      case SFIXED64 => n := 8;
      case _ =>
    }
  }

  /** `required_field_get_packed_size` without the tag, also the element sizes of a list. */
  method MemberSize(schema: seq<Desc>, ty: FieldType, v: Value) returns (n: nat)
    requires FieldIdsOk(schema) && PackableValue(schema, v) && |Data(schema, ty, v)| <= INT_MAX
    ensures n == |Data(schema, ty, v)|
    decreases v, 0
  {
    if IsPackable(ty) {
      n := ScalarSize(ty, v);
    } else if ty.MESSAGE? && v.Msg? {
      var sub := GetPackedSize(schema, v.m);
      Uint32SizeExact(sub);
      n := Uint32Size(sub) + sub;
    } else {
      var len := |Chars(v)|;
      Uint32SizeExact(len);
      n := Uint32Size(len) + len;
    }
  }

  method RequiredFieldGetPackedSize(schema: seq<Desc>, f: Field, v: Value) returns (rv: nat)
    requires FieldIdsOk(schema) && PackableValue(schema, v) && |Data(schema, f.ty, v)| <= INT_MAX
    requires 1 <= f.id < TWO_31
    ensures rv == |RecBytes(ValueRec(schema, f, v))|
    decreases v, 1
  {
    TagSizeExact(f.id, WireTypeOf(f.ty));
    rv := TagSize(f.id);
    var n := MemberSize(schema, f.ty, v);
    rv := rv + n;
  }

  /** The bytes of the elements of an unpacked list, tags not counted. */
  ghost function DataTotal(schema: seq<Desc>, ty: FieldType, vs: seq<Value>): nat {
    if vs == [] then 0
    else DataTotal(schema, ty, vs[..|vs| - 1]) + |Data(schema, ty, vs[|vs| - 1])|
  }

  lemma {:induction false} ListTotal(schema: seq<Desc>, f: Field, vs: seq<Value>)
    requires f.id < TWO_32
    ensures |RecsBytes(ListRecs(schema, f, vs))| == TagSize(f.id) * |vs| + DataTotal(schema, f.ty, vs)
  {
    hide Data, TagSize, RecsBytes, ListRecs, Tag;
    TagSizeExact(f.id, WireTypeOf(f.ty));
    if vs == [] {
      EmptyList(schema, f);
    } else {
      var last := |vs| - 1;
      ListTotal(schema, f, vs[..last]);
      ListNext(schema, f, vs, last);
      assert vs[..last + 1] == vs;
      assert TagSize(f.id) * |vs| == TagSize(f.id) * last + TagSize(f.id);
    }
  }

  lemma EmptyList(schema: seq<Desc>, f: Field)
    ensures RecsBytes(ListRecs(schema, f, [])) == []
  {
  }

  lemma {:induction false} DataTotalAt(schema: seq<Desc>, ty: FieldType, vs: seq<Value>, i: nat)
    requires i < |vs|
    ensures DataTotal(schema, ty, vs[..i + 1]) == DataTotal(schema, ty, vs[..i]) + |Data(schema, ty, vs[i])|
    ensures |Data(schema, ty, vs[i])| <= DataTotal(schema, ty, vs[..i + 1]) <= DataTotal(schema, ty, vs)
    decreases |vs|
  {
    hide Data;
    assert vs[..i + 1][..i] == vs[..i];
    if i == |vs| - 1 {
      assert vs[..i + 1] == vs;
    } else {
      var shorter := vs[..|vs| - 1];
      DataTotalAt(schema, ty, shorter, i);
      assert shorter[..i + 1] == vs[..i + 1];
    }
  }

  method UnpackedElementsSize(schema: seq<Desc>, ty: FieldType, vs: seq<Value>, ghost slot: Slot) returns (rv: nat)
    requires FieldIdsOk(schema) && slot == List(vs) && PackableSlot(schema, slot)
    requires DataTotal(schema, ty, vs) <= INT_MAX
    ensures rv == DataTotal(schema, ty, vs)
    decreases slot, 1
  {
    rv := 0;
    var i := 0;
    assert vs[..0] == [] && DataTotal(schema, ty, []) == 0;
    hide Data, DataTotal, PackableValue, FieldIdsOk;
    while i < |vs|
      invariant 0 <= i <= |vs| && rv == DataTotal(schema, ty, vs[..i])
    {
      DataTotalAt(schema, ty, vs, i);
      var n := MemberSize(schema, ty, vs[i]);
      rv := rv + n;
      i := i + 1;
    }
    assert vs[..|vs|] == vs;
  }

  method PackedElementsSize(ty: FieldType, vs: seq<Value>) returns (rv: nat)
    requires IsPackable(ty)
    ensures rv == |PackedData(ty, vs)|
  {
    rv := 0;
    var i := 0;
    while i < |vs|
      invariant 0 <= i <= |vs| && rv == |PackedData(ty, vs[..i])|
    {
      var n := ScalarSize(ty, vs[i]);
      assert vs[..i + 1][..i] == vs[..i];
      rv := rv + n;
      i := i + 1;
    }
    assert vs[..|vs|] == vs;
  }

  method RepeatedFieldGetPackedSize(schema: seq<Desc>, f: Field, vs: seq<Value>, ghost slot: Slot) returns (rv: nat)
    requires FieldIdsOk(schema) && 1 <= f.id < TWO_31 && f.rule.Repeated?
    requires slot == List(vs) && PackableSlot(schema, slot)
    requires if f.rule.packed then IsPackable(f.ty) && |Prefixed(PackedData(f.ty, vs))| <= INT_MAX
             else |RecsBytes(ListRecs(schema, f, vs))| <= INT_MAX
    ensures rv == if !f.rule.packed then |RecsBytes(ListRecs(schema, f, vs))|
                  else if vs == [] then 0
                  else |RecBytes(Rec(f.id, LENGTH_PREFIXED, Prefixed(PackedData(f.ty, vs))))|
    decreases slot, 2
  {
    if |vs| == 0 {
      return 0;
    }
    var headerSize := TagSize(f.id);
    if !f.rule.packed {
      ListTotal(schema, f, vs);
      hide RecsBytes, ListRecs, TagSize;
      headerSize := headerSize * |vs|;
      rv := UnpackedElementsSize(schema, f.ty, vs, slot);
    } else {
      TagSizeExact(f.id, LENGTH_PREFIXED);
      rv := PackedElementsSize(f.ty, vs);
      Uint32SizeExact(rv);
      headerSize := headerSize + Uint32Size(rv);
    }
    rv := headerSize + rv;
  }

  /** Where field `i` ends up inside the encoding. */
  lemma FieldRoom(schema: seq<Desc>, m: Message, i: nat)
    requires Shaped(schema, m) && i < |m.slots|
    ensures |RecsBytes(FieldsRecs(schema, m, i + 1))|
         == |RecsBytes(FieldsRecs(schema, m, i))| + |RecsBytes(FieldRecs(schema, FieldsOf(schema, m)[i], m, i))|
    ensures |RecsBytes(FieldsRecs(schema, m, i + 1))| <= |Enc(schema, m)|
  {
    hide RecsBytes, FieldsRecs, Enc, FieldRecs, UnknownRecs;
    FieldsNext(schema, m, i);
    FieldsPrefix(schema, m, i + 1, |m.slots|);
    EncParts(schema, m);
  }

  lemma FieldCount(schema: seq<Desc>, m: Message)
    requires Packable(schema, m)
    ensures m.desc < |schema| && |m.slots| == |schema[m.desc].fields| == |FieldsOf(schema, m)|
  {
  }

  /** What field `i` adds to the length of the fields before it. */
  lemma FieldAdds(schema: seq<Desc>, m: Message, i: nat)
    requires Packable(schema, m) && i < |m.slots|
    ensures m.desc < |schema| && |m.slots| == |schema[m.desc].fields| == |FieldsOf(schema, m)|
    ensures var n := |RecsBytes(FieldRecs(schema, schema[m.desc].fields[i], m, i))|;
            && |RecsBytes(FieldsRecs(schema, m, i + 1))| == |RecsBytes(FieldsRecs(schema, m, i))| + n
            && n <= |Enc(schema, m)|
  {
    FieldCount(schema, m);
    hide RecsBytes, FieldsRecs, Enc, FieldRecs;
    FieldRoom(schema, m, i);
  }

  method FieldsGetPackedSize(schema: seq<Desc>, m: Message) returns (rv: nat)
    requires FieldIdsOk(schema) && Packable(schema, m) && |Enc(schema, m)| <= INT_MAX
    ensures rv == |RecsBytes(FieldsRecs(schema, m, |m.slots|))|
    decreases m, 9
  {
    hide *;
    NoFields(schema, m);
    FieldCount(schema, m);
    rv := 0;
    var i := 0;
    while i < |m.slots|
      invariant 0 <= i <= |m.slots|
      invariant rv == |RecsBytes(FieldsRecs(schema, m, i))|
    {
      FieldAdds(schema, m, i);
      var n := FieldGetPackedSize(schema, m, i);
      rv := rv + n;
      i := i + 1;
    }
  }

  /** The encoded length of a message. */
  method GetPackedSize(schema: seq<Desc>, m: Message) returns (rv: nat)
    requires FieldIdsOk(schema) && Packable(schema, m) && |Enc(schema, m)| <= INT_MAX
    ensures rv == |Enc(schema, m)|
    decreases m, 10
  {
    EncParts(schema, m);
    hide RecsBytes, FieldsRecs, Enc, PackableSlot, PackableValue, FieldIdsOk, UnknownRecs;
    rv := FieldsGetPackedSize(schema, m);
    var u := UnknownsGetPackedSize(m.unknown);
    rv := rv + u;
  }

  lemma NoFields(schema: seq<Desc>, m: Message)
    ensures RecsBytes(FieldsRecs(schema, m, 0)) == []
  {
  }

  method UnknownsGetPackedSize(us: seq<UnknownField>) returns (rv: nat)
    requires forall j :: 0 <= j < |us| ==> us[j].tag < TWO_32 && us[j].wireType < 8
    ensures rv == |RecsBytes(UnknownRecs(us))|
  {
    rv := 0;
    var j := 0;
    assert us[..0] == [] && RecsBytes(UnknownRecs([])) == [];
    hide RecsBytes, UnknownRecs, TagSize, Tag;
    while j < |us|
      invariant 0 <= j <= |us|
      invariant rv == |RecsBytes(UnknownRecs(us[..j]))|
    {
      UnknownNext(us, j);
      TagSizeExact(us[j].tag, us[j].wireType);
      rv := rv + TagSize(us[j].tag) + |us[j].data|;
      j := j + 1;
    }
    assert us[..j] == us;
  }

  /** One field: a list, or the value that a singular field emits, if any. */
  method FieldGetPackedSize(schema: seq<Desc>, m: Message, i: nat) returns (rv: nat)
    requires FieldIdsOk(schema) && Packable(schema, m) && i < |m.slots|
    requires |RecsBytes(FieldRecs(schema, schema[m.desc].fields[i], m, i))| <= INT_MAX
    ensures rv == |RecsBytes(FieldRecs(schema, schema[m.desc].fields[i], m, i))|
    decreases m, 8
  {
    var f := schema[m.desc].fields[i];
    assert PackableSlot(schema, m.slots[i]);
    if f.rule.Repeated? {
      if m.slots[i].List? {
        var vs := m.slots[i].vs;
        if f.rule.packed && vs != [] {
          OneRec(Rec(f.id, LENGTH_PREFIXED, Prefixed(PackedData(f.ty, vs))));
        }
        rv := RepeatedFieldGetPackedSize(schema, f, vs, m.slots[i]);
      } else {
        rv := 0;
      }
    } else {
      match Emitted(f, m, i) {
        case None => rv := 0;
        case Some(v) =>
          EmittedPackable(schema, f, m, i);
          OneRec(ValueRec(schema, f, v));
          rv := RequiredFieldGetPackedSize(schema, f, v);
      }
    }
  }

  // ----- protobuf_c_message_pack -----

  /** Two writes in a row; `at` is where the first one began. */
  lemma ThenWrite(base: seq<byte>, at: nat, done: seq<byte>, buf: seq<byte>, more: seq<byte>, after: seq<byte>)
    requires at + |done| + |more| <= |base|
    requires buf == Splice(base, at, done)
    requires after == Splice(buf, at + |done|, more)
    ensures after == Splice(base, at, done + more)
  {
    SpliceAppend(base, at, done, more);
  }

  method PackScalar(ty: FieldType, v: Value, out: array<byte>, at: nat) returns (rv: nat)
    requires IsPackable(ty) && at + |ScalarData(ty, v)| <= out.Length
    modifies out
    ensures rv == |ScalarData(ty, v)|
    ensures out[..] == Splice(old(out[..]), at, ScalarData(ty, v))
  {
    hide Splice, Encode, LittleEndian;
    if ty.BOOL? {
      PackBytes([if v.Flag? && v.b then 1 else 0], out, at);
      return 1;
    }
    var x := NumOf(v);
    rv := 0;
    match ty {
      case SINT32 => rv := PackUint32(ZigZag32(ToSigned32(x % TWO_32)), out, at);
      case INT32 => rv := PackInt32(ToSigned32(x % TWO_32), out, at);
      case ENUM => rv := PackInt32(ToSigned32(x % TWO_32), out, at);
      case UINT32 => rv := PackUint32(x % TWO_32, out, at);
      case SINT64 => rv := PackUint64(ZigZag64(ToSigned64(x % TWO_64)), out, at);
      case INT64 => rv := PackUint64(x % TWO_64, out, at);
      case UINT64 => rv := PackUint64(x % TWO_64, out, at);
      case FIXED32 => rv := PackFixed(x % TWO_32, 4, out, at);
      case SFIXED32 => rv := PackFixed(x % TWO_32, 4, out, at);
      case FIXED64 => rv := PackFixed(x % TWO_64, 8, out, at);
      case SFIXED64 => rv := PackFixed(x % TWO_64, 8, out, at);
      case _ =>
    }
  }

  /** `memmove` */
  method Move(out: array<byte>, to: nat, from: nat, n: nat)
    requires from + n <= out.Length && to + n <= out.Length
    modifies out
    ensures out[..] == Splice(old(out[..]), to, old(out[from..from + n]))
  {
    forall i | 0 <= i < n {
      out[to + i] := out[from + i];
    }
  }

  /** The bytes were written `gap` after `at` and are moved to follow their length. */
  lemma LengthInFront(base: seq<byte>, at: nat, gap: nat, header: seq<byte>, s: seq<byte>,
                      b1: seq<byte>, b2: seq<byte>, b3: seq<byte>)
    requires gap <= |header| && at + |header| + |s| <= |base|
    requires b1 == Splice(base, at + gap, s)
    requires b2 == Splice(b1, at + |header|, s)
    requires b3 == Splice(b2, at, header)
    ensures b3 == Splice(base, at, header + s)
  {
    var end := at + |header| + |s|;
    assert b1[..at] == base[..at] && b2[..at] == b1[..at] && b3[..at] == b2[..at];
    assert b1[end..] == base[end..] && b2[end..] == b1[end..] && b3[end..] == b2[end..];
    assert b2[at + |header|..end] == s && b3[at + |header|..] == b2[at + |header|..];
    assert b3[at..at + |header|] == header;
    assert b3 == b3[..at] + b3[at..at + |header|] + b3[at + |header|..end] + b3[end..];
  }

  lemma SpliceRead(base: seq<byte>, at: nat, s: seq<byte>)
    requires at + |s| <= |base|
    ensures Splice(base, at, s)[at..at + |s|] == s
    ensures Splice(Splice(base, at, s), at, s) == Splice(base, at, s)
  {
  }

  /** Puts the length before `n` bytes that stand `gap` after `at`, moving them when it needs more room. */
  method PutLengthInFront(out: array<byte>, at: nat, gap: nat, n: nat, ghost base: seq<byte>, ghost s: seq<byte>)
    requires |s| == n < TWO_32 && gap <= |Encode(n)| && |base| == out.Length
    requires at + |Encode(n)| + n <= out.Length
    requires out[..] == Splice(base, at + gap, s)
    modifies out
    ensures out[..] == Splice(base, at, Prefixed(s))
  {
    hide Splice, Encode, Uint32Size;
    Uint32SizeExact(n);
    ghost var b1 := out[..];
    SpliceRead(base, at + gap, s);
    assert out[at + gap..at + gap + n] == b1[at + gap..at + gap + n];
    var size := Uint32Size(n);
    if size != gap {
      Move(out, at + size, at + gap, n);
    }
    ghost var b2 := out[..];
    var k := PackUint32(n, out, at);
    LengthInFront(base, at, gap, Encode(n), s, b1, b2, out[..]);
  }

  /** The member bytes of one value; a submessage goes one byte past its place first. */
  method PackMember(schema: seq<Desc>, ty: FieldType, v: Value, out: array<byte>, at: nat) returns (rv: nat)
    requires FieldIdsOk(schema) && PackableValue(schema, v) && |Data(schema, ty, v)| <= INT_MAX
    requires at + |Data(schema, ty, v)| <= out.Length
    modifies out
    ensures rv == |Data(schema, ty, v)|
    ensures out[..] == Splice(old(out[..]), at, Data(schema, ty, v))
    decreases v, 0
  {
    hide Splice;
    ghost var base := out[..];
    if IsPackable(ty) {
      rv := PackScalar(ty, v, out, at);
    } else if ty.MESSAGE? && v.Msg? {
      var n := Pack(schema, v.m, out, at + 1);
      PutLengthInFront(out, at, 1, n, base, Enc(schema, v.m));
      Uint32SizeExact(n);
      rv := Uint32Size(n) + n;
    } else {
      var s := Chars(v);
      rv := PackUint32(|s|, out, at);
      ghost var b1 := out[..];
      PackBytes(s, out, at + rv);
      ThenWrite(base, at, Encode(|s|), b1, s, out[..]);
      rv := rv + |s|;
    }
  }

  /** `required_field_pack` */
  method RequiredFieldPack(schema: seq<Desc>, f: Field, v: Value, out: array<byte>, at: nat) returns (rv: nat)
    requires FieldIdsOk(schema) && PackableValue(schema, v) && |Data(schema, f.ty, v)| <= INT_MAX
    requires 1 <= f.id < TWO_31 && at + |RecBytes(ValueRec(schema, f, v))| <= out.Length
    modifies out
    ensures rv == |RecBytes(ValueRec(schema, f, v))|
    ensures out[..] == Splice(old(out[..]), at, RecBytes(ValueRec(schema, f, v)))
    decreases v, 1
  {
    hide Splice, Tag, Data;
    ghost var base := out[..];
    rv := PackTag(f.id, WireTypeOf(f.ty), out, at);
    ghost var b1 := out[..];
    var n := PackMember(schema, f.ty, v, out, at + rv);
    ThenWrite(base, at, Tag(f.id, WireTypeOf(f.ty)), b1, Data(schema, f.ty, v), out[..]);
    rv := rv + n;
  }

  /** `get_type_min_size` */
  function TypeMinSize(ty: FieldType): nat {
    if FixedWidth(ty) == 0 then 1 else FixedWidth(ty)
  }

  /** A packed payload takes at least the minimum per element and at most ten times as much. */
  lemma {:induction false} PackedBounds(ty: FieldType, vs: seq<Value>)
    requires IsPackable(ty)
    ensures TypeMinSize(ty) * |vs| <= |PackedData(ty, vs)| <= 10 * (TypeMinSize(ty) * |vs|)
  {
    hide ScalarData, TypeMinSize;
    if vs != [] {
      var last := |vs| - 1;
      PackedBounds(ty, vs[..last]);
      ScalarBounds(ty, vs[last]);
      assert |PackedData(ty, vs)| == |PackedData(ty, vs[..last])| + |ScalarData(ty, vs[last])|;
      Distribute(TypeMinSize(ty), last);
    }
  }

  lemma Distribute(k: nat, n: nat)
    ensures k * (n + 1) == k * n + k
  {
  }

  lemma ScalarBounds(ty: FieldType, v: Value)
    requires IsPackable(ty)
    ensures TypeMinSize(ty) <= |ScalarData(ty, v)| <= 10 * TypeMinSize(ty)
    ensures |ScalarData(ty, v)| <= 10
  {
    var n := NumOf(v);
    match ty
    case SINT32 => Uint64SizeExact(ZigZag32(ToSigned32(n % TWO_32)));
    case INT32 => Uint64SizeExact(Unsigned64(ToSigned32(n % TWO_32)));
    case ENUM => Uint64SizeExact(Unsigned64(ToSigned32(n % TWO_32)));
    case UINT32 => Uint64SizeExact(n % TWO_32);
    case SINT64 => Uint64SizeExact(ZigZag64(ToSigned64(n % TWO_64)));
    case INT64 => Uint64SizeExact(n % TWO_64);
    case UINT64 => Uint64SizeExact(n % TWO_64);
    case _ =>
  }

  /** The guessed length of a packed field is short by at most one byte. */
  lemma GuessShortByOne(ty: FieldType, vs: seq<Value>)
    requires IsPackable(ty) && |PackedData(ty, vs)| <= INT_MAX
    ensures var guess, actual := Uint32Size(TypeMinSize(ty) * |vs|), Uint32Size(|PackedData(ty, vs)|);
            guess <= actual <= guess + 1
  {
    PackedBounds(ty, vs);
  }

  method PackElements(ty: FieldType, vs: seq<Value>, out: array<byte>, at: nat) returns (rv: nat)
    requires IsPackable(ty) && at + |PackedData(ty, vs)| <= out.Length
    modifies out
    ensures rv == |PackedData(ty, vs)|
    ensures out[..] == Splice(old(out[..]), at, PackedData(ty, vs))
  {
    hide Splice, PackedData, ScalarData;
    ghost var base := out[..];
    ghost var done: seq<byte> := [];
    rv := 0;
    var i := 0;
    SpliceEmpty(base, at);
    NoElements(ty);
    assert vs[..0] == [];
    while i < |vs|
      invariant 0 <= i <= |vs| && rv == |done| && at + rv <= out.Length
      invariant done == PackedData(ty, vs[..i])
      invariant out[..] == Splice(base, at, done)
    {
      PackedNext(ty, vs, i);
      ghost var b1 := out[..];
      var n := PackScalar(ty, vs[i], out, at + rv);
      ThenWrite(base, at, done, b1, ScalarData(ty, vs[i]), out[..]);
      done := done + ScalarData(ty, vs[i]);
      rv := rv + n;
      i := i + 1;
    }
    assert vs[..|vs|] == vs;
  }

  lemma NoElements(ty: FieldType)
    ensures PackedData(ty, []) == []
  {
  }

  lemma {:induction false} PackedNext(ty: FieldType, vs: seq<Value>, i: nat)
    requires i < |vs|
    ensures PackedData(ty, vs[..i + 1]) == PackedData(ty, vs[..i]) + ScalarData(ty, vs[i])
    ensures |PackedData(ty, vs[..i + 1])| <= |PackedData(ty, vs)|
    decreases |vs|
  {
    hide ScalarData;
    assert vs[..i + 1][..i] == vs[..i];
    if i == |vs| - 1 {
      assert vs[..i + 1] == vs;
    } else {
      var shorter := vs[..|vs| - 1];
      PackedNext(ty, shorter, i);
      assert shorter[..i + 1] == vs[..i + 1];
    }
  }

  /** Length and payload of a packed field: the payload goes where the guessed length leaves it. */
  method PackedBodyPack(ty: FieldType, vs: seq<Value>, out: array<byte>, at: nat) returns (rv: nat)
    requires IsPackable(ty) && vs != []
    requires |PackedData(ty, vs)| <= INT_MAX
    requires at + |Prefixed(PackedData(ty, vs))| <= out.Length
    modifies out
    ensures rv == |Prefixed(PackedData(ty, vs))|
    ensures out[..] == Splice(old(out[..]), at, Prefixed(PackedData(ty, vs)))
  {
    hide Splice, PackedData, Encode;
    ghost var base := out[..];
    ghost var payload := PackedData(ty, vs);
    var minLength := TypeMinSize(ty) * |vs|;
    var lengthSizeMin := Uint32Size(minLength);
    GuessShortByOne(ty, vs);
    Uint32SizeExact(|payload|);
    hide Uint32Size, TypeMinSize;
    var payloadLen := PackElements(ty, vs, out, at + lengthSizeMin);
    var actualLengthSize := Uint32Size(payloadLen);
    assert actualLengthSize == lengthSizeMin || actualLengthSize == lengthSizeMin + 1;
    PutLengthInFront(out, at, lengthSizeMin, payloadLen, base, payload);
    rv := actualLengthSize + payloadLen;
  }

  /** The packed branch of `repeated_field_pack`. */
  method PackedFieldPack(f: Field, vs: seq<Value>, out: array<byte>, at: nat) returns (rv: nat)
    requires IsPackable(f.ty) && vs != [] && 1 <= f.id < TWO_31
    requires |Prefixed(PackedData(f.ty, vs))| <= INT_MAX
    requires at + |RecBytes(Rec(f.id, LENGTH_PREFIXED, Prefixed(PackedData(f.ty, vs))))| <= out.Length
    modifies out
    ensures var r := Rec(f.id, LENGTH_PREFIXED, Prefixed(PackedData(f.ty, vs)));
            rv == |RecBytes(r)| && out[..] == Splice(old(out[..]), at, RecBytes(r))
  {
    ghost var base := out[..];
    ghost var body := Prefixed(PackedData(f.ty, vs));
    assert |PackedData(f.ty, vs)| <= |body|;
    hide Splice, Tag, Prefixed, PackedData;
    rv := PackTag(f.id, LENGTH_PREFIXED, out, at);
    ghost var b1 := out[..];
    var n := PackedBodyPack(f.ty, vs, out, at + rv);
    ThenWrite(base, at, Tag(f.id, LENGTH_PREFIXED), b1, body, out[..]);
    rv := rv + n;
  }

  /** The other branch: one tagged member per element. */
  method UnpackedFieldPack(schema: seq<Desc>, f: Field, vs: seq<Value>, ghost slot: Slot, out: array<byte>, at: nat)
    returns (rv: nat)
    requires FieldIdsOk(schema) && 1 <= f.id < TWO_31 && slot == List(vs) && PackableSlot(schema, slot)
    requires |RecsBytes(ListRecs(schema, f, vs))| <= INT_MAX
    requires at + |RecsBytes(ListRecs(schema, f, vs))| <= out.Length
    modifies out
    ensures rv == |RecsBytes(ListRecs(schema, f, vs))|
    ensures out[..] == Splice(old(out[..]), at, RecsBytes(ListRecs(schema, f, vs)))
    decreases slot, 2
  {
    ghost var base := out[..];
    rv := 0;
    var i := 0;
    ghost var done: seq<byte> := [];
    SpliceEmpty(base, at);
    EmptyList(schema, f);
    assert vs[..0] == [];
    hide Splice, RecsBytes, ListRecs, RecBytes, FieldIdsOk, PackableValue;
    while i < |vs|
      invariant 0 <= i <= |vs| && rv == |done| && at + rv <= out.Length
      invariant done == RecsBytes(ListRecs(schema, f, vs[..i]))
      invariant out[..] == Splice(base, at, done)
    {
      ListNext(schema, f, vs, i);
      ListPrefix(schema, f, vs, i + 1);
      RecLength(ValueRec(schema, f, vs[i]));
      ghost var b1 := out[..];
      var n := RequiredFieldPack(schema, f, vs[i], out, at + rv);
      ThenWrite(base, at, done, b1, RecBytes(ValueRec(schema, f, vs[i])), out[..]);
      done := done + RecBytes(ValueRec(schema, f, vs[i]));
      rv := rv + n;
      i := i + 1;
    }
    assert vs[..|vs|] == vs;
  }

  lemma RecLength(r: Rec)
    requires r.wireType < 8
    ensures |r.data| < |RecBytes(r)|
  {
  }

  /** The message loop's body: one field of any label. */
  method FieldPack(schema: seq<Desc>, m: Message, i: nat, out: array<byte>, at: nat) returns (rv: nat)
    requires FieldIdsOk(schema) && Packable(schema, m) && i < |m.slots|
    requires |RecsBytes(FieldRecs(schema, schema[m.desc].fields[i], m, i))| <= INT_MAX
    requires at + |RecsBytes(FieldRecs(schema, schema[m.desc].fields[i], m, i))| <= out.Length
    modifies out
    ensures var recs := FieldRecs(schema, schema[m.desc].fields[i], m, i);
            rv == |RecsBytes(recs)| && out[..] == Splice(old(out[..]), at, RecsBytes(recs))
    decreases m, 8, 0
  {
    var f := schema[m.desc].fields[i];
    assert PackableSlot(schema, m.slots[i]);
    assert 1 <= f.id < TWO_31 && (f.rule.Repeated? && f.rule.packed ==> IsPackable(f.ty));
    SpliceEmpty(out[..], at);
    assert RecsBytes([]) == [];
    hide Splice, RecBytes, FieldIdsOk, RecsBytes, PackedData, Prefixed;
    rv := 0;
    if f.rule.Repeated? {
      if m.slots[i].List? {
        var vs := m.slots[i].vs;
        if !f.rule.packed {
          rv := UnpackedFieldPack(schema, f, vs, m.slots[i], out, at);
        } else if |vs| != 0 {
          OneRec(Rec(f.id, LENGTH_PREFIXED, Prefixed(PackedData(f.ty, vs))));
          RecLength(Rec(f.id, LENGTH_PREFIXED, Prefixed(PackedData(f.ty, vs))));
          rv := PackedFieldPack(f, vs, out, at);
        }
      }
    } else {
      match Emitted(f, m, i) {
        case None =>
        case Some(v) =>
          EmittedPackable(schema, f, m, i);
          OneRec(ValueRec(schema, f, v));
          RecLength(ValueRec(schema, f, v));
          rv := RequiredFieldPack(schema, f, v, out, at);
      }
    }
  }

  /** The message loop has written the records of the first `i` fields. */
  ghost predicate FieldsDone(schema: seq<Desc>, m: Message, i: nat, done: seq<byte>) {
    && m.desc < |schema| && i <= |m.slots| && |m.slots| == |schema[m.desc].fields|
    && done == RecsBytes(FieldsRecs(schema, m, i)) && |done| <= |Enc(schema, m)|
  }

  lemma FieldsStart(schema: seq<Desc>, m: Message)
    requires m.desc < |schema| && |m.slots| == |schema[m.desc].fields|
    ensures FieldsDone(schema, m, 0, [])
  {
    NoFields(schema, m);
  }

  lemma FieldsStep(schema: seq<Desc>, m: Message, i: nat, done: seq<byte>)
    requires FieldsDone(schema, m, i, done) && i < |m.slots|
    ensures i < |schema[m.desc].fields|
    ensures var more := RecsBytes(FieldRecs(schema, schema[m.desc].fields[i], m, i));
            FieldsDone(schema, m, i + 1, done + more) && |done| + |more| <= |Enc(schema, m)|
  {
    hide RecsBytes, FieldsRecs, Enc, FieldRecs;
    FieldRoom(schema, m, i);
    FieldsNext(schema, m, i);
  }

  /** The next field behind what the message loop has written. */
  method FieldPackAt(schema: seq<Desc>, m: Message, i: nat, out: array<byte>, at: nat, rv: nat,
                        ghost base: seq<byte>, ghost done: seq<byte>)
    returns (n: nat)
    requires FieldIdsOk(schema) && Packable(schema, m) && i < |m.slots|
    requires |RecsBytes(FieldRecs(schema, schema[m.desc].fields[i], m, i))| <= INT_MAX
    requires at + rv + |RecsBytes(FieldRecs(schema, schema[m.desc].fields[i], m, i))| <= out.Length
    requires |base| == out.Length && rv == |done| && out[..] == Splice(base, at, done)
    modifies out
    ensures var recs := FieldRecs(schema, schema[m.desc].fields[i], m, i);
            n == |RecsBytes(recs)| && out[..] == Splice(base, at, done + RecsBytes(recs))
    decreases m, 8, 1
  {
    ghost var b1 := out[..];
    ghost var recs := FieldRecs(schema, schema[m.desc].fields[i], m, i);
    hide Splice, FieldRecs, RecsBytes, FieldIdsOk, PackableSlot, PackableValue;
    n := FieldPack(schema, m, i, out, at + rv);
    ThenWrite(base, at, done, b1, RecsBytes(recs), out[..]);
  }

  /** The buffer and the length returned so far after the first `i` fields. */
  ghost predicate FieldsWritten(schema: seq<Desc>, m: Message, i: nat, now: seq<byte>, base: seq<byte>, at: nat, rv: nat)
  {
    && at + |Enc(schema, m)| <= |base| == |now| && m.desc < |schema| && i <= |m.slots| == |schema[m.desc].fields|
    && var done := RecsBytes(FieldsRecs(schema, m, i));
    && FieldsDone(schema, m, i, done) && rv == |done| && now == Splice(base, at, done)
  }

  lemma NothingWritten(schema: seq<Desc>, m: Message, base: seq<byte>, at: nat)
    requires m.desc < |schema| && |m.slots| == |schema[m.desc].fields| && at + |Enc(schema, m)| <= |base|
    ensures FieldsWritten(schema, m, 0, base, base, at, 0)
  {
    FieldsStart(schema, m);
    SpliceEmpty(base, at);
    hide Enc, FieldsRecs, Splice;
  }

  lemma AllWritten(schema: seq<Desc>, m: Message, now: seq<byte>, base: seq<byte>, at: nat, rv: nat)
    requires FieldsWritten(schema, m, |m.slots|, now, base, at, rv)
    ensures m.desc < |schema| && |m.slots| == |FieldsOf(schema, m)|
    ensures var done := RecsBytes(FieldsRecs(schema, m, |m.slots|));
            rv == |done| && at + |done| <= |base| && |done| <= |Enc(schema, m)| && now == Splice(base, at, done)
  {
    hide Enc, RecsBytes, FieldsRecs, Splice;
  }

  /** One turn of the loop over the fields. */
  method FieldPackNext(schema: seq<Desc>, m: Message, i: nat, out: array<byte>, at: nat, rv: nat, ghost base: seq<byte>)
    returns (n: nat)
    requires FieldIdsOk(schema) && Packable(schema, m) && i < |m.slots| && |Enc(schema, m)| <= INT_MAX
    requires FieldsWritten(schema, m, i, out[..], base, at, rv)
    modifies out
    ensures FieldsWritten(schema, m, i + 1, out[..], base, at, rv + n)
    decreases m, 8, 2
  {
    ghost var done := RecsBytes(FieldsRecs(schema, m, i));
    FieldsStep(schema, m, i, done);
    ghost var more := RecsBytes(FieldRecs(schema, schema[m.desc].fields[i], m, i));
    hide Splice, RecsBytes, FieldsRecs, Enc, FieldRecs, Packable, FieldIdsOk;
    n := FieldPackAt(schema, m, i, out, at, rv, base, done);
  }

  method FieldsPack(schema: seq<Desc>, m: Message, out: array<byte>, at: nat) returns (rv: nat)
    requires FieldIdsOk(schema) && Packable(schema, m) && |Enc(schema, m)| <= INT_MAX
    requires at + |Enc(schema, m)| <= out.Length
    modifies out
    ensures FieldsWritten(schema, m, |m.slots|, out[..], old(out[..]), at, rv)
    decreases m, 9
  {
    hide *;
    ghost var base := out[..];
    PackableShape(schema, m);
    NothingWritten(schema, m, base, at);
    rv := 0;
    var i := 0;
    while i < |m.slots|
      invariant 0 <= i <= |m.slots| && FieldsWritten(schema, m, i, out[..], base, at, rv)
    {
      var n := FieldPackNext(schema, m, i, out, at, rv, base);
      rv := rv + n;
      i := i + 1;
    }
  }

  /** `unknown_field_pack` */
  method UnknownFieldPack(u: UnknownField, out: array<byte>, at: nat) returns (rv: nat)
    requires u.tag < TWO_32 && u.wireType < 8
    requires at + |RecBytes(Rec(u.tag, u.wireType, u.data))| <= out.Length
    modifies out
    ensures rv == |RecBytes(Rec(u.tag, u.wireType, u.data))|
    ensures out[..] == Splice(old(out[..]), at, RecBytes(Rec(u.tag, u.wireType, u.data)))
  {
    hide Splice, Tag;
    ghost var base := out[..];
    rv := PackTag(u.tag, u.wireType, out, at);
    ghost var b1 := out[..];
    PackBytes(u.data, out, at + rv);
    ThenWrite(base, at, Tag(u.tag, u.wireType), b1, u.data, out[..]);
    rv := rv + |u.data|;
  }

  method UnknownsPack(us: seq<UnknownField>, out: array<byte>, at: nat) returns (rv: nat)
    requires forall j :: 0 <= j < |us| ==> us[j].tag < TWO_32 && us[j].wireType < 8
    requires at + |RecsBytes(UnknownRecs(us))| <= out.Length
    modifies out
    ensures rv == |RecsBytes(UnknownRecs(us))|
    ensures out[..] == Splice(old(out[..]), at, RecsBytes(UnknownRecs(us)))
  {
    assert us[..0] == [] && RecsBytes(UnknownRecs([])) == [];
    hide RecsBytes, UnknownRecs, RecBytes, Splice;
    ghost var base := out[..];
    ghost var done: seq<byte> := [];
    rv := 0;
    var j := 0;
    SpliceEmpty(base, at);
    while j < |us|
      invariant 0 <= j <= |us|
      invariant rv == |done| && at + rv <= out.Length
      invariant done == RecsBytes(UnknownRecs(us[..j]))
      invariant out[..] == Splice(base, at, done)
    {
      UnknownNext(us, j);
      UnknownPrefix(us, j + 1);
      ghost var b1 := out[..];
      ghost var more := RecBytes(Rec(us[j].tag, us[j].wireType, us[j].data));
      var n := UnknownFieldPack(us[j], out, at + rv);
      ThenWrite(base, at, done, b1, more, out[..]);
      done := done + more;
      rv := rv + n;
      j := j + 1;
    }
    assert us[..j] == us;
  }

  /** Writes exactly the encoding of `m` at `at` and returns its length. */
  method Pack(schema: seq<Desc>, m: Message, out: array<byte>, at: nat) returns (rv: nat)
    requires FieldIdsOk(schema) && Packable(schema, m) && |Enc(schema, m)| <= INT_MAX
    requires at + |Enc(schema, m)| <= out.Length
    modifies out
    ensures rv == |Enc(schema, m)|
    ensures out[..] == Splice(old(out[..]), at, Enc(schema, m))
    decreases m, 10
  {
    hide *;
    PackableShape(schema, m);
    UnknownsPackable(schema, m);
    EncParts(schema, m);
    ghost var base := out[..];
    rv := FieldsPack(schema, m, out, at);
    AllWritten(schema, m, out[..], base, at, rv);
    ghost var b1 := out[..];
    var n := UnknownsPack(m.unknown, out, at + rv);
    ThenWrite(base, at, RecsBytes(FieldsRecs(schema, m, |m.slots|)), b1, RecsBytes(UnknownRecs(m.unknown)), out[..]);
    rv := rv + n;
  }
}
