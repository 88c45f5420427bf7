/**
 The encoding of a message written out byte for byte, after "Base 128 Varints" and "Message
 Structure" of the Protocol Buffers Encoding specification. It knows no records and no wire
 types by name: every key is a number. The encoding of `WireFormat` is proved to be the same.
 */
module WireStructure {
  import opened Common
  import opened Bytes
  import opened Varint
  import opened Schema
  import opened WireMessage
  import opened WireFormat
  import opened WireRoundTrip

  // ----- members -----

  /** Four bytes, least significant first. */
  function FourBytes(n: nat): seq<byte>
    requires n < 0x1_0000_0000
  {
    [n % 0x100, n / 0x100 % 0x100, n / 0x1_0000 % 0x100, n / 0x100_0000]
  }

  function EightBytes(n: nat): seq<byte>
    requires n < 0x1_0000_0000_0000_0000
  {
    [n % 0x100, n / 0x100 % 0x100, n / 0x1_0000 % 0x100, n / 0x100_0000 % 0x100] + FourBytes(n / 0x1_0000_0000)
  }

  /** A number or a boolean. */
  function ScalarBytes(ty: FieldType, v: Value): seq<byte>
    requires ScalarFits(ty, v)
  {
    if v.Flag? then [if v.b then 1 else 0]
    else if ty in {SINT32, SINT64} then Encode(if v.n < 0 then -2 * v.n - 1 else 2 * v.n)
    else if ty in {FIXED32, SFIXED32} then FourBytes(if v.n < 0 then v.n + 0x1_0000_0000 else v.n)
    else if ty in {FIXED64, SFIXED64} then EightBytes(if v.n < 0 then v.n + 0x1_0000_0000_0000_0000 else v.n)
    else Encode(if v.n < 0 then v.n + 0x1_0000_0000_0000_0000 else v.n)
  }

  /** The key of a field ahead of one of its values: the field number above three bits for the wire type. */
  function Key(id: nat, ty: FieldType): nat {
    if ty in {FIXED64, SFIXED64} then 8 * id + 1
    else if ty.STRING? || ty.BYTES? || ty.MESSAGE? then 8 * id + 2
    else if ty in {FIXED32, SFIXED32} then 8 * id + 5
    else 8 * id
  }

  /** Key and member of a value. */
  function ValueBytes(schema: seq<Desc>, id: nat, ty: FieldType, v: Value): seq<byte>
    requires WellFormed(schema) && ValueFits(schema, ty, v)
    decreases v, 0
  {
    Encode(Key(id, ty)) +
    match v
    case Text(s) => Encode(|s|) + s
    case Blob(s) => Encode(|s|) + s
    case Msg(m) => (var s := MessageBytes(schema, m); Encode(|s|) + s)
    case Num(_) => ScalarBytes(ty, v)
    case Flag(_) => ScalarBytes(ty, v)
    case _ => [0]
  }

  // ----- fields and messages -----

  function ValuesBytes(schema: seq<Desc>, id: nat, ty: FieldType, vs: seq<Value>): seq<byte>
    requires WellFormed(schema) && ElementsFit(schema, ty, vs)
    decreases vs, 1
  {
    if vs == [] then [] else ValueBytes(schema, id, ty, vs[0]) + ValuesBytes(schema, id, ty, vs[1..])
  }

  /** The elements of a packed field, without keys. */
  function ElementsBytes(ty: FieldType, vs: seq<Value>): seq<byte>
    requires forall i :: 0 <= i < |vs| ==> ScalarFits(ty, vs[i])
  {
    if vs == [] then [] else ScalarBytes(ty, vs[0]) + ElementsBytes(ty, vs[1..])
  }

  predicate IsNull(v: Value) {
    v in {TextNull, TextDefault, MsgNull}
  }

  /** The part of the encoding that comes from field `i`; what is at its default or unset is left out. */
  function FieldBytes(schema: seq<Desc>, m: Message, i: nat): seq<byte>
    requires WellFormed(schema) && Fits(schema, m) && i < |m.slots|
    decreases m, 0
  {
    var f, slot := schema[m.desc].fields[i], m.slots[i];
    FieldOk(schema, m, i);
    match f.rule
    case Unlabeled =>
      if IsNull(slot.v) || slot.v in {Num(0), Flag(false), Text([]), Blob([])} then []
      else ValueBytes(schema, f.id, f.ty, slot.v)
    case Optional =>
      if slot.Plain? then (if IsNull(slot.v) then [] else ValueBytes(schema, f.id, f.ty, slot.v))
      else if slot.has then ValueBytes(schema, f.id, f.ty, slot.v)
      else []
    case Oneof(g) =>
      var u := m.unions[g];
      if u.Holding? && u.which == f.id && !IsNull(u.v) then ValueBytes(schema, f.id, f.ty, u.v) else []
    case Repeated(packed) =>
      if !packed then ValuesBytes(schema, f.id, f.ty, slot.vs)
      else if slot.vs == [] then []
      else
        var s := ElementsBytes(f.ty, slot.vs);
        Encode(8 * f.id + 2) + Encode(|s|) + s
  }

  function FieldsBytes(schema: seq<Desc>, m: Message, n: nat): seq<byte>
    requires WellFormed(schema) && Fits(schema, m) && n <= |m.slots|
    decreases m, 1, n
  {
    if n == 0 then [] else FieldsBytes(schema, m, n - 1) + FieldBytes(schema, m, n - 1)
  }

  /** Unknown fields keep number, wire type and bytes. */
  function UnknownBytes(us: seq<UnknownField>): seq<byte> {
    if us == [] then []
    else Encode(8 * us[0].tag + us[0].wireType) + us[0].data + UnknownBytes(us[1..])
  }

  /** The fields in the order of the descriptor, then the unknown fields. */
  function MessageBytes(schema: seq<Desc>, m: Message): seq<byte>
    requires WellFormed(schema) && Fits(schema, m)
    decreases m, 2
  {
    FieldsBytes(schema, m, |m.slots|) + UnknownBytes(m.unknown)
  }

  /** What fits where. */
  lemma FieldOk(schema: seq<Desc>, m: Message, i: nat)
    requires WellFormed(schema) && Fits(schema, m) && i < |m.slots|
    ensures m.desc < |schema| && |schema[m.desc].fields| == |m.slots|
    ensures var f, slot := schema[m.desc].fields[i], m.slots[i];
            && 1 <= f.id < TWO_31
            && match f.rule
               case Unlabeled => slot.Plain? && ValueFits(schema, f.ty, slot.v)
               case Optional => (slot.Plain? || slot.Maybe?) && ValueFits(schema, f.ty, slot.v)
                                && (slot.Maybe? ==> !IsNull(slot.v))
               case Oneof(g) =>
                 g < |m.unions| && (m.unions[g].Holding? && m.unions[g].which == f.id ==> ValueFits(schema, f.ty, m.unions[g].v))
               case Repeated(packed) =>
                 slot.List? && ElementsFit(schema, f.ty, slot.vs)
                 && (packed ==> forall k :: 0 <= k < |slot.vs| ==> ScalarFits(f.ty, slot.vs[k]))
  {
    var d := schema[m.desc];
    assert WellFormedDesc(d, |schema|);
    assert SlotFits(schema, d.fields[i], m.slots[i]);
    assert WellFormedField(d.fields[i], d.groups, |schema|);
    if d.fields[i].rule.Oneof? {
      assert UnionFits(schema, d.fields, d.fields[i].rule.group, m.unions[d.fields[i].rule.group]);
      FindFieldExact(d, |schema|, i);
    }
  }

  // ----- the encoding by records is the same -----

  lemma NextByte(n: nat, k: nat)
    ensures LittleEndian(n, k + 1) == [n % 256] + LittleEndian(n / 256, k)
  {
  }

  lemma Quotients(n: nat)
    ensures n / 256 / 256 == n / 0x1_0000 && n / 256 / 256 / 256 == n / 0x100_0000
    ensures n / 256 / 256 / 256 / 256 == n / 0x1_0000_0000
  {
  }

  /** The four low bytes come first. */
  lemma LowBytes(n: nat, k: nat)
    ensures LittleEndian(n, k + 4)
         == [n % 0x100, n / 0x100 % 0x100, n / 0x1_0000 % 0x100, n / 0x100_0000 % 0x100] + LittleEndian(n / 0x1_0000_0000, k)
  {
    hide LittleEndian;
    var a := n / 256;
    var b := a / 256;
    Quotients(n);
    NextByte(n, k + 3);
    NextByte(a, k + 2);
    NextByte(b, k + 1);
    NextByte(b / 256, k);
  }

  lemma NoBytes(n: nat)
    ensures LittleEndian(n, 0) == []
  {
  }

  lemma TopByte(n: nat)
    requires n < TWO_32
    ensures n / 0x100_0000 % 0x100 == n / 0x100_0000
  {
  }

  lemma FourBytesAre(n: nat)
    requires n < TWO_32
    ensures LittleEndian(n, 4) == FourBytes(n)
  {
    hide LittleEndian;
    LowBytes(n, 0);
    NoBytes(n / 0x1_0000_0000);
    TopByte(n);
  }

  lemma EightBytesAre(n: nat)
    requires n < TWO_64
    ensures LittleEndian(n, 8) == EightBytes(n)
  {
    LowBytes(n, 4);
    FourBytesAre(n / TWO_32);
    hide LittleEndian;
  }

  /** The member bytes of a number or a boolean. */
  lemma ScalarIs(ty: FieldType, v: Value)
    requires ScalarFits(ty, v)
    ensures ScalarData(ty, v) == ScalarBytes(ty, v)
  {
    hide LittleEndian, Encode, FourBytes, EightBytes;
    if v.Num? {
      match ty
      case SINT32 => ZigZagInverse32(v.n); Wrap32(v.n);
      case INT32 => Wrap32(v.n);
      case ENUM => Wrap32(v.n);
      case SINT64 => ZigZagInverse64(v.n); Wrap64(v.n);
      case INT64 => Wrap64(v.n);
      case FIXED32 => FourBytesAre(v.n % TWO_32);
      case SFIXED32 => FourBytesAre(v.n % TWO_32);
      case FIXED64 => EightBytesAre(v.n % TWO_64);
      case SFIXED64 => EightBytesAre(v.n % TWO_64);
      case _ =>
    }
  }

  /** The number in front of a record. */
  lemma KeyIs(id: nat, ty: FieldType)
    ensures Key(id, ty) == 8 * id + WireTypeOf(ty)
  {
  }

  lemma TextIs(schema: seq<Desc>, id: nat, ty: FieldType, v: Value)
    requires WellFormed(schema) && ValueFits(schema, ty, v) && !IsPackable(ty) && !v.Msg?
    ensures Encode(Key(id, ty)) + Data(schema, ty, v) == ValueBytes(schema, id, ty, v)
  {
    EncodeZero();
    hide Encode, Fits, WellFormed, Key;
    assert [0] + [] == [0];
  }

  lemma MessageIs(schema: seq<Desc>, id: nat, ty: FieldType, v: Value)
    requires WellFormed(schema) && ValueFits(schema, ty, v) && v.Msg?
    ensures Encode(Key(id, ty)) + Data(schema, ty, v) == ValueBytes(schema, id, ty, v)
    decreases v, 0, 0
  {
    hide Encode, Fits, WellFormed, Enc, MessageBytes, Key;
    EncodingIs(schema, v.m);
  }

  lemma NumberIs(schema: seq<Desc>, id: nat, ty: FieldType, v: Value)
    requires WellFormed(schema) && ValueFits(schema, ty, v) && IsPackable(ty)
    ensures Encode(Key(id, ty)) + Data(schema, ty, v) == ValueBytes(schema, id, ty, v)
  {
    hide ScalarData, ScalarBytes, Encode, Fits, WellFormed, InRange, Key;
    ScalarIs(ty, v);
  }

  lemma MessageHasMessageType(schema: seq<Desc>, ty: FieldType, v: Value)
    requires ValueFits(schema, ty, v) && v.Msg?
    ensures !IsPackable(ty)
  {
    hide Fits;
  }

  /** The record of a value starts with its key. */
  lemma ValueIs(schema: seq<Desc>, id: nat, ty: FieldType, v: Value)
    requires WellFormed(schema) && ValueFits(schema, ty, v)
    ensures RecBytes(Rec(id, WireTypeOf(ty), Data(schema, ty, v))) == ValueBytes(schema, id, ty, v)
    decreases v, 0, 1
  {
    KeyIs(id, ty);
    hide WellFormed, ValueFits, Data, ValueBytes, Encode, Key, WireTypeOf;
    if v.Msg? {
      MessageHasMessageType(schema, ty, v);
      MessageIs(schema, id, ty, v);
    } else if IsPackable(ty) {
      NumberIs(schema, id, ty, v);
    } else {
      TextIs(schema, id, ty, v);
    }
  }

  lemma EncodeZero()
    ensures Encode(0) == [0]
  {
  }

  lemma {:induction false} ValuesAre(schema: seq<Desc>, f: Field, vs: seq<Value>)
    requires WellFormed(schema) && ElementsFit(schema, f.ty, vs)
    ensures RecsBytes(ListRecs(schema, f, vs)) == ValuesBytes(schema, f.id, f.ty, vs)
    decreases vs, 1
  {
    if vs != [] {
      ValueIs(schema, f.id, f.ty, vs[0]);
      ValuesAre(schema, f, vs[1..]);
      hide RecBytes, ValueBytes, ValueFits, WellFormed, Data;
      var rest := ListRecs(schema, f, vs[1..]);
      var r := Rec(f.id, WireTypeOf(f.ty), Data(schema, f.ty, vs[0]));
      assert ([r] + rest)[1..] == rest;
    }
  }

  lemma {:induction false} ElementsAre(ty: FieldType, vs: seq<Value>)
    requires IsPackable(ty) && forall i :: 0 <= i < |vs| ==> ScalarFits(ty, vs[i])
    ensures PackedData(ty, vs) == ElementsBytes(ty, vs)
  {
    if vs != [] {
      PackedDataFront(ty, vs);
      ScalarIs(ty, vs[0]);
      ElementsAre(ty, vs[1..]);
    }
  }

  /** A run of one record. */
  lemma OneRecord(r: Rec)
    requires r.wireType < 8
    ensures RecsBytes([r]) == RecBytes(r)
  {
    assert [r][1..] == [];
  }

  ghost predicate SingularlyWritten(schema: seq<Desc>, m: Message, i: nat)
    requires WellFormed(schema) && Fits(schema, m) && i < |m.slots| && m.desc < |schema| && i < |schema[m.desc].fields|
  {
    var f := schema[m.desc].fields[i];
    var e := Emitted(f, m, i);
    && (e.Some? ==> ValueFits(schema, f.ty, e.value))
    && FieldBytes(schema, m, i) == if e.Some? then ValueBytes(schema, f.id, f.ty, e.value) else []
  }

  lemma UnlabeledBytes(schema: seq<Desc>, m: Message, i: nat)
    requires WellFormed(schema) && Fits(schema, m) && i < |m.slots| && m.desc < |schema| && i < |schema[m.desc].fields|
    requires schema[m.desc].fields[i].rule.Unlabeled?
    ensures SingularlyWritten(schema, m, i)
  {
    FieldOk(schema, m, i);
    hide Fits, WellFormed, ValueFits, ValueBytes, ElementsFit;
  }

  lemma OptionalBytes(schema: seq<Desc>, m: Message, i: nat)
    requires WellFormed(schema) && Fits(schema, m) && i < |m.slots| && m.desc < |schema| && i < |schema[m.desc].fields|
    requires schema[m.desc].fields[i].rule.Optional?
    ensures SingularlyWritten(schema, m, i)
  {
    FieldOk(schema, m, i);
    hide Fits, WellFormed, ValueFits, ValueBytes, ElementsFit;
  }

  lemma OneofBytes(schema: seq<Desc>, m: Message, i: nat)
    requires WellFormed(schema) && Fits(schema, m) && i < |m.slots| && m.desc < |schema| && i < |schema[m.desc].fields|
    requires schema[m.desc].fields[i].rule.Oneof?
    ensures SingularlyWritten(schema, m, i)
  {
    FieldOk(schema, m, i);
    hide Fits, WellFormed, ValueFits, ValueBytes, ElementsFit;
  }

  /** A singular field is left out exactly when the encoder emits no value. */
  lemma SingularBytes(schema: seq<Desc>, m: Message, i: nat)
    requires WellFormed(schema) && Fits(schema, m) && i < |m.slots| && m.desc < |schema| && i < |schema[m.desc].fields|
    requires !schema[m.desc].fields[i].rule.Repeated?
    ensures SingularlyWritten(schema, m, i)
  {
    hide *;
    match schema[m.desc].fields[i].rule
    case Unlabeled => UnlabeledBytes(schema, m, i);
    case Optional => OptionalBytes(schema, m, i);
    case Oneof(_) => OneofBytes(schema, m, i);
  }

  lemma SingularIs(schema: seq<Desc>, m: Message, i: nat)
    requires WellFormed(schema) && Fits(schema, m) && i < |m.slots| && m.desc < |schema| && i < |schema[m.desc].fields|
    requires !schema[m.desc].fields[i].rule.Repeated?
    ensures RecsBytes(FieldRecs(schema, schema[m.desc].fields[i], m, i)) == FieldBytes(schema, m, i)
    decreases m, 0, 0
  {
    hide Fits, WellFormed, ValueFits, ValueBytes, FieldBytes, Emitted, Data, RecBytes, RecsBytes;
    SingularBytes(schema, m, i);
    NoRecord();
    var f, e := schema[m.desc].fields[i], Emitted(schema[m.desc].fields[i], m, i);
    if e.Some? {
      ValueIs(schema, f.id, f.ty, e.value);
      OneRecord(Rec(f.id, WireTypeOf(f.ty), Data(schema, f.ty, e.value)));
    }
  }

  lemma RepeatedIs(schema: seq<Desc>, m: Message, i: nat)
    requires WellFormed(schema) && Fits(schema, m) && i < |m.slots| && m.desc < |schema| && i < |schema[m.desc].fields|
    requires schema[m.desc].fields[i].rule.Repeated?
    ensures RecsBytes(FieldRecs(schema, schema[m.desc].fields[i], m, i)) == FieldBytes(schema, m, i)
    decreases m, 0, 0
  {
    hide Fits, WellFormed, ValueFits, ElementsFit, ValuesBytes, ElementsBytes, ListRecs, PackedData, RecsBytes;
    FieldOk(schema, m, i);
    var f, slot := schema[m.desc].fields[i], m.slots[i];
    if f.rule.packed {
      assert slot.vs != [] ==> IsPackable(f.ty) by {
        assert slot.vs != [] ==> ScalarFits(f.ty, slot.vs[0]);
      }
      PackedIs(f, slot.vs);
    } else {
      ValuesAre(schema, f, slot.vs);
    }
  }

  /** What a field puts on the wire. */
  lemma FieldIs(schema: seq<Desc>, m: Message, i: nat)
    requires WellFormed(schema) && Fits(schema, m) && i < |m.slots|
    ensures m.desc < |schema| && |schema[m.desc].fields| == |m.slots|
    ensures RecsBytes(FieldRecs(schema, schema[m.desc].fields[i], m, i)) == FieldBytes(schema, m, i)
    decreases m, 0, 1
  {
    hide *;
    FieldOk(schema, m, i);
    if schema[m.desc].fields[i].rule.Repeated? {
      RepeatedIs(schema, m, i);
    } else {
      SingularIs(schema, m, i);
    }
  }

  lemma NoRecord()
    ensures RecsBytes([]) == []
  {
  }

  lemma PackedIs(f: Field, vs: seq<Value>)
    requires vs != [] ==> IsPackable(f.ty)
    requires forall i :: 0 <= i < |vs| ==> ScalarFits(f.ty, vs[i])
    ensures var s := ElementsBytes(f.ty, vs);
            RecsBytes(if vs == [] then [] else [Rec(f.id, LENGTH_PREFIXED, Prefixed(PackedData(f.ty, vs)))])
            == if vs == [] then [] else Encode(8 * f.id + 2) + Encode(|s|) + s
  {
    hide Encode, PackedData, ElementsBytes, ScalarFits;
    NoRecord();
    if vs != [] {
      ElementsAre(f.ty, vs);
    }
    OneRecord(Rec(f.id, LENGTH_PREFIXED, Prefixed(PackedData(f.ty, vs))));
  }

  lemma {:induction false} FieldsBytesAre(schema: seq<Desc>, m: Message, n: nat)
    requires WellFormed(schema) && Fits(schema, m) && n <= |m.slots|
    ensures Shaped(schema, m) && RecsBytes(FieldsRecs(schema, m, n)) == FieldsBytes(schema, m, n)
    decreases m, 1, n
  {
    hide Fits, WellFormed, FieldRecs, FieldBytes, RecsBytes, RecsOk, TypesOk;
    FitsShape(schema, m);
    if n == 0 {
      NoRecord();
    } else {
      FieldsBytesAre(schema, m, n - 1);
      FieldIs(schema, m, n - 1);
      RecsBytesAppend(FieldsRecs(schema, m, n - 1), FieldRecs(schema, schema[m.desc].fields[n - 1], m, n - 1));
    }
  }

  lemma {:induction false} UnknownsAre(fields: seq<Field>, us: seq<UnknownField>)
    requires UnknownsFit(fields, us)
    ensures RecsBytes(UnknownRecs(us)) == UnknownBytes(us)
  {
    if us != [] {
      assert UnknownFits(fields, us[0]);
      UnknownsAre(fields, us[1..]);
      hide UnknownFits, Encode;
      assert UnknownRecs(us) == [UnknownRec(us[0])] + UnknownRecs(us[1..]);
      assert UnknownRecs(us)[1..] == UnknownRecs(us[1..]);
    }
  }

  /** The encoding of a message is the one that the specification describes. */
  lemma EncodingIs(schema: seq<Desc>, m: Message)
    requires WellFormed(schema) && Fits(schema, m)
    ensures Enc(schema, m) == MessageBytes(schema, m)
    decreases m, 2
  {
    RecsParts(schema, m);
    FieldsBytesAre(schema, m, |m.slots|);
    UnknownsAre(schema[m.desc].fields, m.unknown);
    hide *;
    RecsBytesAppend(FieldsRecs(schema, m, |m.slots|), UnknownRecs(m.unknown));
    MessageParts(schema, m);
  }

  lemma MessageParts(schema: seq<Desc>, m: Message)
    requires WellFormed(schema) && Fits(schema, m)
    ensures MessageBytes(schema, m) == FieldsBytes(schema, m, |m.slots|) + UnknownBytes(m.unknown)
  {
    hide Fits, WellFormed, FieldsBytes, UnknownBytes;
  }

  // ----- examples -----

  /** A message of one string, with field number 1. */
  function Letters(): Desc {
    Desc([Field(1, STRING, Unlabeled)], [IntRange(1, 0), IntRange(0, 1)], 0)
  }

  lemma LettersOk()
    ensures WellFormed([Letters()])
  {
    var d := Letters();
    assert forall r, j :: InRun(d, r, j) ==> r == 0 && j == 0;
    assert WellFormedField(d.fields[0], 0, 1);
    assert WellFormedDesc(d, 1);
  }

  lemma LettersRecs(m: Message)
    requires m.desc == 0 && |m.slots| == 1 && m.unknown == []
    ensures |Recs([Letters()], m)| <= 1
  {
    hide Emitted, Data, WireTypeOf;
    var schema := [Letters()];
    assert FieldsRecs(schema, m, 0) == [] && UnknownRecs([]) == [];
    assert |FieldsRecs(schema, m, 1)| <= 1;
  }

  lemma LettersFit(s: seq<byte>)
    requires 0 !in s
    ensures WellFormed([Letters()]) && Fits([Letters()], Message(0, [Plain(Text(s))], [], []))
  {
    hide Recs, WellFormed;
    LettersOk();
    LettersRecs(Message(0, [Plain(Text(s))], [], []));
    assert SlotFits([Letters()], Letters().fields[0], Plain(Text(s)));
  }

  /** The string "a" in field 1 is the key 10, the length 1 and the letter, and is read back from them. */
  lemma LetterA()
    ensures var schema, m := [Letters()], Message(0, [Plain(Text([0x61]))], [], []);
            Enc(schema, m) == [0x0A, 1, 0x61] && Decode(schema, 0, [0x0A, 1, 0x61]) == Done(m)
  {
    var schema, m := [Letters()], Message(0, [Plain(Text([0x61]))], [], []);
    LettersFit([0x61]);
    EncodingIs(schema, m);
    LetterBytes();
    LetterComesBack();
    hide *;
    RoundTrip(schema, m);
  }

  lemma LetterBytes()
    requires var m := Message(0, [Plain(Text([0x61]))], [], []); WellFormed([Letters()]) && Fits([Letters()], m)
    ensures MessageBytes([Letters()], Message(0, [Plain(Text([0x61]))], [], [])) == [0x0A, 1, 0x61]
  {
    hide Fits, WellFormed;
    var schema, m := [Letters()], Message(0, [Plain(Text([0x61]))], [], []);
    assert FieldsBytes(schema, m, 0) == [];
    assert ValueBytes(schema, 1, STRING, Text([0x61])) == [0x0A, 1, 0x61];
  }

  lemma LetterComesBack()
    ensures var m := Message(0, [Plain(Text([0x61]))], [], []); Canon([Letters()], m) == m
  {
    var schema, m := [Letters()], Message(0, [Plain(Text([0x61]))], [], []);
    assert FieldsOf(schema, m) == [Field(1, STRING, Unlabeled)] && Emitted(FieldsOf(schema, m)[0], m, 0) == Some(Text([0x61]));
    assert CanonSlots(schema, m, 0) == [];
  }
}
