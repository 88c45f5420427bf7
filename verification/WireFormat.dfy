/**
 The reference meaning of the codec: which bytes a message stands for, and which message a
 byte string decodes to. The encoders and the decoder of the other modules are proved
 against the functions here.

 A message is encoded as a run of wire records (`Rec`: field number, wire type, member
 bytes); decoding first cuts the input into records and then replays them in wire order.
 */
module WireFormat {
  import opened Common
  import opened Bytes
  import opened Varint
  import opened Schema
  import opened WireMessage

  const VARINT := 0
  const FIXED_64 := 1
  const LENGTH_PREFIXED := 2
  const FIXED_32 := 5

  /** One scanned member. `data` includes the length prefix of a length-prefixed member. */
  datatype Rec = Rec(tag: nat, wireType: nat, data: seq<byte>)

  // ----- encoding -----

  function WireTypeOf(ty: FieldType): nat {
    match ty
    case FIXED32 => FIXED_32
    case SFIXED32 => FIXED_32
    case FIXED64 => FIXED_64
    case SFIXED64 => FIXED_64
    case STRING => LENGTH_PREFIXED
    case BYTES => LENGTH_PREFIXED
    case MESSAGE(_) => LENGTH_PREFIXED
    case _ => VARINT
  }

  function NumOf(v: Value): int {
    if v.Num? then v.n else 0
  }

  function Chars(v: Value): seq<byte> {
    match v
    case Text(s) => s
    case Blob(d) => d
    case _ => []
  }

  /** A run of bytes behind its length. */
  function Prefixed(s: seq<byte>): seq<byte> {
    Encode(|s|) + s
  }

  /** The member bytes of a number or a boolean; the casts to the field's width are C's. */
  function ScalarData(ty: FieldType, v: Value): seq<byte> {
    var n := NumOf(v);
    match ty
    case SINT32 => Encode(ZigZag32(ToSigned32(n % TWO_32)))
    case INT32 => Encode(Unsigned64(ToSigned32(n % TWO_32)))
    case ENUM => Encode(Unsigned64(ToSigned32(n % TWO_32)))
    case UINT32 => Encode(n % TWO_32)
    case SINT64 => Encode(ZigZag64(ToSigned64(n % TWO_64)))
    case INT64 => Encode(n % TWO_64)
    case UINT64 => Encode(n % TWO_64)
    case FIXED32 => LittleEndian(n % TWO_32, 4)
    case SFIXED32 => LittleEndian(n % TWO_32, 4)
    case FIXED64 => LittleEndian(n % TWO_64, 8)
    case SFIXED64 => LittleEndian(n % TWO_64, 8)
    case _ => [if v.Flag? && v.b then 1 else 0]
  }

  function Data(schema: seq<Desc>, ty: FieldType, v: Value): seq<byte>
    decreases v, 4
  {
    if IsPackable(ty) then ScalarData(ty, v)
    else if ty.MESSAGE? && v.Msg? then Prefixed(Enc(schema, v.m))
    else Prefixed(Chars(v))
  }

  function RecBytes(r: Rec): seq<byte>
    requires r.wireType < 8
  {
    Tag(r.tag, r.wireType) + r.data
  }

  ghost predicate TypesOk(recs: seq<Rec>) {
    forall k :: 0 <= k < |recs| ==> recs[k].wireType < 8
  }

  function RecsBytes(recs: seq<Rec>): seq<byte>
    requires TypesOk(recs)
  {
    if recs == [] then [] else RecBytes(recs[0]) + RecsBytes(recs[1..])
  }

  /** The value a singular field puts on the wire, if it puts one there. */
  function Emitted(f: Field, m: Message, i: nat): (r: Option<Value>)
    requires i < |m.slots|
    ensures r.Some? ==> r.value < m
  {
    match f.rule
    case Unlabeled =>
      if m.slots[i].Plain? && !IsZeroish(m.slots[i].v) then Some(m.slots[i].v) else None
    case Optional =>
      if m.slots[i].Plain? && !IsAbsent(m.slots[i].v) then Some(m.slots[i].v)
      else if m.slots[i].Maybe? && m.slots[i].has then Some(m.slots[i].v) else None
    case Oneof(g) =>
      if g < |m.unions| && m.unions[g].Holding? && m.unions[g].which == f.id && !IsAbsent(m.unions[g].v)
      then Some(m.unions[g].v) else None
    case Repeated(_) => None
  }

  function ListRecs(schema: seq<Desc>, f: Field, vs: seq<Value>): (recs: seq<Rec>)
    ensures TypesOk(recs)
    decreases vs, 5
  {
    if vs == [] then []
    else [Rec(f.id, WireTypeOf(f.ty), Data(schema, f.ty, vs[0]))] + ListRecs(schema, f, vs[1..])
  }

  /** The elements of a packed field, one after the other. */
  function PackedData(ty: FieldType, vs: seq<Value>): seq<byte> {
    if vs == [] then [] else PackedData(ty, vs[..|vs| - 1]) + ScalarData(ty, vs[|vs| - 1])
  }

  function FieldRecs(schema: seq<Desc>, f: Field, m: Message, i: nat): (recs: seq<Rec>)
    requires i < |m.slots|
    ensures TypesOk(recs)
    decreases m, 0
  {
    if f.rule.Repeated? then
      if !m.slots[i].List? then []
      else if !f.rule.packed then ListRecs(schema, f, m.slots[i].vs)
      else if m.slots[i].vs == [] then []
      else [Rec(f.id, LENGTH_PREFIXED, Prefixed(PackedData(f.ty, m.slots[i].vs)))]
    else
      match Emitted(f, m, i)
      case None => []
      case Some(v) => [Rec(f.id, WireTypeOf(f.ty), Data(schema, f.ty, v))]
  }

  function FieldsOf(schema: seq<Desc>, m: Message): seq<Field> {
    if m.desc < |schema| then schema[m.desc].fields else []
  }

  /** The records of the first `n` fields. */
  function FieldsRecs(schema: seq<Desc>, m: Message, n: nat): (recs: seq<Rec>)
    requires n <= |m.slots| && n <= |FieldsOf(schema, m)|
    ensures TypesOk(recs)
    decreases m, 1, n
  {
    if n == 0 then []
    else FieldsRecs(schema, m, n - 1) + FieldRecs(schema, FieldsOf(schema, m)[n - 1], m, n - 1)
  }

  function UnknownRec(u: UnknownField): (r: Rec)
    ensures r.wireType < 8
  {
    Rec(u.tag, if u.wireType < 8 then u.wireType else 0, u.data)
  }

  function UnknownRecs(us: seq<UnknownField>): (recs: seq<Rec>)
    ensures TypesOk(recs) && |recs| == |us|
  {
    seq(|us|, j requires 0 <= j < |us| => UnknownRec(us[j]))
  }

  /** Every field has its slot. */
  predicate Shaped(schema: seq<Desc>, m: Message) {
    |m.slots| == |FieldsOf(schema, m)|
  }

  function Recs(schema: seq<Desc>, m: Message): (recs: seq<Rec>)
    ensures TypesOk(recs)
    decreases m, 2
  {
    (if Shaped(schema, m) then FieldsRecs(schema, m, |m.slots|) else []) + UnknownRecs(m.unknown)
  }

  /** The encoding of a message. */
  function Enc(schema: seq<Desc>, m: Message): seq<byte>
    decreases m, 3
  {
    RecsBytes(Recs(schema, m))
  }

  lemma {:induction false} RecsBytesAppend(a: seq<Rec>, b: seq<Rec>)
    requires TypesOk(a) && TypesOk(b)
    ensures TypesOk(a + b) && RecsBytes(a + b) == RecsBytes(a) + RecsBytes(b)
  {
    hide RecBytes;
    if a == [] {
      assert a + b == b;
    } else {
      RecsBytesAppend(a[1..], b);
      assert (a + b)[1..] == a[1..] + b;
      var x, y, z := RecBytes(a[0]), RecsBytes(a[1..]), RecsBytes(b);
      assert RecsBytes(a) == x + y;
      assert RecsBytes(a + b) == x + RecsBytes(a[1..] + b);
      assert x + (y + z) == (x + y) + z;
    }
  }

  // ----- decoding -----

  /** `scan_length_prefixed_data`: prefix and contents, 0 when the prefix is bad or too large. */
  function PrefixedLength(s: seq<byte>): (len: nat)
    ensures len <= |s|
  {
    var n := VarintLength(s, 5);
    if n == 0 || Number(s[..n]) > INT_MAX || n + Number(s[..n]) > |s| then 0 else n + Number(s[..n])
  }

  /** The length of the member at the front of `s`, 0 when there is none. */
  function MemberLength(wireType: nat, s: seq<byte>): (len: nat)
    ensures len <= |s|
  {
    if wireType == VARINT then VarintLength(s, 10)
    else if wireType == FIXED_64 then (if |s| < 8 then 0 else 8)
    else if wireType == LENGTH_PREFIXED then PrefixedLength(s)
    else if wireType == FIXED_32 then (if |s| < 4 then 0 else 4)
    else 0
  }

  /** The length prefix of a scanned member, `length_prefix_len`. */
  function PrefixLength(r: Rec): (n: nat)
    ensures n <= |r.data|
  {
    if r.wireType == LENGTH_PREFIXED then VarintLength(r.data, 5) else 0
  }

  function Payload(r: Rec): (s: seq<byte>)
    ensures |s| <= |r.data|
  {
    r.data[PrefixLength(r)..]
  }

  /** The first record of the input and the number of bytes it takes. */
  function ScanMember(s: seq<byte>): (r: Option<(Rec, nat)>)
    requires s != []
    ensures r.Some? ==> r.value.0.wireType < 8 && |r.value.0.data| < r.value.1 <= |s|
  {
    match ParsedTag(s)
    case NoTag => None
    case GotTag(tag, wireType, used) =>
      var len := MemberLength(wireType, s[used..]);
      if len == 0 then None else Some((Rec(tag, wireType, s[used..used + len]), used + len))
  }

  ghost predicate ShorterThan(recs: seq<Rec>, n: nat) {
    forall k :: 0 <= k < |recs| ==> |recs[k].data| < n
  }

  /** All records of the input, or nothing when some part of it is not a record. */
  function Scan(s: seq<byte>): (r: Option<seq<Rec>>)
    ensures r.Some? ==> TypesOk(r.value) && ShorterThan(r.value, |s|)
    decreases |s|
  {
    if s == [] then Some([])
    else match ScanMember(s)
      case None => None
      case Some((rec, used)) =>
        match Scan(s[used..])
        case None => None
        case Some(rest) => Some([rec] + rest)
  }

  function Zero(ty: FieldType): Value {
    match ty
    case BOOL => Flag(false)
    case STRING => TextDefault
    case BYTES => Blob([])
    case MESSAGE(_) => MsgNull
    case _ => Num(0)
  }

  function InitSlot(f: Field): Slot {
    match f.rule
    case Unlabeled => Plain(Zero(f.ty))
    case Optional => if IsPointer(f.ty) then Plain(Zero(f.ty)) else Maybe(false, Zero(f.ty))
    case Oneof(_) => Shared
    case Repeated(_) => List([])
  }

  function InitSlots(fields: seq<Field>): (slots: seq<Slot>)
    ensures |slots| == |fields|
    ensures forall i :: 0 <= i < |fields| ==> slots[i] == InitSlot(fields[i])
  {
    if fields == [] then [] else [InitSlot(fields[0])] + InitSlots(fields[1..])
  }

  function EmptyUnions(n: nat): (us: seq<Union>)
    ensures |us| == n && forall g :: 0 <= g < n ==> us[g] == Empty
  {
    if n == 0 then [] else EmptyUnions(n - 1) + [Empty]
  }

  /** A freshly initialised message. */
  function Init(schema: seq<Desc>, k: nat): Message
    requires k < |schema|
  {
    Message(k, InitSlots(schema[k].fields), EmptyUnions(schema[k].groups), [])
  }

  /** A C string read back from its buffer: everything before the first zero byte. */
  function CString(s: seq<byte>): seq<byte> {
    if s == [] || s[0] == 0 then [] else [s[0]] + CString(s[1..])
  }

  /** A number or boolean from its member bytes. */
  function ScalarValue(ty: FieldType, s: seq<byte>): Value {
    match ty
    case SINT32 => Num(UnZigZag32(ParseUint32(s)))
    case INT32 => Num(ToSigned32(ParseUint32(s)))
    case ENUM => Num(ToSigned32(ParseUint32(s)))
    case UINT32 => Num(ParseUint32(s))
    case SINT64 => Num(UnZigZag64(ParseUint64(s)))
    case INT64 => Num(ToSigned64(ParseUint64(s)))
    case UINT64 => Num(ParseUint64(s))
    case FIXED32 => Num(FromLittleEndian(s) % TWO_32)
    case SFIXED32 => Num(ToSigned32(FromLittleEndian(s) % TWO_32))
    case FIXED64 => Num(FromLittleEndian(s) % TWO_64)
    case SFIXED64 => Num(ToSigned64(FromLittleEndian(s) % TWO_64))
    case _ => Flag(ParseBoolean(s))
  }

  /** The width of a fixed-size type, 0 for a varint type. */
  function FixedWidth(ty: FieldType): nat {
    match ty
    case FIXED32 => 4
    case SFIXED32 => 4
    case FIXED64 => 8
    case SFIXED64 => 8
    case _ => 0
  }

  /** `max_b128_numbers`: the bytes that end a varint. */
  function Terminators(s: seq<byte>): (n: nat)
    ensures n <= |s|
  {
    if s == [] then 0 else (if s[0] < 128 then 1 else 0) + Terminators(s[1..])
  }

  /** `count_packed_elements`: how many slots the first pass reserves for a packed member. */
  function CountPacked(ty: FieldType, s: seq<byte>): Option<nat> {
    var w := FixedWidth(ty);
    if w > 0 then (if |s| % w != 0 then None else Some(|s| / w))
    else if ty.BOOL? then Some(|s|)
    else if IsPackable(ty) then Some(Terminators(s))
    else None
  }

  /** The elements of a packed member, and whether all of it could be read. */
  function PackedValues(ty: FieldType, s: seq<byte>): (r: (seq<Value>, bool))
    decreases |s|
  {
    var n := if FixedWidth(ty) == 0 then VarintLength(s, 10) else FixedWidth(ty);
    if s == [] then ([], true)
    else if n == 0 then ([], false)
    else if n > |s| then ([], true)
    else
      var rest := PackedValues(ty, s[n..]);
      ([ScalarValue(ty, s[..n])] + rest.0, rest.1)
  }

  predicate IsPackedMember(f: Field, r: Rec) {
    f.rule.Repeated? && r.wireType == LENGTH_PREFIXED && IsPackable(f.ty)
  }

  /** The slots that the first pass reserves for one record. */
  function SlotsFor(f: Field, r: Rec): Option<nat> {
    if IsPackedMember(f, r) then CountPacked(f.ty, Payload(r)) else Some(1)
  }

  /** `parse_required_member`. A boolean is accepted under any wire type. */
  function ParseValue(schema: seq<Desc>, ty: FieldType, r: Rec, n: nat): (v: Outcome<Value>)
    requires |r.data| < n
    decreases n, 0
  {
    if !ty.BOOL? && r.wireType != WireTypeOf(ty) then Failed
    else match ty
      case STRING => Done(Text(CString(Payload(r))))
      case BYTES => Done(Blob(Payload(r)))
      case MESSAGE(k) =>
        (match Decode(schema, k, Payload(r))
         case Done(m) => Done(Msg(m))
         case Failed => Failed)
      case _ => Done(ScalarValue(ty, r.data))
  }

  /** The value of a singular member: a submessage takes the one that came before it in. */
  function Joined(schema: seq<Desc>, slot: Slot, v: Value): Outcome<Value> {
    if slot.Plain? && slot.v.Msg? && v.Msg? then
      match Merge(schema, slot.v.m, v.m)
      case Done(m) => Done(Msg(m))
      case Failed => Failed
    else Done(v)
  }

  /** `parse_member`: one record stored into the message under construction. */
  function ParseMember(schema: seq<Desc>, fields: seq<Field>, r: Rec, m: Message, n: nat): (o: Outcome<Message>)
    requires r.tag < TWO_32 && |r.data| < n && |m.slots| == |fields|
    ensures o.Done? ==> |o.value.slots| == |fields| && o.value.desc == m.desc && |o.value.unions| == |m.unions|
    decreases n, 1
  {
    var i := FindField(fields, TagAsInt(r.tag));
    if i < 0 then Done(m.(unknown := m.unknown + [UnknownField(r.tag, r.wireType, r.data)]))
    else
      var f := fields[i];
      if IsPackedMember(f, r) then
        var (vs, ok) := PackedValues(f.ty, Payload(r));
        if ok && m.slots[i].List? then Done(m.(slots := m.slots[i := List(m.slots[i].vs + vs)])) else Failed
      else match ParseValue(schema, f.ty, r, n)
        case Failed => Failed
        case Done(v) =>
          match f.rule
          case Unlabeled =>
            (match Joined(schema, m.slots[i], v)
             case Done(w) => Done(m.(slots := m.slots[i := Plain(w)]))
             case Failed => Failed)
          case Optional =>
            (match Joined(schema, m.slots[i], v)
             case Done(w) => Done(m.(slots := m.slots[i := if IsPointer(f.ty) then Plain(w) else Maybe(true, w)]))
             case Failed => Failed)
          case Oneof(g) =>
            if g < |m.unions| then Done(m.(unions := m.unions[g := Holding(r.tag, v)])) else Failed
          case Repeated(_) =>
            if m.slots[i].List? then Done(m.(slots := m.slots[i := List(m.slots[i].vs + [v])])) else Failed
  }

  ghost predicate TagsOk(recs: seq<Rec>) {
    forall k :: 0 <= k < |recs| ==> recs[k].tag < TWO_32
  }

  /** The second pass: the records in wire order. */
  function Replay(schema: seq<Desc>, fields: seq<Field>, recs: seq<Rec>, m: Message, n: nat): (o: Outcome<Message>)
    requires TagsOk(recs) && ShorterThan(recs, n) && |m.slots| == |fields|
    ensures o.Done? ==> |o.value.slots| == |fields| && o.value.desc == m.desc && |o.value.unions| == |m.unions|
    decreases n, 2, |recs|
  {
    if recs == [] then Done(m)
    else
      var prefix := recs[..|recs| - 1];
      match Replay(schema, fields, prefix, m, n)
      case Done(m') => ParseMember(schema, fields, recs[|recs| - 1], m', n)
      case other => other
  }

  /** The members that the scanning slabs can hold: sixteen, then twice as many, up to slab 22. */
  const SLAB_CAPACITY: nat := 16 * 0x7F_FFFF

  /** The first pass can tell how many slots the record needs. */
  predicate CountOk(fields: seq<Field>, r: Rec) {
    r.tag < TWO_32 &&
    var i := FindField(fields, TagAsInt(r.tag)); i >= 0 ==> SlotsFor(fields[i], r).Some?
  }

  predicate CountsOk(fields: seq<Field>, recs: seq<Rec>) {
    forall k :: 0 <= k < |recs| ==> CountOk(fields, recs[k])
  }

  /** `protobuf_c_message_unpack` */
  function Decode(schema: seq<Desc>, k: nat, s: seq<byte>): (o: Outcome<Message>)
    decreases |s|, 3
  {
    if k >= |schema| then Failed
    else match Scan(s)
      case None => Failed
      case Some(recs) =>
        ScannedTags(s);
        if |recs| > SLAB_CAPACITY || !CountsOk(schema[k].fields, recs) then Failed
        else Replay(schema, schema[k].fields, recs, Init(schema, k), |s|)
  }

  lemma {:induction false} ScannedTags(s: seq<byte>)
    ensures Scan(s).Some? ==> TagsOk(Scan(s).value)
    decreases |s|
  {
    if s != [] && ScanMember(s).Some? {
      ScannedTags(s[ScanMember(s).value.1..]);
    }
  }
}
