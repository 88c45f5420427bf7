/**
 Messages as the codec holds them in memory, and how an earlier message is merged into a later
 one when a singular submessage occurs twice.
 */
module WireMessage {
  import opened Common
  import opened Bytes
  import opened Schema

  /** What one member variable holds. `Text` is a C string, seen up to its terminator. */
  datatype Value =
    | Num(n: int)
    | Flag(b: bool)
    | TextNull
    | TextDefault
    | Text(s: seq<byte>)
    | Blob(d: seq<byte>)
    | MsgNull
    | Msg(m: Message)

  /** Storage of one field; `Maybe` has a quantifier, `Shared` fields live in a union. */
  datatype Slot = Plain(v: Value) | Maybe(has: bool, v: Value) | List(vs: seq<Value>) | Shared

  /** A oneof: the case member names the field whose value the union holds. */
  datatype Union = Empty | Holding(which: nat, v: Value)

  datatype UnknownField = UnknownField(tag: nat, wireType: nat, data: seq<byte>)

  datatype Message = Message(desc: nat, slots: seq<Slot>, unions: seq<Union>, unknown: seq<UnknownField>)

  datatype Outcome<T> = Done(value: T) | Failed

  /** `field_is_zeroish` */
  predicate IsZeroish(v: Value) {
    match v
    case Num(n) => n == 0
    case Flag(b) => !b
    case Text(s) => s == []
    case Blob(d) => d == []
    case Msg(_) => false
    case _ => true
  }

  /** A string or message pointer that is NULL or the field's default. */
  predicate IsAbsent(v: Value) {
    v.TextNull? || v.TextDefault? || v.MsgNull?
  }

  // ----- messages that match their descriptor -----

  ghost predicate ValueTyped(schema: seq<Desc>, ty: FieldType, v: Value)
    decreases v, 0
  {
    match ty
    case BOOL => v.Flag?
    case STRING => v.TextNull? || v.TextDefault? || v.Text?
    case BYTES => v.Blob?
    case MESSAGE(k) => v.MsgNull? || (v.Msg? && v.m.desc == k && Typed(schema, v.m))
    case _ => v.Num?
  }

  ghost predicate SlotTyped(schema: seq<Desc>, f: Field, s: Slot)
    decreases s, 1
  {
    match f.rule
    case Unlabeled => s.Plain? && ValueTyped(schema, f.ty, s.v)
    case Optional => (if IsPointer(f.ty) then s.Plain? else s.Maybe?) && ValueTyped(schema, f.ty, s.v)
    case Oneof(_) => s.Shared?
    case Repeated(_) => s.List? && forall i :: 0 <= i < |s.vs| ==> ValueTyped(schema, f.ty, s.vs[i])
  }

  ghost predicate UnionTyped(schema: seq<Desc>, fields: seq<Field>, g: nat, u: Union)
    decreases u, 1
  {
    u.Holding? ==>
      var i := FindField(fields, u.which);
      i >= 0 && fields[i].rule == Oneof(g) && ValueTyped(schema, fields[i].ty, u.v)
  }

  /** The member variables are those that the descriptor asks for, down to the last submessage. */
  ghost predicate Typed(schema: seq<Desc>, m: Message)
    decreases m, 2
  {
    && m.desc < |schema|
    && var d := schema[m.desc];
    && |m.slots| == |d.fields| && |m.unions| == d.groups
    && (forall i :: 0 <= i < |m.slots| ==> SlotTyped(schema, d.fields[i], m.slots[i]))
    && (forall g :: 0 <= g < |m.unions| ==> UnionTyped(schema, d.fields, g, m.unions[g]))
  }

  // ----- merging -----

  /** A string, byte string or submessage that only the earlier message has. */
  predicate OnlyEarlier(ty: FieldType, e: Value, l: Value) {
    match ty
    case STRING => e != TextDefault && l == TextDefault
    case BYTES => e.Blob? && e.d != [] && l == Blob([])
    case MESSAGE(_) => e.Msg? && !l.Msg?
    case _ => false
  }

  /** The later value of a field that is not in a oneof. A plain number has no quantifier to go by. */
  function MergeSlot(schema: seq<Desc>, f: Field, e: Slot, l: Slot): Outcome<Slot>
    decreases e, 0
  {
    match f.rule
    case Oneof(_) => Done(l)
    case Repeated(_) => if e.List? && l.List? then Done(List(e.vs + l.vs)) else Failed
    case _ =>
      if e.Plain? && l.Plain? && f.ty.MESSAGE? && e.v.Msg? && l.v.Msg? then
        match Merge(schema, e.v.m, l.v.m)
        case Done(m) => Done(Plain(Msg(m)))
        case Failed => Failed
      else if e.Plain? && l.Plain? then Done(if OnlyEarlier(f.ty, e.v, l.v) then e else l)
      else if e.Maybe? && l.Maybe? && f.ty.BYTES? then Done(if OnlyEarlier(f.ty, e.v, l.v) then e else l)
      else if e.Maybe? && l.Maybe? then Done(if e.has && !l.has then e else l)
      else Failed
  }

  /** The case of a oneof, 0 when nothing is selected. */
  function CaseOf(u: Union): nat {
    if u.Empty? then 0 else u.which
  }

  /** The value of a oneof of which the later message selects nothing; a string is left behind. */
  predicate Carries(ty: FieldType, u: Union) {
    u.Holding? && match ty
                  case STRING => false
                  case BYTES => u.v.Blob? && u.v.d != []
                  case MESSAGE(_) => u.v.Msg?
                  case _ => true
  }

  /** A oneof: the selection of the earlier message is looked up when the later one has none. */
  function MergeUnion(fields: seq<Field>, e: Union, l: Union): Outcome<Union> {
    if CaseOf(l) != 0 then Done(l)
    else
      var i := FindField(fields, CaseOf(e));
      if i < 0 then Failed else Done(if Carries(fields[i].ty, e) then e else l)
  }

  /** The body of the loop over the fields: what becomes of the later message at field `i`. */
  function MergeField(schema: seq<Desc>, fields: seq<Field>, i: nat, e: Message, l: Message): (o: Outcome<Message>)
    requires i < |fields| == |e.slots| == |l.slots|
    ensures o.Done? ==> |o.value.slots| == |l.slots| && |o.value.unions| == |l.unions|
    decreases e, 1
  {
    match fields[i].rule
    case Oneof(g) =>
      if g < |e.unions| && g < |l.unions| then
        match MergeUnion(fields, e.unions[g], l.unions[g])
        case Done(u) => Done(l.(unions := l.unions[g := u]))
        case Failed => Failed
      else Failed
    case _ =>
      match MergeSlot(schema, fields[i], e.slots[i], l.slots[i])
      case Done(s) => Done(l.(slots := l.slots[i := s]))
      case Failed => Failed
  }

  /** The later message after the first `n` fields. */
  function MergeFields(schema: seq<Desc>, fields: seq<Field>, n: nat, e: Message, l: Message): (o: Outcome<Message>)
    requires n <= |fields| == |e.slots| == |l.slots|
    ensures o.Done? ==> |o.value.slots| == |l.slots| && |o.value.unions| == |l.unions|
    decreases e, 2, n
  {
    if n == 0 then Done(l)
    else
      match MergeFields(schema, fields, n - 1, e, l)
      case Done(m) => MergeField(schema, fields, n - 1, e, m)
      case Failed => Failed
  }

  /** `merge_messages`: the later message with the earlier one merged into it. */
  function Merge(schema: seq<Desc>, e: Message, l: Message): Outcome<Message>
    decreases e, 3
  {
    if l.desc < |schema| && |schema[l.desc].fields| == |e.slots| == |l.slots|
    then MergeFields(schema, schema[l.desc].fields, |l.slots|, e, l) else Failed
  }

  // ----- the loop of `merge_messages` -----

  /** The fields still to come are those of the later message. */
  lemma {:induction false} MergeLeaves(schema: seq<Desc>, fields: seq<Field>, n: nat, e: Message, l: Message)
    requires n <= |fields| == |e.slots| == |l.slots|
    requires MergeFields(schema, fields, n, e, l).Done?
    ensures var m := MergeFields(schema, fields, n, e, l).value;
            && m.desc == l.desc && m.unknown == l.unknown
            && forall j :: n <= j < |l.slots| ==> m.slots[j] == l.slots[j]
  {
    hide MergeSlot, MergeUnion;
    if n > 0 {
      MergeLeaves(schema, fields, n - 1, e, l);
    }
  }

  /** A field that cannot be merged decides the outcome. */
  lemma {:induction false} MergeStops(schema: seq<Desc>, fields: seq<Field>, n: nat, k: nat, e: Message, l: Message)
    requires k <= n <= |fields| == |e.slots| == |l.slots| && MergeFields(schema, fields, k, e, l).Failed?
    ensures MergeFields(schema, fields, n, e, l).Failed?
    decreases n
  {
    hide MergeField;
    if k < n {
      MergeStops(schema, fields, n - 1, k, e, l);
    }
  }

  /** `merge_messages`, whose loop overwrites the later message field by field. */
  method MergeMessages(schema: seq<Desc>, e: Message, l: Message) returns (o: Outcome<Message>)
    requires WellFormed(schema) && Typed(schema, e) && Typed(schema, l) && e.desc == l.desc
    ensures o == Merge(schema, e, l)
    decreases e, 2
  {
    var d, later := schema[l.desc], l;
    assert WellFormedDesc(d, |schema|);
    var i := 0;
    while i < |d.fields|
      invariant i <= |d.fields| && |later.slots| == |l.slots| && |later.unions| == |l.unions|
      invariant MergeFields(schema, d.fields, i, e, l) == Done(later)
    {
      MergeLeaves(schema, d.fields, i, e, l);
      assert SlotTyped(schema, d.fields[i], e.slots[i]) && SlotTyped(schema, d.fields[i], later.slots[i]);
      assert WellFormedField(d.fields[i], d.groups, |schema|);
      hide Typed, SlotTyped, MergeField;
      var one := MergeOne(schema, d, i, e, later);
      if one.Failed? {
        MergeStops(schema, d.fields, |d.fields|, i + 1, e, l);
        return Failed;
      }
      later := one.value;
      i := i + 1;
    }
    o := Done(later);
  }

  /** One turn of the loop: the member of the later message is overwritten when it has to be. */
  method MergeOne(schema: seq<Desc>, d: Desc, i: nat, e: Message, l: Message) returns (o: Outcome<Message>)
    requires WellFormed(schema) && WellFormedDesc(d, |schema|) && i < |d.fields| == |e.slots| == |l.slots|
    requires SlotTyped(schema, d.fields[i], e.slots[i]) && SlotTyped(schema, d.fields[i], l.slots[i])
    requires |e.unions| == |l.unions| == d.groups
    ensures o == MergeField(schema, d.fields, i, e, l)
    decreases e, 1
  {
    var f, later, earlier := d.fields[i], l.slots[i], e.slots[i];
    assert WellFormedField(f, d.groups, |schema|);
    if f.rule.Repeated? {
      return Done(l.(slots := l.slots[i := List(earlier.vs + later.vs)]));
    }
    if f.rule.Oneof? {
      var g := f.rule.group;
      assert l.unions[g := l.unions[g]] == l.unions;
      if CaseOf(l.unions[g]) != 0 {
        return Done(l);
      }
      var index := IntRangeLookup(d, CaseOf(e.unions[g]), |schema|);
      if index < 0 {
        return Failed;
      }
      return Done(if Carries(d.fields[index].ty, e.unions[g]) then l.(unions := l.unions[g := e.unions[g]]) else l);
    }
    var needToMerge;
    match f.ty {
    case MESSAGE(_) =>
      if earlier.v.Msg? && later.v.Msg? {
        var sub := MergeMessages(schema, earlier.v.m, later.v.m);
        return match sub
          case Done(m) => Done(l.(slots := l.slots[i := Plain(Msg(m))]))
          case Failed => Failed;
      }
      needToMerge := earlier.v.Msg? && !later.v.Msg?;
    case BYTES => needToMerge := earlier.v.d != [] && later.v.d == [];
    case STRING => needToMerge := earlier.v != TextDefault && later.v == TextDefault;
    // without a quantifier both are the same word of the two messages
    case _ => needToMerge := earlier.Maybe? && earlier.has && !later.has;
    }
    assert l.slots[i := later] == l.slots;
    return Done(if needToMerge then l.(slots := l.slots[i := earlier]) else l);
  }

  /** What is merged matches the descriptor again. */
  lemma {:induction false} MergeTyped(schema: seq<Desc>, e: Message, l: Message)
    requires WellFormed(schema) && Typed(schema, e) && Typed(schema, l) && e.desc == l.desc && Merge(schema, e, l).Done?
    ensures Typed(schema, Merge(schema, e, l).value) && Merge(schema, e, l).value.desc == l.desc
    decreases e
  {
    var fields, m := schema[l.desc].fields, Merge(schema, e, l).value;
    IdsStartAtOne(schema, l.desc);
    MergeFieldsAre(schema, fields, |fields|, e, l);
    MergeLeaves(schema, fields, |fields|, e, l);
    forall i | 0 <= i < |fields| ensures SlotTyped(schema, fields[i], m.slots[i]) {
      MergedSlotTyped(schema, fields, i, e, l, m);
    }
    forall g | 0 <= g < |m.unions| ensures UnionTyped(schema, fields, g, m.unions[g]) {
      assert UnionTyped(schema, fields, g, e.unions[g]) && UnionTyped(schema, fields, g, l.unions[g]);
      assert m.unions[g] in {e.unions[g], l.unions[g]};
    }
  }

  lemma MergedSlotTyped(schema: seq<Desc>, fields: seq<Field>, i: nat, e: Message, l: Message, m: Message)
    requires WellFormed(schema) && Typed(schema, e) && Typed(schema, l) && e.desc == l.desc && fields == schema[l.desc].fields
    requires i < |fields| == |m.slots| && |m.unions| == |l.unions| && FieldMerged(schema, fields, i, e, l, m)
    ensures SlotTyped(schema, fields[i], m.slots[i])
    decreases e, 0
  {
    var f, es, ls := fields[i], e.slots[i], l.slots[i];
    assert SlotTyped(schema, f, es) && SlotTyped(schema, f, ls);
    hide Typed, WellFormed, Merge;
    if es.Plain? && ls.Plain? && es.v.Msg? && ls.v.Msg? {
      SubmessageTyped(schema, f, es);
      SubmessageTyped(schema, f, ls);
      if Merge(schema, es.v.m, ls.v.m).Done? {
        MergeTyped(schema, es.v.m, ls.v.m);
      }
    }
  }

  lemma SubmessageTyped(schema: seq<Desc>, f: Field, s: Slot)
    requires SlotTyped(schema, f, s) && s.Plain? && s.v.Msg?
    ensures f.ty.MESSAGE? && s.v.m.desc == f.ty.desc && Typed(schema, s.v.m)
  {
    hide Typed;
  }

  // ----- type by type -----

  /** A oneof of which the later message selects nothing: a string is left behind, a number is always taken over. */
  lemma UnionMerged(fields: seq<Field>, e: Union, l: Union)
    ensures l.Holding? && l.which != 0 ==> MergeUnion(fields, e, l) == Done(l)
    ensures (l.Empty? || l.which == 0) && e.Holding? && FindField(fields, e.which) >= 0 ==>
              MergeUnion(fields, e, l) == Done(
                match fields[FindField(fields, e.which)].ty
                case STRING => l
                case BYTES => if e.v.Blob? && |e.v.d| > 0 then e else l
                case MESSAGE(_) => if e.v.Msg? then e else l
                case _ => e)
  {
  }

  /**
   A field that is not in a oneof, type by type: a pointer or byte string that only the earlier message
   has is taken over, an optional number by its quantifier, and any other number is that of the later message.
   */
  lemma SlotMerged(schema: seq<Desc>, f: Field, e: Slot, l: Slot)
    requires SlotTyped(schema, f, e) && SlotTyped(schema, f, l) && !f.rule.Oneof? && !f.rule.Repeated?
    ensures var r := MergeSlot(schema, f, e, l);
            match f.ty
            case STRING => r == Done(if l.v == TextDefault then e else l)
            case BYTES => r == Done(if l.v == Blob([]) && e.v != Blob([]) then e else l)
            case MESSAGE(_) =>
              if e.v.Msg? && l.v.Msg? then
                r == match Merge(schema, e.v.m, l.v.m) case Done(m) => Done(Plain(Msg(m))) case Failed => Failed
              else r == Done(if e.v.Msg? then e else l)
            case _ => r == Done(if e.Maybe? && e.has && !l.has then e else l)
  {
    hide Merge, Typed;
  }

  // ----- what the documentation promises -----

  /** A field is in a message when its quantifier says so, or else when it is not at its default. */
  predicate IsSet(s: Slot) {
    match s
    case Maybe(has, _) => has
    case Plain(v) =>
      (match v
       case Num(n) => n != 0
       case Flag(b) => b
       case Blob(d) => d != []
       case TextDefault => false
       case MsgNull => false
       case _ => true)
    case _ => false
  }

  /**
   Fields in the later message replace those in the earlier one, submessages are merged, and
   repeated fields are concatenated.
   */
  function CombinedSlot(schema: seq<Desc>, f: Field, e: Slot, l: Slot): Slot
    decreases e, 0
  {
    if e.List? && l.List? then List(e.vs + l.vs)
    else if e.Plain? && l.Plain? && e.v.Msg? && l.v.Msg? then Plain(Msg(Combined(schema, e.v.m, l.v.m)))
    else if IsSet(e) && !IsSet(l) then e else l
  }

  function CombinedSlots(schema: seq<Desc>, fields: seq<Field>, e: Message, l: Message, n: nat): (slots: seq<Slot>)
    requires n <= |fields| == |e.slots| == |l.slots|
    ensures |slots| == n && forall i :: 0 <= i < n ==> slots[i] == CombinedSlot(schema, fields[i], e.slots[i], l.slots[i])
    decreases e, 1, n
  {
    if n == 0 then []
    else CombinedSlots(schema, fields, e, l, n - 1) + [CombinedSlot(schema, fields[n - 1], e.slots[n - 1], l.slots[n - 1])]
  }

  function CombinedUnions(e: seq<Union>, l: seq<Union>): (us: seq<Union>)
    requires |e| == |l|
    ensures |us| == |l| && forall g :: 0 <= g < |l| ==> us[g] == if l[g].Empty? then e[g] else l[g]
  {
    if l == [] then [] else [if l[0].Empty? then e[0] else l[0]] + CombinedUnions(e[1..], l[1..])
  }

  function Combined(schema: seq<Desc>, e: Message, l: Message): Message
    decreases e, 2
  {
    if l.desc < |schema| && |schema[l.desc].fields| == |e.slots| == |l.slots| && |e.unions| == |l.unions| then
      l.(slots := CombinedSlots(schema, schema[l.desc].fields, e, l, |l.slots|), unions := CombinedUnions(e.unions, l.unions))
    else l
  }

  /** When the code keeps the promise for one field. */
  predicate FieldAgrees(schema: seq<Desc>, fields: seq<Field>, i: nat, e: Message, l: Message)
    requires i < |fields| == |e.slots| == |l.slots|
    decreases e, 0
  {
    var f, es, ls := fields[i], e.slots[i], l.slots[i];
    match f.rule
    case Repeated(_) => true
    case Oneof(g) =>
      g < |e.unions| && g < |l.unions| &&
      // the later message selects something, or the earlier one something that is carried over
      (l.unions[g].Holding? ||
       (e.unions[g].Holding? && var k := FindField(fields, e.unions[g].which); k >= 0 && Carries(fields[k].ty, e.unions[g])))
    case _ =>
      if es.Plain? && ls.Plain? && es.v.Msg? && ls.v.Msg? then MergeAgrees(schema, es.v.m, ls.v.m)
      // a plain number of the earlier message is never carried over
      else if es.Plain? && !IsPointer(f.ty) && !f.ty.BYTES? then IsSet(es) ==> IsSet(ls)
      // byte strings go by their contents, not by the quantifier
      else if es.Maybe? && ls.Maybe? && f.ty.BYTES? then OnlyEarlier(f.ty, es.v, ls.v) <==> es.has && !ls.has
      else true
  }

  /** When the code keeps the promise, down to the last submessage. */
  predicate MergeAgrees(schema: seq<Desc>, e: Message, l: Message)
    decreases e, 1
  {
    l.desc < |schema| && |schema[l.desc].fields| == |e.slots| == |l.slots| &&
    forall i :: 0 <= i < |l.slots| ==> FieldAgrees(schema, schema[l.desc].fields, i, e, l)
  }

  /** The outcome of field `j`, whatever the fields before it did. */
  ghost predicate FieldMerged(schema: seq<Desc>, fields: seq<Field>, j: nat, e: Message, l: Message, m: Message)
    requires j < |fields| == |e.slots| == |l.slots| == |m.slots| && |e.unions| == |l.unions| == |m.unions|
  {
    match fields[j].rule
    case Oneof(g) => g < |l.unions| && MergeUnion(fields, e.unions[g], l.unions[g]) == Done(m.unions[g]) && m.slots[j] == l.slots[j]
    case _ => MergeSlot(schema, fields[j], e.slots[j], l.slots[j]) == Done(m.slots[j])
  }

  ghost predicate FieldFails(schema: seq<Desc>, fields: seq<Field>, j: nat, e: Message, l: Message)
    requires j < |fields| == |e.slots| == |l.slots| && |e.unions| == |l.unions|
  {
    match fields[j].rule
    case Oneof(g) => g >= |l.unions| || MergeUnion(fields, e.unions[g], l.unions[g]).Failed?
    case _ => MergeSlot(schema, fields[j], e.slots[j], l.slots[j]).Failed?
  }

  /** A union is that of the later message, or merged. */
  ghost predicate UnionsMerged(fields: seq<Field>, e: Message, l: Message, m: Message)
    requires |e.unions| == |l.unions| == |m.unions|
  {
    forall g :: 0 <= g < |l.unions| ==>
      m.unions[g] == l.unions[g] || MergeUnion(fields, e.unions[g], l.unions[g]) == Done(m.unions[g])
  }

  lemma MergeUnionAgain(fields: seq<Field>, e: Union, l: Union)
    requires FindField(fields, 0) < 0 && MergeUnion(fields, e, l).Done?
    ensures MergeUnion(fields, e, MergeUnion(fields, e, l).value) == MergeUnion(fields, e, l)
  {
  }

  /** The loop treats every field on its own. */
  lemma {:induction false} MergeFieldsAre(schema: seq<Desc>, fields: seq<Field>, n: nat, e: Message, l: Message)
    requires n <= |fields| == |e.slots| == |l.slots| && |e.unions| == |l.unions| && FindField(fields, 0) < 0
    ensures var o := MergeFields(schema, fields, n, e, l);
            if o.Done? then
              && UnionsMerged(fields, e, l, o.value)
              && forall j :: 0 <= j < n ==> FieldMerged(schema, fields, j, e, l, o.value)
            else exists j :: 0 <= j < n && FieldFails(schema, fields, j, e, l)
  {
    if n > 0 {
      MergeFieldsAre(schema, fields, n - 1, e, l);
      var o := MergeFields(schema, fields, n - 1, e, l);
      if o.Done? {
        MergeLeaves(schema, fields, n - 1, e, l);
        MergeNext(schema, fields, n - 1, e, l, o.value);
      } else {
        hide MergeSlot, MergeUnion, MergeField, FieldFails;
      }
    }
  }

  lemma MergeNext(schema: seq<Desc>, fields: seq<Field>, k: nat, e: Message, l: Message, m: Message)
    requires k < |fields| == |e.slots| == |l.slots| == |m.slots| && |e.unions| == |l.unions| == |m.unions|
    requires FindField(fields, 0) < 0 && UnionsMerged(fields, e, l, m) && m.slots[k] == l.slots[k]
    requires forall j :: 0 <= j < k ==> FieldMerged(schema, fields, j, e, l, m)
    ensures var o := MergeField(schema, fields, k, e, m);
            if o.Done? then
              && UnionsMerged(fields, e, l, o.value)
              && forall j :: 0 <= j < k + 1 ==> FieldMerged(schema, fields, j, e, l, o.value)
            else FieldFails(schema, fields, k, e, l)
  {
    hide MergeSlot;
    if fields[k].rule.Oneof? && fields[k].rule.group < |l.unions| {
      var g := fields[k].rule.group;
      if m.unions[g] != l.unions[g] {
        MergeUnionAgain(fields, e.unions[g], l.unions[g]);
      }
      var u := MergeUnion(fields, e.unions[g], l.unions[g]);
      assert MergeUnion(fields, e.unions[g], m.unions[g]) == u;
      assert u.Done? ==> MergeField(schema, fields, k, e, m) == Done(m.(unions := m.unions[g := u.value]));
    }
    var o := MergeField(schema, fields, k, e, m);
    hide MergeUnion, MergeField;
    if o.Done? {
      forall j | 0 <= j < k ensures FieldMerged(schema, fields, j, e, l, o.value) {
        assert FieldMerged(schema, fields, j, e, l, m);
      }
    }
  }

  lemma IdsStartAtOne(schema: seq<Desc>, k: nat)
    requires WellFormed(schema) && k < |schema|
    ensures FindField(schema[k].fields, 0) < 0
  {
    var fields, i := schema[k].fields, FindField(schema[k].fields, 0);
    assert WellFormedDesc(schema[k], |schema|);
    assert i >= 0 ==> WellFormedField(fields[i], schema[k].groups, |schema|);
  }

  /** At field `i` the merged message is the combined one. */
  ghost predicate FieldCombined(schema: seq<Desc>, fields: seq<Field>, i: nat, e: Message, l: Message, m: Message)
    requires i < |fields| == |e.slots| == |l.slots| == |m.slots| && |e.unions| == |l.unions| == |m.unions|
  {
    && m.slots[i] == CombinedSlot(schema, fields[i], e.slots[i], l.slots[i])
    && (fields[i].rule.Oneof? ==>
          var g := fields[i].rule.group;
          g < |l.unions| && m.unions[g] == if l.unions[g].Empty? then e.unions[g] else l.unions[g])
  }

  lemma FieldPromise(schema: seq<Desc>, fields: seq<Field>, i: nat, e: Message, l: Message)
    requires WellFormed(schema) && Typed(schema, e) && Typed(schema, l) && e.desc == l.desc && fields == schema[l.desc].fields
    requires i < |fields|
    ensures FieldFails(schema, fields, i, e, l) ==> !FieldAgrees(schema, fields, i, e, l)
    ensures forall m: Message | |m.slots| == |fields| && |m.unions| == |l.unions| && FieldMerged(schema, fields, i, e, l, m) ::
              FieldCombined(schema, fields, i, e, l, m) <==> FieldAgrees(schema, fields, i, e, l)
    decreases e, 0
  {
    var f := fields[i];
    assert SlotTyped(schema, f, e.slots[i]) && SlotTyped(schema, f, l.slots[i]);
    if f.rule.Oneof? {
      UnionPromise(schema, i, e, l);
    } else {
      hide Typed, WellFormed, Merge, Combined, MergeAgrees;
      if e.slots[i].Plain? && e.slots[i].v.Msg? && l.slots[i].v.Msg? {
        SubmessageTyped(schema, f, e.slots[i]);
        SubmessageTyped(schema, f, l.slots[i]);
        MergeKeepsPromise(schema, e.slots[i].v.m, l.slots[i].v.m);
      }
    }
  }

  lemma UnionPromise(schema: seq<Desc>, i: nat, e: Message, l: Message)
    requires WellFormed(schema) && Typed(schema, e) && Typed(schema, l) && e.desc == l.desc
    requires i < |l.slots| && schema[l.desc].fields[i].rule.Oneof?
    ensures var fields := schema[l.desc].fields;
            && (FieldFails(schema, fields, i, e, l) ==> !FieldAgrees(schema, fields, i, e, l))
            && forall m: Message | |m.slots| == |fields| && |m.unions| == |l.unions| && FieldMerged(schema, fields, i, e, l, m) ::
                 FieldCombined(schema, fields, i, e, l, m) <==> FieldAgrees(schema, fields, i, e, l)
  {
    var fields := schema[l.desc].fields;
    var g := fields[i].rule.group;
    IdsStartAtOne(schema, l.desc);
    assert WellFormedDesc(schema[l.desc], |schema|);
    assert WellFormedField(fields[i], schema[l.desc].groups, |schema|);
    assert SlotTyped(schema, fields[i], e.slots[i]) && SlotTyped(schema, fields[i], l.slots[i]);
    assert UnionTyped(schema, fields, g, e.unions[g]) && UnionTyped(schema, fields, g, l.unions[g]);
    hide Typed, WellFormed, WellFormedDesc, MergeSlot, FindField;
  }

  /** Merging gives what the documentation promises in exactly these cases. */
  lemma {:induction false} MergeKeepsPromise(schema: seq<Desc>, e: Message, l: Message)
    requires WellFormed(schema) && Typed(schema, e) && Typed(schema, l) && e.desc == l.desc
    ensures Merge(schema, e, l) == Done(Combined(schema, e, l)) <==> MergeAgrees(schema, e, l)
    decreases e, 1
  {
    var fields, o := schema[l.desc].fields, Merge(schema, e, l);
    IdsStartAtOne(schema, l.desc);
    MergeFieldsAre(schema, fields, |fields|, e, l);
    forall i | 0 <= i < |fields|
      ensures FieldFails(schema, fields, i, e, l) ==> !FieldAgrees(schema, fields, i, e, l)
      ensures o.Done? ==> (FieldCombined(schema, fields, i, e, l, o.value) <==> FieldAgrees(schema, fields, i, e, l))
    {
      FieldPromise(schema, fields, i, e, l);
    }
    if o.Done? {
      MergeLeaves(schema, fields, |fields|, e, l);
      AllCombined(schema, e, l, o.value);
    }
  }

  /** A message that is combined at every field is the combined message. */
  lemma AllCombined(schema: seq<Desc>, e: Message, l: Message, m: Message)
    requires WellFormed(schema) && Typed(schema, e) && Typed(schema, l) && e.desc == l.desc
    requires |m.slots| == |l.slots| && |m.unions| == |l.unions| && m.desc == l.desc && m.unknown == l.unknown
    requires UnionsMerged(schema[l.desc].fields, e, l, m)
    ensures m == Combined(schema, e, l) <==>
              forall i :: 0 <= i < |l.slots| ==> FieldCombined(schema, schema[l.desc].fields, i, e, l, m)
  {
    var fields, c := schema[l.desc].fields, Combined(schema, e, l);
    assert WellFormedDesc(schema[l.desc], |schema|);
    if forall i :: 0 <= i < |l.slots| ==> FieldCombined(schema, fields, i, e, l, m) {
      forall g | 0 <= g < |l.unions| ensures m.unions[g] == c.unions[g] {
        UnionCombined(schema, e, l, m, g);
      }
      hide CombinedSlot;
      assert forall i :: 0 <= i < |l.slots| ==> FieldCombined(schema, fields, i, e, l, m) ==> m.slots[i] == c.slots[i];
      assert m.slots == c.slots && m.unions == c.unions;
    }
  }

  /** A oneof has a field, or nothing is selected in it. */
  lemma UnionCombined(schema: seq<Desc>, e: Message, l: Message, m: Message, g: nat)
    requires WellFormed(schema) && Typed(schema, e) && Typed(schema, l) && e.desc == l.desc && g < |l.unions|
    requires |m.slots| == |l.slots| && |m.unions| == |l.unions| && UnionsMerged(schema[l.desc].fields, e, l, m)
    requires forall i :: 0 <= i < |l.slots| ==> FieldCombined(schema, schema[l.desc].fields, i, e, l, m)
    ensures m.unions[g] == if l.unions[g].Empty? then e.unions[g] else l.unions[g]
  {
    var fields := schema[l.desc].fields;
    IdsStartAtOne(schema, l.desc);
    hide CombinedSlot;
    assert UnionTyped(schema, fields, g, e.unions[g]) && UnionTyped(schema, fields, g, l.unions[g]);
    if e.unions[g].Holding? {
      assert FieldCombined(schema, fields, FindField(fields, e.unions[g].which), e, l, m);
    } else if l.unions[g].Holding? {
      assert FieldCombined(schema, fields, FindField(fields, l.unions[g].which), e, l, m);
    }
  }

  // ----- where it is broken -----

  /** A submessage with one number, and one with a number in a oneof. */
  function NumberDesc(): Desc {
    Desc([Field(1, INT32, Unlabeled)], [IntRange(1, 0), IntRange(0, 1)], 0)
  }

  function ChoiceDesc(): Desc {
    Desc([Field(1, INT32, Oneof(0))], [IntRange(1, 0), IntRange(0, 1)], 1)
  }

  lemma SmallDescsFit()
    ensures WellFormed([NumberDesc(), ChoiceDesc()])
  {
    var schema := [NumberDesc(), ChoiceDesc()];
    forall k | 0 <= k < |schema| ensures WellFormedDesc(schema[k], |schema|) {
      var d := schema[k];
      assert d.fields == [d.fields[0]];
      assert forall r, j :: InRun(d, r, j) ==> r == 0 && j == 0;
    }
  }

  /** A number that only the earlier submessage has is lost. */
  lemma NumberIsLost()
    ensures var schema := [NumberDesc(), ChoiceDesc()];
            var e, l := Message(0, [Plain(Num(5))], [], []), Message(0, [Plain(Num(0))], [], []);
            && WellFormed(schema) && Typed(schema, e) && Typed(schema, l)
            && Merge(schema, e, l) == Done(l) && Combined(schema, e, l) == e != l && !MergeAgrees(schema, e, l)
  {
    SmallDescsFit();
    hide WellFormed, WellFormedDesc, WellFormedField, RangesMatch;
    var schema := [NumberDesc(), ChoiceDesc()];
    var e, l := Message(0, [Plain(Num(5))], [], []), Message(0, [Plain(Num(0))], [], []);
    var fields := NumberDesc().fields;
    assert schema[0].fields == fields;
    assert MergeFields(schema, fields, 0, e, l) == Done(l);
    assert l.slots[0 := Plain(Num(0))] == l.slots;
    assert MergeSlot(schema, fields[0], e.slots[0], l.slots[0]) == Done(Plain(Num(0)));
    assert MergeField(schema, fields, 0, e, l) == Done(l);
    assert Combined(schema, e, l).slots == e.slots && Combined(schema, e, l).unions == e.unions;
    assert !FieldAgrees(schema, fields, 0, e, l);
  }

  /** Two submessages that select nothing in a oneof cannot be merged at all. */
  lemma EmptyChoicesFail()
    ensures var schema := [NumberDesc(), ChoiceDesc()];
            var m := Message(1, [Shared], [Empty], []);
            && WellFormed(schema) && Typed(schema, m)
            && Merge(schema, m, m).Failed? && Combined(schema, m, m) == m && !MergeAgrees(schema, m, m)
  {
    SmallDescsFit();
    var schema, m := [NumberDesc(), ChoiceDesc()], Message(1, [Shared], [Empty], []);
    var fields := ChoiceDesc().fields;
    assert schema[1].fields == fields;
    IdsStartAtOne(schema, 1);
    hide WellFormed, WellFormedDesc, WellFormedField, RangesMatch, FindField;
    assert MergeFields(schema, fields, 0, m, m) == Done(m);
    assert MergeField(schema, fields, 0, m, m).Failed?;
    assert Combined(schema, m, m).slots == m.slots && Combined(schema, m, m).unions == m.unions;
    assert !FieldAgrees(schema, fields, 0, m, m);
  }
}
