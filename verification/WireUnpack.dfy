/**
 `protobuf_c_message_unpack`: two passes over the input, proved to compute the reference
 decoding for input of any kind.
 */
module WireUnpack {
  import opened Common
  import opened Bytes
  import opened Varint
  import opened Schema
  import opened WireMessage
  import opened WireFormat
  import opened WireTyped
  import opened WireSlots
  import opened WireScan
  import opened WireStore

  /** The storage has room for what record `r` adds. */
  ghost predicate RoomFor(b: Building, r: Rec)
    requires r.tag < TWO_32 && |b.used| == |b.lists| == |b.fields|
    reads b
  {
    var i := FindField(b.fields, TagAsInt(r.tag));
    if i < 0 then b.nUnknown < b.unknown.Length
    else if b.fields[i].rule.Repeated?
    then SlotsFor(b.fields[i], r).Some? && b.used[i] + SlotsFor(b.fields[i], r).value <= b.lists[i].Length
    else true
  }

  /** Descriptor facts about one field. */
  ghost predicate FieldOk(f: Field, groups: nat, descs: nat) {
    (f.ty.MESSAGE? ==> f.ty.desc < descs) && (f.rule.Oneof? ==> f.rule.group < groups)
  }

  lemma FieldsAreOk(schema: seq<Desc>, k: nat, i: nat)
    requires WellFormed(schema) && k < |schema| && i < |schema[k].fields|
    ensures FieldOk(schema[k].fields[i], schema[k].groups, |schema|)
  {
    assert WellFormedDesc(schema[k], |schema|);
    assert WellFormedField(schema[k].fields[i], schema[k].groups, |schema|);
  }

  /** `strdup` of the member's bytes: the string up to the first zero byte. */
  method ReadString(s: seq<byte>) returns (text: seq<byte>)
    ensures text == CString(s)
  {
    var i := 0;
    while i < |s| && s[i] != 0
      invariant i <= |s| && CString(s) == s[..i] + CString(s[i..])
    {
      assert s[i..][1..] == s[i + 1..] && s[..i + 1] == s[..i] + [s[i]];
      assert s[..i] + ([s[i]] + CString(s[i + 1..])) == s[..i + 1] + CString(s[i + 1..]);
      i := i + 1;
    }
    text := s[..i];
    assert CString(s[i..]) == [];
  }

  /** A scanned member outside length-prefixed data is a varint or a fixed-size number. */
  ghost predicate Shape(r: Rec) {
    r.wireType != LENGTH_PREFIXED ==> 0 < |r.data| <= 10
  }

  ghost predicate Shapes(recs: seq<Rec>) {
    forall k :: 0 <= k < |recs| ==> Shape(recs[k])
  }

  lemma {:induction false} ScannedShapes(s: seq<byte>)
    ensures Scan(s).Some? ==> Shapes(Scan(s).value)
    decreases |s|
  {
    if s != [] && ScanMember(s).Some? {
      ScannedShapes(s[ScanMember(s).value.1..]);
    }
  }

  /** `parse_required_member` */
  method ParseRequiredMember(schema: seq<Desc>, ty: FieldType, r: Rec, ghost n: nat) returns (o: Outcome<Value>)
    requires WellFormed(schema) && |r.data| < n && (ty.MESSAGE? ==> ty.desc < |schema|)
    requires Shape(r)
    ensures o == ParseValue(schema, ty, r, n)
    decreases n, 0
  {
    hide WellFormed;
    if !ty.BOOL? && r.wireType != WireTypeOf(ty) {
      return Failed;
    }
    if ty.STRING? {
      var text := ReadString(Payload(r));
      return Done(Text(text));
    }
    if ty.BYTES? {
      return Done(Blob(Payload(r)));
    }
    if ty.MESSAGE? {
      var sub := Unpack(schema, ty.desc, Payload(r));
      return match sub
        case Done(m) => Done(Msg(m))
        case Failed => Failed;
    }
    if ty.BOOL? {
      var b := ParseBooleanBytes(r.data, 0, |r.data|);
      assert r.data[0..|r.data|] == r.data;
      return Done(Flag(b));
    }
    var v := ParseScalar(ty, r.data, 0, |r.data|);
    assert r.data[0..0 + |r.data|] == r.data;
    return Done(v);
  }

  /** `parse_member` */
  method ParseMember(schema: seq<Desc>, k: nat, r: Rec, b: Building, ghost n: nat) returns (ok: bool)
    requires WellFormed(schema) && k < |schema| && b.fields == schema[k].fields
    requires b.Valid() && r.tag < TWO_32 && |r.data| < n && Shape(r)
    requires RoomFor(b, r) && Typed(schema, b.msg) && b.msg.desc == k
    modifies b, b.lists, b.unknown
    ensures var o := WireFormat.ParseMember(schema, b.fields, r, old(b.msg), n);
            ok == o.Done? && (o.Done? ==> b.Valid() && b.msg == o.value)
    decreases n, 1
  {
    var i := FindField(b.fields, TagAsInt(r.tag));
    hide WellFormed, PackedValues, CountPacked, ParseValue, Building.Valid;
    if i < 0 {
      b.StoreUnknown(UnknownField(r.tag, r.wireType, r.data));
      return true;
    }
    var f := b.fields[i];
    FieldsAreOk(schema, k, i);
    MemberVariables(b, i);
    if IsPackedMember(f, r) {
      ok := b.StorePacked(i, Payload(r));
      return;
    }
    var o := ParseRequiredMember(schema, f.ty, r, n);
    if o.Failed? {
      return false;
    }
    var v := o.value;
    if f.rule in {Unlabeled, Optional} {
      var joined := JoinEarlier(schema, f, b.slots[i], v, r, n);
      if joined.Failed? {
        return false;
      }
      v := joined.value;
    }
    match f.rule {
    case Unlabeled => b.StoreSlot(i, Plain(v));
    case Optional => b.StoreSlot(i, if IsPointer(f.ty) then Plain(v) else Maybe(true, v));
    case Oneof(g) => b.StoreUnion(g, Holding(r.tag, v));
    case Repeated(_) => b.StoreElement(i, v);
    }
    ok := true;
  }

  /** The merge within `parse_required_member`: a submessage takes the one that came before it in. */
  method JoinEarlier(schema: seq<Desc>, f: Field, slot: Slot, v: Value, r: Rec, ghost n: nat) returns (o: Outcome<Value>)
    requires WellFormed(schema) && SlotTyped(schema, f, slot) && |r.data| < n && ParseValue(schema, f.ty, r, n) == Done(v)
    ensures o == Joined(schema, slot, v)
  {
    ValueIsTyped(schema, f.ty, r, n);
    if slot.Plain? && slot.v.Msg? && v.Msg? {
      SubmessageTyped(schema, f, slot);
      var merged := MergeMessages(schema, slot.v.m, v.m);
      return match merged
        case Done(m) => Done(Msg(m))
        case Failed => Failed;
    }
    return Done(v);
  }

  lemma MemberVariables(b: Building, i: nat)
    requires b.Valid() && i < |b.fields|
    ensures |b.fields| == |b.lists| == |b.used| == |b.slots| == |b.msg.slots|
    ensures if b.fields[i].rule.Repeated? then b.msg.slots[i].List? else b.msg.slots[i] == b.slots[i]
  {
    assert b.SlotOk(i);
  }

  /** The arrays have the sizes that the first pass counted. */
  ghost predicate Sized(b: Building, members: seq<Rec>)
    requires CountsOk(b.fields, members) && TagsOk(members) && |b.lists| == |b.fields|
  {
    && (forall i :: 0 <= i < |b.fields| ==> b.lists[i].Length == Counted(b.fields, members, i))
    && b.unknown.Length == CountedUnknown(b.fields, members)
  }

  /** What the second pass works on: the scanned members and their bounds. */
  ghost predicate MembersOk(fields: seq<Field>, members: seq<Rec>, n: nat) {
    CountsOk(fields, members) && TagsOk(members) && ShorterThan(members, n) && Shapes(members)
  }

  /** The first `p` members have been replayed into `b`. */
  ghost predicate Replayed(schema: seq<Desc>, k: nat, members: seq<Rec>, p: nat, n: nat, b: Building)
    reads b, b.lists, b.unknown
  {
    && k < |schema| && b.fields == schema[k].fields && p <= |members| && MembersOk(b.fields, members, n)
    && b.Valid() && Sized(b, members)
    && Replay(schema, b.fields, members[..p], Init(schema, k), n) == Done(b.msg)
  }

  /** The arrays have room for the next member: the count of the first pass is not outgrown. */
  lemma RoomForNext(schema: seq<Desc>, k: nat, members: seq<Rec>, p: nat, n: nat, b: Building)
    requires p < |members| && Replayed(schema, k, members, p, n, b)
    ensures RoomFor(b, members[p])
  {
    var r := members[p];
    var i := FindField(b.fields, TagAsInt(r.tag));
    var next := members[..p + 1];
    assert next[..p] == members[..p] && next[p] == r;
    CountsPrefix(b.fields, members, p);
    CountsPrefix(b.fields, members, p + 1);
    if i >= 0 && b.fields[i].rule.Repeated? {
      ReplayFits(schema, k, members[..p], n, i);
      CountedGrows(b.fields, members, p + 1, i);
      MemberVariables(b, i);
      assert b.SlotOk(i) && CountOk(b.fields, r);
      hide Replay, Init, Building.Valid, SlotsFor;
      assert Counted(b.fields, next, i) == Counted(b.fields, members[..p], i) + SlotsFor(b.fields[i], r).value;
    } else if i < 0 {
      UnknownsFit(schema, k, members[..p], n);
      CountedUnknownGrows(b.fields, members, p + 1);
    }
  }

  lemma {:induction false} UnknownsFit(schema: seq<Desc>, k: nat, recs: seq<Rec>, n: nat)
    requires k < |schema| && TagsOk(recs) && ShorterThan(recs, n)
    requires Replay(schema, schema[k].fields, recs, Init(schema, k), n).Done?
    ensures |Replay(schema, schema[k].fields, recs, Init(schema, k), n).value.unknown|
         == CountedUnknown(schema[k].fields, recs)
  {
    if recs != [] {
      UnknownsFit(schema, k, recs[..|recs| - 1], n);
      hide Init, PackedValues, ParseValue;
    }
  }

  lemma ReplayStep(schema: seq<Desc>, fields: seq<Field>, members: seq<Rec>, p: nat, m: Message, n: nat)
    requires p < |members| && TagsOk(members) && ShorterThan(members, n) && |m.slots| == |fields|
    requires Replay(schema, fields, members[..p], m, n).Done?
    ensures Replay(schema, fields, members[..p + 1], m, n)
         == WireFormat.ParseMember(schema, fields, members[p], Replay(schema, fields, members[..p], m, n).value, n)
  {
    assert members[..p + 1][..p] == members[..p];
    hide WireFormat.ParseMember;
  }

  /** A member that cannot be stored ends the second pass. */
  lemma {:induction false} ReplayStops(schema: seq<Desc>, fields: seq<Field>, members: seq<Rec>, p: nat, m: Message, n: nat)
    requires p <= |members| && TagsOk(members) && ShorterThan(members, n) && |m.slots| == |fields|
    requires !Replay(schema, fields, members[..p], m, n).Done?
    ensures Replay(schema, fields, members, m, n) == Replay(schema, fields, members[..p], m, n)
    decreases |members|
  {
    if p == |members| {
      assert members[..p] == members;
    } else {
      var prefix := members[..|members| - 1];
      assert prefix[..p] == members[..p];
      ReplayStops(schema, fields, prefix, p, m, n);
      hide WireFormat.ParseMember;
    }
  }

  /** A failed step fails the whole second pass. */
  ghost predicate Stopped(schema: seq<Desc>, k: nat, members: seq<Rec>, n: nat) {
    && k < |schema| && TagsOk(members) && ShorterThan(members, n)
    && Replay(schema, schema[k].fields, members, Init(schema, k), n).Failed?
  }

  /** Replays one member. */
  method ReplayNext(schema: seq<Desc>, k: nat, r: Rec, b: Building, ghost members: seq<Rec>, ghost p: nat, ghost n: nat)
    returns (ok: bool)
    requires WellFormed(schema) && p < |members| && r == members[p] && Replayed(schema, k, members, p, n, b)
    modifies b, b.lists, b.unknown
    ensures ok ==> Replayed(schema, k, members, p + 1, n, b)
    ensures !ok ==> Stopped(schema, k, members, n)
    decreases n, 2, 0
  {
    RoomForNext(schema, k, members, p, n, b);
    hide WellFormed, Replay, WireFormat.ParseMember, RoomFor, Building.Valid, CountsOk, Init;
    ghost var m := Init(schema, k);
    InitShape(schema, k);
    ReplayStep(schema, b.fields, members, p, m, n);
    ReplayTyped(schema, k, members[..p], n);
    ok := ParseMember(schema, k, r, b, n);
    if !ok {
      ReplayStops(schema, b.fields, members, p + 1, m, n);
    }
  }

  lemma InitShape(schema: seq<Desc>, k: nat)
    requires k < |schema|
    ensures |Init(schema, k).slots| == |schema[k].fields|
  {
  }

  /** The members of one slab, in order. */
  method ReplaySlab(schema: seq<Desc>, k: nat, slab: array<Rec>, max: nat, b: Building,
                    ghost members: seq<Rec>, ghost start: nat, ghost n: nat)
    returns (ok: bool)
    requires WellFormed(schema) && Holds(slab, max, members, start) && Replayed(schema, k, members, start, n, b)
    modifies b, b.lists, b.unknown
    ensures ok ==> start + max <= |members| && Replayed(schema, k, members, start + max, n, b)
    ensures !ok ==> Stopped(schema, k, members, n)
    decreases n, 2, 1
  {
    hide *;
    var j := 0;
    ok := true;
    HeldIn(slab, max, members, start);
    while ok && j < max
      invariant j <= max && Holds(slab, max, members, start)
      invariant ok ==> Replayed(schema, k, members, start + j, n, b)
      invariant !ok ==> Stopped(schema, k, members, n)
      decreases ok, max - j
    {
      HeldAt(slab, max, members, start, j);
      ok := ReplayNext(schema, k, slab[j], b, members, start + j, n);
      j := j + 1;
    }
  }

  lemma HeldIn(slab: array<Rec>, max: nat, members: seq<Rec>, start: nat)
    requires Holds(slab, max, members, start)
    ensures max <= slab.Length && start + max <= |members|
  {
  }

  lemma HeldAt(slab: array<Rec>, max: nat, members: seq<Rec>, start: nat, j: nat)
    requires Holds(slab, max, members, start) && j < max
    ensures j < slab.Length && start + j < |members| && slab[j] == members[start + j]
  {
    assert slab[..max][j] == members[start..start + max][j];
  }

  /** How many members there are before slab `i`. */
  ghost function Before(i: nat, whichSlab: nat, total: nat): nat {
    if i <= whichSlab then SlabStart(i) else total
  }

  lemma BeforeNext(i: nat, whichSlab: nat, inSlabIndex: nat, total: nat)
    requires i <= whichSlab && total == SlabStart(whichSlab) + inSlabIndex
    ensures Before(i + 1, whichSlab, total) == SlabStart(i) + if i == whichSlab then inSlabIndex else SlabSize(i)
    ensures Before(i, whichSlab, total) == SlabStart(i)
  {
    NextStart(i);
  }

  /** The slabs that the first pass filled. */
  ghost predicate Filled(slabs: seq<array<Rec>>, whichSlab: nat, inSlabIndex: nat, members: seq<Rec>)
    reads slabs
  {
    && |slabs| == whichSlab + 1 && FullSlabs(slabs, whichSlab, members)
    && Holds(slabs[whichSlab], inSlabIndex, members, SlabStart(whichSlab))
    && |members| == SlabStart(whichSlab) + inSlabIndex
  }

  lemma FilledSlab(slabs: seq<array<Rec>>, whichSlab: nat, inSlabIndex: nat, members: seq<Rec>, i: nat)
    requires Filled(slabs, whichSlab, inSlabIndex, members) && i <= whichSlab
    ensures i < |slabs| && Holds(slabs[i], if i == whichSlab then inSlabIndex else SlabSize(i), members, SlabStart(i))
    ensures |members| == SlabStart(whichSlab) + inSlabIndex
  {
    hide Holds, SlabStart, SlabSize;
  }

  lemma BeforeStart(whichSlab: nat, total: nat)
    ensures Before(0, whichSlab, total) == 0
  {
  }

  lemma AfterLast(i: nat, whichSlab: nat, total: nat)
    ensures i > whichSlab ==> Before(i, whichSlab, total) == total
  {
  }

  /** One slab: all of it, or as far as it is filled when it is the last. */
  method ReplaySlabAt(schema: seq<Desc>, k: nat, slabs: seq<array<Rec>>, i: nat, whichSlab: nat, inSlabIndex: nat,
                      b: Building, ghost members: seq<Rec>, ghost n: nat)
    returns (ok: bool)
    requires WellFormed(schema) && Filled(slabs, whichSlab, inSlabIndex, members) && i <= whichSlab
    requires Replayed(schema, k, members, Before(i, whichSlab, |members|), n, b)
    modifies b, b.lists, b.unknown
    ensures Filled(slabs, whichSlab, inSlabIndex, members)
    ensures ok ==> Replayed(schema, k, members, Before(i + 1, whichSlab, |members|), n, b)
    ensures !ok ==> Stopped(schema, k, members, n)
    decreases n, 2, 2
  {
    hide *;
    var max := if i == whichSlab then inSlabIndex else SlabSize(i);
    FilledSlab(slabs, whichSlab, inSlabIndex, members, i);
    BeforeNext(i, whichSlab, inSlabIndex, |members|);
    ok := ReplaySlab(schema, k, slabs[i], max, b, members, SlabStart(i), n);
    assert forall j :: 0 <= j < |slabs| ==> unchanged(slabs[j]);
  }

  /** The second pass: slab after slab, the last one only as far as it is filled. */
  method ReplaySlabs(schema: seq<Desc>, k: nat, slabs: seq<array<Rec>>, whichSlab: nat, inSlabIndex: nat, b: Building,
                     ghost members: seq<Rec>, ghost n: nat)
    returns (ok: bool)
    requires WellFormed(schema) && Filled(slabs, whichSlab, inSlabIndex, members)
    requires Replayed(schema, k, members, 0, n, b)
    modifies b, b.lists, b.unknown
    ensures ok ==> Replayed(schema, k, members, |members|, n, b)
    ensures !ok ==> Stopped(schema, k, members, n)
    decreases n, 2, 3
  {
    hide *;
    var i := 0;
    ok := true;
    ghost var total := |members|;
    BeforeStart(whichSlab, total);
    while ok && i <= whichSlab
      invariant i <= whichSlab + 1
      invariant Filled(slabs, whichSlab, inSlabIndex, members)
      invariant ok ==> Replayed(schema, k, members, Before(i, whichSlab, total), n, b)
      invariant !ok ==> Stopped(schema, k, members, n)
      decreases ok, whichSlab + 1 - i
    {
      ok := ReplaySlabAt(schema, k, slabs, i, whichSlab, inSlabIndex, b, members, n);
      i := i + 1;
    }
    AfterLast(i, whichSlab, total);
  }

  /** The arrays of the repeated fields, each of the size that was counted. */
  method AllocateLists(counts: seq<nat>) returns (lists: seq<array<Value>>)
    ensures |lists| == |counts| && fresh(lists)
    ensures forall i :: 0 <= i < |counts| ==> lists[i].Length == counts[i]
    ensures forall i, j :: 0 <= i < j < |lists| ==> lists[i] != lists[j]
  {
    lists := [];
    for i := 0 to |counts|
      invariant |lists| == i && fresh(lists)
      invariant forall j :: 0 <= j < i ==> lists[j].Length == counts[j]
      invariant forall j, l :: 0 <= j < l < i ==> lists[j] != lists[l]
    {
      var a := new Value[counts[i]](_ => Num(0));
      lists := lists + [a];
    }
  }

  /** The initialised message with room for everything that was counted. */
  method Allocate(schema: seq<Desc>, k: nat, counts: seq<nat>, nUnknown: nat, ghost members: seq<Rec>, ghost n: nat)
    returns (b: Building)
    requires k < |schema| && MembersOk(schema[k].fields, members, n)
    requires CountsAre(schema[k].fields, members, counts, nUnknown)
    ensures fresh(b) && fresh(b.lists) && fresh(b.unknown) && Replayed(schema, k, members, 0, n, b)
  {
    var fields := schema[k].fields;
    var lists := AllocateLists(counts);
    var unknown := new UnknownField[nUnknown](_ => UnknownField(0, 0, []));
    var m := Init(schema, k);
    hide Counted, CountedUnknown, CountsOk, TagsOk, ShorterThan, Shapes, InitSlots;
    b := new Building(fields, lists, unknown, m.slots, m.unions, m);
    assert members[..0] == [];
  }

  lemma DecodeAccepted(schema: seq<Desc>, k: nat, data: seq<byte>)
    requires k < |schema|
    ensures Accepted(schema[k].fields, data) ==>
              var members := Scan(data).value;
              && MembersOk(schema[k].fields, members, |data|)
              && Decode(schema, k, data) == Replay(schema, schema[k].fields, members, Init(schema, k), |data|)
    ensures !Accepted(schema[k].fields, data) ==> Decode(schema, k, data).Failed?
  {
    ScannedTags(data);
    ScannedShapes(data);
    hide Scan, Replay, Init;
  }

  /** `protobuf_c_message_unpack` */
  method Unpack(schema: seq<Desc>, k: nat, data: seq<byte>) returns (o: Outcome<Message>)
    requires WellFormed(schema) && k < |schema|
    ensures o == Decode(schema, k, data)
    decreases |data|, 3
  {
    hide WellFormed, Accepted, Scan, CountsAre, Replayed, MembersOk, Init, Decode, FullSlabs, SlabStart, SlabSize;
    DecodeAccepted(schema, k, data);
    var ok, slabs, counts, nUnknown := ScanAll(schema, k, data);
    if !ok {
      return Failed;
    }
    ghost var members, n := slabs.members, |data|;
    var b := Allocate(schema, k, counts, nUnknown, members, n);
    ok := ReplaySlabs(schema, k, slabs.slabs, slabs.whichSlab, slabs.inSlabIndex, b, members, n);
    if !ok {
      return Failed;
    }
    ReplayedAll(schema, k, members, n, b);
    var m := b.Finish(k);
    return Done(m);
  }

  lemma ReplayedAll(schema: seq<Desc>, k: nat, members: seq<Rec>, n: nat, b: Building)
    requires Replayed(schema, k, members, |members|, n, b)
    ensures TagsOk(members) && ShorterThan(members, n)
    ensures b.Valid() && b.msg.desc == k
    ensures Replay(schema, schema[k].fields, members, Init(schema, k), n) == Done(b.msg)
  {
    assert members[..|members|] == members;
    hide Replay;
  }
}
