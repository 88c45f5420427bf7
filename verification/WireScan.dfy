/**
 The first pass of the decoder: the input is scanned into slabs of members, and the slots that
 each repeated field will need are counted.
 */
module WireScan {
  import opened Common
  import opened Bytes
  import opened Varint
  import opened Schema
  import opened WireMessage
  import opened WireFormat
  import opened WireSlots

  // ----- the slabs of scanned members -----

  /** Slab `k` holds 16 * 2^k members. */
  function SlabSize(k: nat): (n: nat)
    ensures n >= 16
  {
    if k == 0 then 16 else 2 * SlabSize(k - 1)
  }

  /** The slabs before slab `k` hold `SlabStart(k)` members together. */
  function SlabStart(k: nat): nat {
    SlabSize(k) - 16
  }

  const MAX_SLAB := 22

  lemma CapacityOfSlabs()
    ensures SlabStart(MAX_SLAB + 1) == SLAB_CAPACITY
  {
    assert SlabSize(4) == 16 * SlabSize(0);
    assert SlabSize(8) == 16 * SlabSize(4);
    assert SlabSize(12) == 16 * SlabSize(8);
    assert SlabSize(16) == 16 * SlabSize(12);
    assert SlabSize(20) == 16 * SlabSize(16);
    assert SlabSize(23) == 8 * SlabSize(20);
  }

  lemma {:induction false} SlabSizeGrows(j: nat, k: nat)
    requires j <= k
    ensures SlabSize(j) <= SlabSize(k)
    ensures j < k ==> SlabSize(j) < SlabSize(k)
  {
    if j < k {
      SlabSizeGrows(j, k - 1);
    }
  }

  lemma NextStart(k: nat)
    ensures SlabStart(k + 1) == SlabStart(k) + SlabSize(k)
  {
  }

  /** The first `n` cells of slab `a` are the members from `start` on. */
  ghost predicate Holds(a: array<Rec>, n: nat, members: seq<Rec>, start: nat)
    reads a
  {
    n <= a.Length && start + n <= |members| && a[..n] == members[start..start + n]
  }

  lemma HoldsMore(a: array<Rec>, n: nat, members: seq<Rec>, start: nat, r: Rec)
    requires Holds(a, n, members, start)
    ensures Holds(a, n, members + [r], start)
  {
    assert (members + [r])[start..start + n] == members[start..start + n];
  }

  lemma NothingYet(a: array<Rec>, members: seq<Rec>)
    ensures Holds(a, 0, members, |members|)
  {
  }

  /** Each of the first `n` slabs has its size and is full of members. */
  ghost predicate FullSlabs(slabs: seq<array<Rec>>, n: nat, members: seq<Rec>)
    requires n <= |slabs|
    reads slabs
  {
    forall k :: 0 <= k < n ==> slabs[k].Length == SlabSize(k) && Holds(slabs[k], SlabSize(k), members, SlabStart(k))
  }

  lemma OneMoreFull(slabs: seq<array<Rec>>, a: array<Rec>, members: seq<Rec>)
    requires slabs != [] && FullSlabs(slabs, |slabs| - 1, members)
    requires var last := |slabs| - 1;
             slabs[last].Length == SlabSize(last) && Holds(slabs[last], SlabSize(last), members, SlabStart(last))
    ensures FullSlabs(slabs + [a], |slabs|, members)
  {
    hide SlabSize, SlabStart, Holds;
  }

  class MemberSlabs {
    var slabs: seq<array<Rec>>
    var whichSlab: nat
    var inSlabIndex: nat
    ghost var members: seq<Rec>
    ghost var Repr: set<object>

    ghost predicate Valid()
      reads this, Repr
      ensures Valid() ==> this in Repr
    {
      && this in Repr && (forall k :: 0 <= k < |slabs| ==> slabs[k] in Repr)
      && |slabs| == whichSlab + 1 && whichSlab <= MAX_SLAB
      && slabs[whichSlab].Length == SlabSize(whichSlab)
      && inSlabIndex <= SlabSize(whichSlab)
      && |members| == SlabStart(whichSlab) + inSlabIndex
      && FullSlabs(slabs, whichSlab, members)
      && Holds(slabs[whichSlab], inSlabIndex, members, SlabStart(whichSlab))
    }

    constructor ()
      ensures Valid() && members == [] && fresh(Repr)
    {
      var first := new Rec[16];
      slabs := [first];
      whichSlab, inSlabIndex := 0, 0;
      members := [];
      Repr := {this, first};
    }

    /** Opens the next slab once the current one is full. */
    method NextSlab()
      requires Valid() && inSlabIndex == SlabSize(whichSlab) && whichSlab < MAX_SLAB
      modifies this
      ensures fresh(Repr - old(Repr))
      ensures Valid() && members == old(members) && inSlabIndex == 0 && whichSlab == old(whichSlab) + 1
    {
      NextStart(whichSlab);
      hide SlabSize, SlabStart, Holds, FullSlabs;
      ghost var before := slabs;
      var a := new Rec[SlabSize(whichSlab + 1)];
      assert FullSlabs(before, whichSlab, members) && Holds(before[whichSlab], inSlabIndex, members, SlabStart(whichSlab));
      NothingYet(a, members);
      OneMoreFull(before, a, members);
      slabs, whichSlab, inSlabIndex, Repr := slabs + [a], whichSlab + 1, 0, Repr + {a};
    }

    /** Writes into the current slab, which has room. */
    method Put(r: Rec)
      requires Valid() && inSlabIndex < SlabSize(whichSlab)
      modifies Repr
      ensures Valid() && members == old(members) + [r] && Repr == old(Repr)
    {
      hide SlabSize, SlabStart;
      forall k | 0 <= k < whichSlab
        ensures Holds(slabs[k], SlabSize(k), members + [r], SlabStart(k)) && slabs[k] != slabs[whichSlab]
      {
        HoldsMore(slabs[k], SlabSize(k), members, SlabStart(k), r);
        SlabSizeGrows(k, whichSlab);
      }
      ghost var a, i, start := slabs[whichSlab], inSlabIndex, SlabStart(whichSlab);
      members := members + [r];
      assert forall k :: 0 <= k < whichSlab ==> Holds(slabs[k], SlabSize(k), members, SlabStart(k));
      slabs[whichSlab][inSlabIndex] := r;
      inSlabIndex := inSlabIndex + 1;
      assert a[..i + 1] == a[..i] + [r];
      assert members[start..start + i + 1] == members[start..start + i] + [r];
    }

    /** Stores the next scanned member; fails only when every slab is full. */
    method Add(r: Rec) returns (ok: bool)
      requires Valid()
      modifies Repr
      ensures fresh(Repr - old(Repr))
      ensures ok <==> |old(members)| < SLAB_CAPACITY
      ensures ok ==> Valid() && members == old(members) + [r]
    {
      RoomLeft(whichSlab, inSlabIndex);
      AtLeastSixteen(whichSlab + 1);
      assert inSlabIndex <= SlabSize(whichSlab) && whichSlab <= MAX_SLAB;
      assert |members| == SlabStart(whichSlab) + inSlabIndex;
      hide *;
      if inSlabIndex == SlabSize(whichSlab) {
        if whichSlab == MAX_SLAB {
          return false;
        }
        NextSlab();
      }
      Put(r);
      return true;
    }
  }

  lemma AtLeastSixteen(k: nat)
    ensures SlabSize(k) >= 16
  {
  }

  /** Only a full last slab is a full set of slabs. */
  lemma RoomLeft(which: nat, index: nat)
    requires which <= MAX_SLAB && index <= SlabSize(which)
    ensures SlabStart(which) + index < SLAB_CAPACITY <==> !(which == MAX_SLAB && index == SlabSize(which))
  {
    CapacityOfSlabs();
    NextStart(which);
    SlabSizeGrows(which + 1, MAX_SLAB + 1);
    if which < MAX_SLAB {
      SlabSizeGrows(which + 2, MAX_SLAB + 1);
      NextStart(which + 1);
    }
  }

  // ----- the scan -----

  /** `scan_length_prefixed_data` */
  method ScanLengthPrefixed(data: seq<byte>, at: nat) returns (len: nat)
    requires at <= |data|
    ensures len == PrefixedLength(data[at..])
  {
    var hdrMax := if |data| - at < 5 then |data| - at else 5;
    var val: nat := 0;
    var shift: nat := 1;
    var i := 0;
    ghost var s := data[at..];
    assert s[..0] == [] && Number([]) == 0 && Pow128(0) == 1;
    hide Number, Pow128, VarintLength, IsVarint;
    while i < hdrMax && data[at + i] >= 128
      invariant i <= hdrMax
      invariant forall j :: 0 <= j < i ==> s[j] >= 128
      invariant shift == Pow128(i) && val == Number(s[..i])
    {
      ValueSnoc(s, i);
      NextPower(i);
      val, shift := val + shift * Low7(data[at + i]), shift * 128;
      i := i + 1;
    }
    VarintLengthIs(s, 5, i);
    if i == hdrMax {
      return 0;
    }
    ValueSnoc(s, i);
    val := val + shift * Low7(data[at + i]);
    var hdrLen := i + 1;
    if val > INT_MAX || hdrLen + val > |data| - at {
      return 0;
    }
    len := hdrLen + val;
  }

  /** The length of the member that starts at `start`. */
  method ScanLength(data: seq<byte>, start: nat, wireType: nat) returns (len: nat)
    requires start <= |data|
    ensures len == MemberLength(wireType, data[start..])
  {
    var rem := |data| - start;
    assert data[start..|data|] == data[start..];
    hide VarintLength, PrefixedLength;
    len := 0;
    if wireType == VARINT {
      len := ScanVarint(data, start, |data|, 10);
    } else if wireType == FIXED_64 {
      len := if rem < 8 then 0 else 8;
    } else if wireType == LENGTH_PREFIXED {
      len := ScanLengthPrefixed(data, start);
    } else if wireType == FIXED_32 {
      len := if rem < 4 then 0 else 4;
    }
  }

  /** The body of the scanning loop: tag, wire type and member bytes. */
  method ScanOne(data: seq<byte>, at: nat) returns (r: Option<(Rec, nat)>)
    requires at < |data|
    ensures r == ScanMember(data[at..])
  {
    hide ParsedTag, MemberLength;
    var t := ParseTagAndWireType(data, at);
    if t.NoTag? {
      return None;
    }
    var tag, wireType, used := t.tag, t.wireType, t.used;
    assert data[at..][used..] == data[at + used..];
    var len := ScanLength(data, at + used, wireType);
    if len == 0 {
      return None;
    }
    assert data[at..][used..used + len] == data[at + used..at + used + len];
    return Some((Rec(tag, wireType, data[at + used..at + used + len]), used + len));
  }

  /** `count_packed_elements` */
  method CountPackedElements(ty: FieldType, s: seq<byte>) returns (count: Option<nat>)
    ensures count == CountPacked(ty, s)
  {
    var w := FixedWidth(ty);
    if w > 0 {
      count := if |s| % w != 0 then None else Some(|s| / w);
    } else if ty.BOOL? {
      count := Some(|s|);
    } else if IsPackable(ty) {
      var rv := 0;
      var i := 0;
      assert s[..0] == [] && s[..|s|] == s;
      while i < |s|
        invariant 0 <= i <= |s| && rv == Terminators(s[..i])
      {
        TerminatorsSplit(s[..i + 1], i);
        assert s[..i + 1][..i] == s[..i] && s[..i + 1][i..] == [s[i]];
        assert Terminators([s[i]]) == if s[i] < 128 then 1 else 0;
        if s[i] < 128 {
          rv := rv + 1;
        }
        i := i + 1;
      }
      count := Some(rv);
    } else {
      count := None;
    }
  }

  /** Whether the input can be scanned, counted and kept in the slabs. */
  ghost predicate Accepted(fields: seq<Field>, s: seq<byte>) {
    Scan(s).Some? && |Scan(s).value| <= SLAB_CAPACITY && CountsOk(fields, Scan(s).value)
  }

  /** How far the scan has come: `members` are the records before `at`. */
  ghost predicate Scanned(data: seq<byte>, at: nat, members: seq<Rec>) {
    && at <= |data| && (Scan(data).Some? <==> Scan(data[at..]).Some?)
    && (Scan(data).Some? ==> Scan(data).value == members + Scan(data[at..]).value)
  }

  lemma ScanStart(data: seq<byte>)
    ensures Scanned(data, 0, [])
  {
    hide Scan;
    assert data[0..] == data;
    assert Scan(data).Some? ==> [] + Scan(data).value == Scan(data).value;
  }

  lemma ScanEnd(data: seq<byte>, members: seq<Rec>)
    requires Scanned(data, |data|, members)
    ensures Scan(data) == Some(members)
  {
    assert data[|data|..] == [];
    assert Scan([]) == Some([]);
    hide Scan;
    assert members + [] == members;
  }

  lemma ScanStuck(data: seq<byte>, at: nat, members: seq<Rec>)
    requires Scanned(data, at, members) && at < |data| && ScanMember(data[at..]).None?
    ensures Scan(data).None?
  {
    hide ScanMember;
  }

  lemma ScanUnroll(s: seq<byte>)
    requires s != [] && ScanMember(s).Some?
    ensures var (r, used) := ScanMember(s).value;
            (Scan(s).Some? <==> Scan(s[used..]).Some?) && (Scan(s).Some? ==> Scan(s).value == [r] + Scan(s[used..]).value)
  {
    hide ScanMember;
  }

  lemma ScanStep(data: seq<byte>, at: nat, members: seq<Rec>)
    requires Scanned(data, at, members) && at < |data| && ScanMember(data[at..]).Some?
    ensures var (r, used) := ScanMember(data[at..]).value;
            Scanned(data, at + used, members + [r]) && used > 0
  {
    hide Scan, ScanMember;
    var (r, used) := ScanMember(data[at..]).value;
    ScanUnroll(data[at..]);
    assert data[at..][used..] == data[at + used..];
    if Scan(data).Some? {
      var tail := Scan(data[at + used..]).value;
      assert members + ([r] + tail) == (members + [r]) + tail;
    }
  }

  /** A record that cannot be kept spoils the whole input. */
  lemma ScanSpoiled(fields: seq<Field>, data: seq<byte>, at: nat, members: seq<Rec>)
    requires Scanned(data, at, members)
    requires |members| > SLAB_CAPACITY || !CountsOk(fields, members)
    ensures !Accepted(fields, data)
  {
    hide Scan;
    if Scan(data).Some? && CountsOk(fields, Scan(data).value) {
      var all := Scan(data).value;
      assert forall k :: 0 <= k < |members| ==> members[k] == all[k];
    }
  }

  /** The field of a tag: the previous field when the tag repeats, a search otherwise. */
  method FieldOfTag(schema: seq<Desc>, k: nat, tag: nat, last: int) returns (index: int)
    requires WellFormed(schema) && k < |schema| && tag < TWO_32
    requires -1 <= last < |schema[k].fields|
    ensures index == FindField(schema[k].fields, TagAsInt(tag))
  {
    assert WellFormedDesc(schema[k], |schema|);
    if last < 0 || schema[k].fields[last].id != tag {
      index := IntRangeLookup(schema[k], TagAsInt(tag), |schema|);
    } else {
      FindFieldExact(schema[k], |schema|, last);
      index := last;
    }
  }

  lemma CountedMore(fields: seq<Field>, members: seq<Rec>, r: Rec, i: nat)
    requires CountsOk(fields, members) && CountOk(fields, r) && i < |fields|
    ensures CountsOk(fields, members + [r]) && TagsOk(members + [r])
    ensures Counted(fields, members + [r], i) == Counted(fields, members, i) + CountedBy(fields, r, i)
    ensures TagsOk(members)
    ensures CountedUnknown(fields, members + [r])
         == CountedUnknown(fields, members) + if FindField(fields, TagAsInt(r.tag)) < 0 then 1 else 0
  {
    var all := members + [r];
    assert all[..|all| - 1] == members;
    assert forall j :: 0 <= j < |all| ==> all[j] == if j < |members| then members[j] else r;
    assert forall j :: 0 <= j < |all| ==> CountOk(fields, all[j]);
    hide CountedBy, FindField, SlotsFor;
  }

  ghost predicate CountsAre(fields: seq<Field>, members: seq<Rec>, counts: seq<nat>, nUnknown: nat) {
    && CountsOk(fields, members) && TagsOk(members) && |counts| == |fields|
    && (forall i :: 0 <= i < |fields| ==> counts[i] == Counted(fields, members, i))
    && nUnknown == CountedUnknown(fields, members)
  }

  /** What one more record adds to the counters. */
  lemma CountsNext(fields: seq<Field>, members: seq<Rec>, r: Rec, counts: seq<nat>, nUnknown: nat)
    requires CountsAre(fields, members, counts, nUnknown) && CountOk(fields, r)
    ensures var k := FindField(fields, TagAsInt(r.tag));
            CountsAre(fields, members + [r],
                      if k >= 0 && fields[k].rule.Repeated?
                      then counts[k := counts[k] + SlotsFor(fields[k], r).value] else counts,
                      if k < 0 then nUnknown + 1 else nUnknown)
  {
    var k := FindField(fields, TagAsInt(r.tag));
    var counts' := if k >= 0 && fields[k].rule.Repeated?
                   then counts[k := counts[k] + SlotsFor(fields[k], r).value] else counts;
    forall i | 0 <= i < |fields|
      ensures CountsOk(fields, members + [r]) && counts'[i] == Counted(fields, members + [r], i)
    {
      CountedMore(fields, members, r, i);
      hide Counted, CountOk, CountsOk, SlotsFor, FindField;
    }
    if fields == [] {
      UnknownsOnly(fields, members, r);
    } else {
      CountedMore(fields, members, r, 0);
    }
  }

  lemma UnknownsOnly(fields: seq<Field>, members: seq<Rec>, r: Rec)
    requires fields == [] && TagsOk(members) && r.tag < TWO_32
    ensures CountsOk(fields, members + [r]) && TagsOk(members + [r])
    ensures CountedUnknown(fields, members + [r]) == CountedUnknown(fields, members) + 1
  {
    assert (members + [r])[..|members|] == members;
  }

  lemma NothingCounted(fields: seq<Field>, counts: seq<nat>)
    requires |counts| == |fields| && forall i :: 0 <= i < |counts| ==> counts[i] == 0
    ensures CountsAre(fields, [], counts, 0)
  {
  }

  lemma NotCounted(fields: seq<Field>, members: seq<Rec>, r: Rec)
    requires !CountOk(fields, r)
    ensures !CountsOk(fields, members + [r])
  {
    hide CountOk;
    assert (members + [r])[|members|] == r;
  }

  /** Keeps one scanned record: stores it and counts the slots it needs. */
  method KeepMember(fields: seq<Field>, r: Rec, index: int, slabs: MemberSlabs, counts: seq<nat>, nUnknown: nat,
                    ghost members: seq<Rec>)
    returns (ok: bool, counts': seq<nat>, nUnknown': nat)
    requires slabs.Valid() && r.tag < TWO_32 && index == FindField(fields, TagAsInt(r.tag))
    requires slabs.members == members && CountsAre(fields, members, counts, nUnknown)
    modifies slabs.Repr
    ensures fresh(slabs.Repr - old(slabs.Repr))
    ensures !ok ==> |members + [r]| > SLAB_CAPACITY || !CountsOk(fields, members + [r])
    ensures ok ==> slabs.Valid() && slabs.members == members + [r] && |members + [r]| <= SLAB_CAPACITY
    ensures ok ==> CountsAre(fields, members + [r], counts', nUnknown')
  {
    hide *;
    counts', nUnknown' := counts, nUnknown;
    ok := slabs.Add(r);
    if !ok {
      return;
    }
    var slots := Some(1);
    if index >= 0 && IsPackedMember(fields[index], r) {
      slots := CountPackedElements(fields[index].ty, Payload(r));
    }
    CountOkIs(fields, r);
    if slots.None? {
      NotCounted(fields, members, r);
      ok := false;
      return;
    }
    CountsLength(fields, members, counts, nUnknown);
    CountsNext(fields, members, r, counts, nUnknown);
    if index < 0 {
      nUnknown' := nUnknown + 1;
    } else if fields[index].rule.Repeated? {
      counts' := counts[index := counts[index] + slots.value];
    }
  }

  /** Scans the next record, keeping track of what the rest of the input decides. */
  method ScanRecord(fields: seq<Field>, data: seq<byte>, at: nat, ghost members: seq<Rec>)
    returns (ok: bool, r: Rec, at': nat)
    requires at < |data| && Scanned(data, at, members)
    ensures !ok ==> !Accepted(fields, data)
    ensures ok ==> r.tag < TWO_32 && at < at' <= |data| && Scanned(data, at', members + [r])
  {
    hide Accepted, Scanned, Scan, ScanMember;
    var one := ScanOne(data, at);
    if one.None? {
      ScanStuck(data, at, members);
      NotAccepted(fields, data);
      return false, Rec(0, 0, []), at;
    }
    ScanStep(data, at, members);
    TagInRange(data[at..]);
    return true, one.value.0, at + one.value.1;
  }

  /** The first pass over the input. */
  method ScanAll(schema: seq<Desc>, k: nat, data: seq<byte>)
    returns (ok: bool, slabs: MemberSlabs, counts: seq<nat>, nUnknown: nat)
    requires WellFormed(schema) && k < |schema|
    ensures ok <==> Accepted(schema[k].fields, data)
    ensures ok ==> slabs.Valid() && fresh(slabs.Repr) && Scan(data) == Some(slabs.members)
    ensures ok ==> CountsAre(schema[k].fields, slabs.members, counts, nUnknown)
  {
    var fields := schema[k].fields;
    slabs := new MemberSlabs();
    counts := seq(|fields|, _ => 0);
    nUnknown := 0;
    ScanStart(data);
    NothingCounted(fields, counts);
    var last := if |fields| == 0 then -1 else 0;
    var at := 0;
    ok := true;
    hide *;
    while ok && at < |data|
      invariant fresh(slabs.Repr)
      invariant !ok ==> !Accepted(fields, data)
      invariant ok ==> -1 <= last < |fields| && ScanHolds(fields, data, at, slabs, counts, nUnknown)
      decreases ok, |data| - at
    {
      ok, at, last, counts, nUnknown := ScanNext(schema, k, data, at, last, slabs, counts, nUnknown);
    }
    if ok {
      ScanComplete(fields, data, at, slabs, counts, nUnknown);
    }
  }

  /** The state of the scanning loop. */
  ghost predicate ScanHolds(fields: seq<Field>, data: seq<byte>, at: nat, slabs: MemberSlabs, counts: seq<nat>, nUnknown: nat)
    reads slabs, slabs.Repr
  {
    && at <= |data| && slabs.Valid() && |slabs.members| <= SLAB_CAPACITY
    && Scanned(data, at, slabs.members) && CountsAre(fields, slabs.members, counts, nUnknown)
  }

  lemma ScanComplete(fields: seq<Field>, data: seq<byte>, at: nat, slabs: MemberSlabs, counts: seq<nat>, nUnknown: nat)
    requires ScanHolds(fields, data, at, slabs, counts, nUnknown) && at >= |data|
    ensures Accepted(fields, data) && Scan(data) == Some(slabs.members)
    ensures slabs.Valid() && CountsAre(fields, slabs.members, counts, nUnknown)
  {
    hide Scan, Scanned, CountsAre, Accepted;
    ScanEnd(data, slabs.members);
    ScanAccepted(fields, data, slabs.members, counts, nUnknown);
  }

  /** One turn of the scanning loop. */
  method ScanNext(schema: seq<Desc>, k: nat, data: seq<byte>, at: nat, last: int, slabs: MemberSlabs,
                  counts: seq<nat>, nUnknown: nat)
    returns (ok: bool, at': nat, last': int, counts': seq<nat>, nUnknown': nat)
    requires WellFormed(schema) && k < |schema| && -1 <= last < |schema[k].fields|
    requires at < |data| && ScanHolds(schema[k].fields, data, at, slabs, counts, nUnknown)
    modifies slabs.Repr
    ensures fresh(slabs.Repr - old(slabs.Repr))
    ensures !ok ==> !Accepted(schema[k].fields, data)
    ensures ok ==> at < at' && -1 <= last' < |schema[k].fields|
    ensures ok ==> at' <= |data| && ScanHolds(schema[k].fields, data, at', slabs, counts', nUnknown')
  {
    var fields := schema[k].fields;
    ghost var members := slabs.members;
    last', counts', nUnknown' := last, counts, nUnknown;
    hide Accepted, Scanned, CountsAre, CountsOk, CountOk, Scan, FindField, ScanMember, WellFormed;
    hide MemberSlabs.Valid;
    var r;
    ok, r, at' := ScanRecord(fields, data, at, members);
    if !ok {
      return;
    }
    var index := FieldOfTag(schema, k, r.tag, last);
    last' := if index >= 0 then index else last;
    ok, counts', nUnknown' := KeepMember(fields, r, index, slabs, counts, nUnknown, members);
    if !ok {
      ScanSpoiled(fields, data, at', members + [r]);
    }
  }

  lemma NotAccepted(fields: seq<Field>, data: seq<byte>)
    requires Scan(data).None?
    ensures !Accepted(fields, data)
  {
  }

  lemma ScanAccepted(fields: seq<Field>, data: seq<byte>, members: seq<Rec>, counts: seq<nat>, nUnknown: nat)
    requires Scan(data) == Some(members) && |members| <= SLAB_CAPACITY
    requires CountsAre(fields, members, counts, nUnknown)
    ensures Accepted(fields, data)
  {
    hide Scan;
  }

  lemma CountsLength(fields: seq<Field>, members: seq<Rec>, counts: seq<nat>, nUnknown: nat)
    requires CountsAre(fields, members, counts, nUnknown)
    ensures |counts| == |fields|
  {
  }

  lemma TagInRange(s: seq<byte>)
    requires s != [] && ScanMember(s).Some?
    ensures ScanMember(s).value.0.tag < TWO_32 && 0 < ScanMember(s).value.1 <= |s|
  {
  }

  lemma CountOkIs(fields: seq<Field>, r: Rec)
    requires r.tag < TWO_32
    ensures var k := FindField(fields, TagAsInt(r.tag));
            CountOk(fields, r) <==> (k >= 0 && IsPackedMember(fields[k], r) ==> CountPacked(fields[k].ty, Payload(r)).Some?)
    ensures var k := FindField(fields, TagAsInt(r.tag));
            k >= 0 ==> SlotsFor(fields[k], r) ==
                       if IsPackedMember(fields[k], r) then CountPacked(fields[k].ty, Payload(r)) else Some(1)
  {
    hide CountPacked, Payload;
  }
}
