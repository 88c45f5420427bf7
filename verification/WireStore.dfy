/**
 The storage that the second pass of the decoder fills: the arrays of the repeated fields, the
 member variables of the others, and the unknown fields.
 */
module WireStore {
  import opened Common
  import opened Bytes
  import opened Varint
  import opened Schema
  import opened WireMessage
  import opened WireFormat
  import opened WireSlots

  function ElementLength(ty: FieldType, s: seq<byte>): nat {
    if FixedWidth(ty) == 0 then VarintLength(s, 10) else FixedWidth(ty)
  }

  lemma PackedUnroll(ty: FieldType, s: seq<byte>)
    requires s != [] && 0 < ElementLength(ty, s) <= |s|
    ensures var n := ElementLength(ty, s);
            && PackedValues(ty, s).0 == [ScalarValue(ty, s[..n])] + PackedValues(ty, s[n..]).0
            && PackedValues(ty, s).1 == PackedValues(ty, s[n..]).1
  {
    hide ScalarValue, VarintLength, FixedWidth;
  }

  /** How far a packed member has been read: `written` are the elements before `at`. */
  ghost predicate ReadSoFar(ty: FieldType, s: seq<byte>, at: nat, written: seq<Value>) {
    && at <= |s|
    && PackedValues(ty, s).0 == written + PackedValues(ty, s[at..]).0
    && PackedValues(ty, s).1 == PackedValues(ty, s[at..]).1
  }

  lemma ReadStart(ty: FieldType, s: seq<byte>)
    ensures ReadSoFar(ty, s, 0, [])
  {
    hide PackedValues;
    assert s[0..] == s;
    assert [] + PackedValues(ty, s).0 == PackedValues(ty, s).0;
  }

  lemma ReadNext(ty: FieldType, s: seq<byte>, at: nat, written: seq<Value>, n: nat)
    requires ReadSoFar(ty, s, at, written) && at < |s| && 0 < n <= |s| - at && n == ElementLength(ty, s[at..])
    ensures ReadSoFar(ty, s, at + n, written + [ScalarValue(ty, s[at..at + n])])
  {
    PackedUnroll(ty, s[at..]);
    assert s[at..][..n] == s[at..at + n] && s[at..][n..] == s[at + n..];
    Regroup(written, ScalarValue(ty, s[at..at + n]), PackedValues(ty, s[at + n..]).0);
    hide PackedValues, ScalarValue, ElementLength;
  }

  lemma Regroup(a: seq<Value>, v: Value, b: seq<Value>)
    ensures a + ([v] + b) == (a + [v]) + b
  {
  }

  /** What has been read is part of what there is to read. */
  lemma ReadFits(ty: FieldType, s: seq<byte>, at: nat, written: seq<Value>)
    requires ReadSoFar(ty, s, at, written)
    ensures |written| <= |PackedValues(ty, s).0|
  {
    hide PackedValues;
  }

  lemma ReadEnd(ty: FieldType, s: seq<byte>, written: seq<Value>)
    requires ReadSoFar(ty, s, |s|, written)
    ensures PackedValues(ty, s) == (written, true)
  {
    assert s[|s|..] == [] && PackedValues(ty, []) == ([], true);
    hide PackedValues;
    assert written + [] == written;
  }

  lemma ReadBad(ty: FieldType, s: seq<byte>, at: nat, written: seq<Value>)
    requires ReadSoFar(ty, s, at, written) && at < |s| && ElementLength(ty, s[at..]) == 0
    ensures !PackedValues(ty, s).1
  {
    hide ScalarValue, VarintLength, FixedWidth;
  }

  /** One element of a packed member; numbers go through the loops of their parsers. */
  method ParseScalar(ty: FieldType, s: seq<byte>, at: nat, len: nat) returns (v: Value)
    requires IsPackable(ty) && 0 < len <= 10 && at + len <= |s|
    ensures v == ScalarValue(ty, s[at..at + len])
  {
    hide ParseUint32, ParseUint64, ParseBoolean, FromLittleEndian, UnZigZag32, UnZigZag64, ToSigned32, ToSigned64;
    var t := s[at..at + len];
    if ty.BOOL? {
      var b := ParseBooleanBytes(s, at, len);
      return Flag(b);
    }
    if ty.SINT64? || ty.INT64? || ty.UINT64? {
      var u := ParseUint64Bytes(s, at, len);
      return Num(if ty.SINT64? then UnZigZag64(u) else if ty.INT64? then ToSigned64(u) else u);
    }
    if FixedWidth(ty) == 0 {
      var u := ParseUint32Bytes(s, at, len);
      return Num(if ty.SINT32? then UnZigZag32(u) else if ty.UINT32? then u else ToSigned32(u));
    }
    return ScalarValue(ty, t);
  }

  /** The next element of a packed member: its length and its value. */
  method ParseElement(ty: FieldType, s: seq<byte>, at: nat, ghost written: seq<Value>) returns (n: nat, v: Value)
    requires IsPackable(ty) && at < |s| && ReadSoFar(ty, s, at, written)
    requires WholeElements(ty, |s| - at)
    ensures n == 0 ==> !PackedValues(ty, s).1
    ensures n > 0 ==> at + n <= |s| && WholeElements(ty, |s| - (at + n)) && ReadSoFar(ty, s, at + n, written + [v])
  {
    hide PackedValues, ScalarValue, VarintLength, ReadSoFar;
    var w := FixedWidth(ty);
    v := Num(0);
    if w == 0 {
      assert s[at..|s|] == s[at..];
      n := ScanVarint(s, at, |s|, 10);
      if n == 0 {
        ReadBad(ty, s, at, written);
        return;
      }
    } else {
      n := w;
      WholeElement(|s| - at, w);
    }
    WidthAtMostTen(ty, s[at..]);
    ReadNext(ty, s, at, written, n);
    v := ParseScalar(ty, s, at, n);
  }

  /** Stores a value behind the cells in use. */
  method StoreValue(a: array<Value>, i: nat, v: Value, ghost front: seq<Value>, ghost written: seq<Value>)
    requires i < a.Length && a[..i] == front + written
    modifies a
    ensures a[..i + 1] == front + (written + [v])
  {
    a[i] := v;
    assert a[..i + 1] == a[..i] + [v];
    assert (front + written) + [v] == front + (written + [v]);
  }

  /** A packed member being stored: the array holds what was there and then what has been read. */
  ghost predicate Storing(ty: FieldType, s: seq<byte>, at: nat, a: array<Value>, end: nat, front: seq<Value>, written: seq<Value>)
    reads a
  {
    && ReadSoFar(ty, s, at, written) && WholeElements(ty, |s| - at)
    && end == |front| + |written| && end <= a.Length && a[..end] == front + written
  }

  /** One turn of the loop over a packed member. */
  method StoreNext(ty: FieldType, s: seq<byte>, at: nat, a: array<Value>, end: nat,
                   ghost front: seq<Value>, ghost written: seq<Value>)
    returns (n: nat, ghost written': seq<Value>)
    requires IsPackable(ty) && at < |s| && Storing(ty, s, at, a, end, front, written)
    requires |front| + |PackedValues(ty, s).0| <= a.Length
    modifies a
    ensures n == 0 ==> !PackedValues(ty, s).1
    ensures n > 0 ==> at + n <= |s| && Storing(ty, s, at + n, a, end + 1, front, written')
  {
    hide ReadSoFar, WholeElements, PackedValues, IsPackable;
    var v;
    n, v := ParseElement(ty, s, at, written);
    written' := written + [v];
    if n > 0 {
      ReadFits(ty, s, at + n, written');
      StoreValue(a, end, v, front, written);
    }
  }

  lemma StoringEnd(ty: FieldType, s: seq<byte>, a: array<Value>, end: nat, front: seq<Value>, written: seq<Value>)
    requires Storing(ty, s, |s|, a, end, front, written)
    ensures PackedValues(ty, s).1 && end == |front| + |PackedValues(ty, s).0| <= a.Length
    ensures a[..end] == front + PackedValues(ty, s).0
  {
    ReadEnd(ty, s, written);
    hide PackedValues, ReadSoFar, WholeElements;
  }

  lemma StoringStart(ty: FieldType, s: seq<byte>, a: array<Value>, used: nat)
    requires CountPacked(ty, s).Some? && used <= a.Length
    ensures IsPackable(ty) && Storing(ty, s, 0, a, used, a[..used], [])
  {
    ReadStart(ty, s);
    PackedMemberShape(ty, s);
    assert a[..used] + [] == a[..used];
    hide CountPacked, ReadSoFar, WholeElements;
  }

  /** The loop over a packed member. */
  method StoreAll(ty: FieldType, s: seq<byte>, a: array<Value>, used: nat, ghost front: seq<Value>) returns (ok: bool, end: nat)
    requires IsPackable(ty) && Storing(ty, s, 0, a, used, front, [])
    requires |front| + |PackedValues(ty, s).0| <= a.Length
    modifies a
    ensures ok == PackedValues(ty, s).1
    ensures ok ==> end == |front| + |PackedValues(ty, s).0| <= a.Length && a[..end] == front + PackedValues(ty, s).0
  {
    var at := 0;
    end, ok := used, true;
    ghost var written: seq<Value> := [];
    hide *;
    while ok && at < |s|
      invariant ok ==> at <= |s| && Storing(ty, s, at, a, end, front, written)
      invariant !ok ==> !PackedValues(ty, s).1
      decreases ok, |s| - at
    {
      var n;
      n, written := StoreNext(ty, s, at, a, end, front, written);
      ok := n > 0;
      at, end := at + n, end + 1;
    }
    if ok {
      StoringEnd(ty, s, a, end, front, written);
    }
  }

  /** `parse_packed_repeated_member`: stores the elements behind the `used` ones already there. */
  method ParsePacked(ty: FieldType, s: seq<byte>, a: array<Value>, used: nat, ghost front: seq<Value>)
    returns (ok: bool, count: nat)
    requires CountPacked(ty, s).Some? && used + CountPacked(ty, s).value <= a.Length && a[..used] == front
    modifies a
    ensures ok == PackedValues(ty, s).1
    ensures ok ==> count == |PackedValues(ty, s).0| && used + count <= a.Length
    ensures ok ==> a[..used + count] == front + PackedValues(ty, s).0
  {
    PackedFitsCount(ty, s);
    StoringStart(ty, s, a, used);
    hide *;
    var end;
    ok, end := StoreAll(ty, s, a, used, front);
    count := if ok then end - used else 0;
  }

  /** Fixed-size elements fill the rest of a packed member exactly. */
  ghost predicate WholeElements(ty: FieldType, rem: nat) {
    FixedWidth(ty) > 0 ==> rem % FixedWidth(ty) == 0
  }

  lemma PackedMemberShape(ty: FieldType, s: seq<byte>)
    requires CountPacked(ty, s).Some?
    ensures IsPackable(ty) && WholeElements(ty, |s|)
  {
  }

  lemma WholeElement(rem: nat, w: nat)
    requires (w == 4 || w == 8) && rem > 0 && rem % w == 0
    ensures w <= rem && (rem - w) % w == 0
  {
    if w == 4 {
      assert rem % 4 == 0;
    } else {
      assert rem % 8 == 0;
    }
  }

  lemma WidthAtMostTen(ty: FieldType, s: seq<byte>)
    ensures FixedWidth(ty) <= 10 && VarintLength(s, 10) <= 10
  {
  }

  // ----- the message under construction -----

  /**
   The message structure that the second pass fills. Each repeated field has an array of the
   size counted by the first pass and a counter of the elements stored so far; `msg` is the
   message that the structure stands for.
   */
  class Building {
    const fields: seq<Field>
    const lists: seq<array<Value>>
    const unknown: array<UnknownField>
    var slots: seq<Slot>
    var unions: seq<Union>
    var used: seq<nat>
    var nUnknown: nat
    ghost var msg: Message

    /** Member `i` of the structure agrees with the message. */
    ghost predicate SlotOk(i: nat)
      requires i < |fields| == |lists| == |used| == |slots| == |msg.slots|
      reads this, lists
    {
      if fields[i].rule.Repeated?
      then used[i] <= lists[i].Length && msg.slots[i] == List(lists[i][..used[i]])
      else msg.slots[i] == slots[i]
    }

    ghost predicate Valid()
      reads this, lists, unknown
    {
      && |fields| == |lists| == |used| == |slots| == |msg.slots|
      && (forall i, j :: 0 <= i < j < |lists| ==> lists[i] != lists[j])
      && (forall i :: 0 <= i < |fields| ==> SlotOk(i))
      && msg.unions == unions
      && nUnknown <= unknown.Length && msg.unknown == unknown[..nUnknown]
    }

    constructor (fields: seq<Field>, lists: seq<array<Value>>, unknown: array<UnknownField>,
                 slots: seq<Slot>, unions: seq<Union>, ghost m: Message)
      requires |fields| == |lists| == |slots| && m.slots == slots && m.unions == unions && m.unknown == []
      requires forall i, j :: 0 <= i < j < |lists| ==> lists[i] != lists[j]
      requires forall i :: 0 <= i < |fields| && fields[i].rule.Repeated? ==> slots[i] == List([])
      ensures Valid() && msg == m
      ensures this.fields == fields && this.lists == lists && this.unknown == unknown
    {
      this.fields, this.lists, this.unknown, this.slots, this.unions := fields, lists, unknown, slots, unions;
      used, nUnknown := seq(|fields|, _ => 0), 0;
      msg := m;
    }

    /** A field without a list: its member variables are overwritten. */
    method StoreSlot(i: nat, s: Slot)
      requires Valid() && i < |fields| && !fields[i].rule.Repeated?
      modifies this
      ensures Valid() && msg == old(msg).(slots := old(msg).slots[i := s])
    {
      slots := slots[i := s];
      msg := msg.(slots := msg.slots[i := s]);
      forall j | 0 <= j < |fields| ensures SlotOk(j) {
        assert old(SlotOk(j));
      }
    }

    /** A oneof: the case and the shared storage are overwritten together. */
    method StoreUnion(g: nat, u: Union)
      requires Valid() && g < |msg.unions|
      modifies this
      ensures Valid() && msg == old(msg).(unions := old(msg).unions[g := u])
    {
      unions := unions[g := u];
      msg := msg.(unions := msg.unions[g := u]);
      forall j | 0 <= j < |fields| ensures SlotOk(j) {
        assert old(SlotOk(j));
      }
    }

    method StoreUnknown(u: UnknownField)
      requires Valid() && nUnknown < unknown.Length
      modifies this, unknown
      ensures Valid() && msg == old(msg).(unknown := old(msg).unknown + [u])
    {
      unknown[nUnknown] := u;
      nUnknown := nUnknown + 1;
      msg := msg.(unknown := msg.unknown + [u]);
      assert unknown[..nUnknown] == old(unknown[..nUnknown]) + [u];
      forall j | 0 <= j < |fields| ensures SlotOk(j) {
        assert old(SlotOk(j));
      }
    }

    /** One element behind those already stored. */
    method StoreElement(i: nat, v: Value)
      requires Valid() && i < |fields| && fields[i].rule.Repeated? && msg.slots[i].List? && used[i] < lists[i].Length
      modifies this, lists[i]
      ensures Valid() && msg == old(msg).(slots := old(msg).slots[i := List(old(msg).slots[i].vs + [v])])
    {
      assert SlotOk(i);
      ghost var before := lists[i][..used[i]];
      lists[i][used[i]] := v;
      assert lists[i][..used[i] + 1] == before + [v];
      used := used[i := used[i] + 1];
      msg := msg.(slots := msg.slots[i := List(before + [v])]);
      forall j | 0 <= j < |fields| ensures SlotOk(j) {
        assert old(SlotOk(j));
      }
    }

    /** The elements of a packed member. */
    method StorePacked(i: nat, s: seq<byte>) returns (ok: bool)
      requires Valid() && i < |fields| && fields[i].rule.Repeated? && msg.slots[i].List?
      requires CountPacked(fields[i].ty, s).Some? && used[i] + CountPacked(fields[i].ty, s).value <= lists[i].Length
      modifies this, lists[i]
      ensures ok == PackedValues(fields[i].ty, s).1
      ensures ok ==> Valid()
      ensures ok ==> msg == old(msg).(slots := old(msg).slots[i := List(old(msg).slots[i].vs + PackedValues(fields[i].ty, s).0)])
    {
      assert SlotOk(i);
      ghost var before, vs := lists[i][..used[i]], PackedValues(fields[i].ty, s).0;
      hide PackedValues, CountPacked;
      var count;
      ok, count := ParsePacked(fields[i].ty, s, lists[i], used[i], before);
      if ok {
        used := used[i := used[i] + count];
        msg := msg.(slots := msg.slots[i := List(before + vs)]);
        forall j | 0 <= j < |fields| ensures SlotOk(j) {
          assert old(SlotOk(j));
        }
      }
    }

    /** The finished message. */
    method Finish(k: nat) returns (m: Message)
      requires Valid() && msg.desc == k
      ensures m == msg
    {
      var all: seq<Slot> := [];
      for i := 0 to |fields|
        invariant |all| == i && all == msg.slots[..i]
      {
        assert SlotOk(i);
        var s := if fields[i].rule.Repeated? then List(lists[i][..used[i]]) else slots[i];
        assert msg.slots[..i + 1] == msg.slots[..i] + [msg.slots[i]];
        all := all + [s];
      }
      m := Message(k, all, unions, unknown[..nUnknown]);
    }
  }
}
