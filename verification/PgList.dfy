/**
 The list package: a growable array of cells, NIL being the only empty list. Every operation
 acts as the operation on sequences, and appending copies each cell at most twice on average.
 */
module PgList {
  import opened Common

  /** The cells that the fixed part of a list header takes. */
  const LIST_HEADER_OVERHEAD: nat := 3

  predicate IsPower2(p: nat) {
    p == 1 || (p > 1 && p % 2 == 0 && IsPower2(p / 2))
  }

  /** The first of `p`, `2 p`, `4 p`, ... that is at least `n`. */
  function PowerFrom(p: nat, n: nat): (r: nat)
    requires p >= 1
    ensures r >= n && r >= p && (n <= p || r < 2 * n)
    decreases n - p
  {
    if p >= n then p else PowerFrom(2 * p, n)
  }

  /** `pg_nextpower2_32` */
  function NextPower2(n: nat): (r: nat)
    ensures r >= n && r >= 1
  {
    PowerFrom(1, n)
  }

  lemma {:induction false} PowersFrom(p: nat, n: nat)
    requires p >= 1 && IsPower2(p)
    ensures IsPower2(PowerFrom(p, n))
    decreases n - p
  {
    if p < n {
      PowersFrom(2 * p, n);
    }
  }

  /** The smallest power of two that is at least `n`. */
  lemma NextPower2Is(n: nat)
    ensures IsPower2(NextPower2(n)) && n <= NextPower2(n) && (n > 1 ==> NextPower2(n) < 2 * n) && (n <= 1 ==> NextPower2(n) == 1)
  {
    PowersFrom(1, n);
  }

  lemma {:induction false} DoublesFrom(q: nat, p: nat)
    requires q >= 1 && IsPower2(p) && IsPower2(q) && q <= p
    ensures PowerFrom(q, p + 1) == 2 * p && IsPower2(2 * p)
    decreases p - q
  {
    if q < p {
      DoublesAtMost(q, p);
      DoublesFrom(2 * q, p);
    }
  }

  lemma {:induction false} DoublesAtMost(q: nat, p: nat)
    requires IsPower2(q) && IsPower2(p) && q < p
    ensures 2 * q <= p && IsPower2(2 * q)
  {
    if q > 1 {
      DoublesAtMost(q / 2, p / 2);
    }
  }

  /** One cell more than a power of two asks for the next one. */
  lemma NextDoubles(p: nat)
    requires IsPower2(p)
    ensures NextPower2(p + 1) == 2 * p && IsPower2(2 * p)
  {
    DoublesFrom(1, p);
  }

  /** `List` */
  class CellList<T(0)> {
    var elements: array<T>
    var length: nat
    /** The cells copied whenever the list has been enlarged. */
    ghost var copied: nat

    /** `check_list_invariants`; the length of the array is `max_length`. */
    ghost predicate Valid()
      reads this
    {
      0 < length <= elements.Length
    }

    ghost function Contents(): seq<T>
      requires Valid()
      reads this, elements
    {
      elements[..length]
    }

    /** `new_list`: all cells count as valid, the caller fills them in. */
    constructor (minSize: nat)
      requires minSize > 0
      ensures Valid() && length == minSize && copied == 0 && fresh(elements)
      ensures elements.Length == NextPower2(Max(8, minSize + LIST_HEADER_OVERHEAD)) - LIST_HEADER_OVERHEAD
    {
      elements := new T[NextPower2(Max(8, minSize + LIST_HEADER_OVERHEAD)) - LIST_HEADER_OVERHEAD];
      length, copied := minSize, 0;
    }

    /** `enlarge_list` */
    method Enlarge(minSize: nat)
      requires Valid() && minSize > elements.Length
      modifies this
      ensures Valid() && Contents() == old(Contents()) && length == old(length) && fresh(elements)
      ensures elements.Length == NextPower2(Max(16, minSize)) >= minSize
      ensures copied == old(copied) + length
    {
      var cells := new T[NextPower2(Max(16, minSize))];
      forall i | 0 <= i < length {
        cells[i] := elements[i];
      }
      assert cells[..length] == elements[..length];
      elements, copied := cells, copied + length;
    }

    /** `insert_new_cell` and the assignment to it; at the end and at the front alike. */
    method InsertCell(pos: nat, datum: T)
      requires Valid() && pos <= length
      modifies this, elements
      ensures Valid() && (elements == old(elements) || fresh(elements))
      ensures Contents() == old(Contents())[..pos] + [datum] + old(Contents())[pos..]
      ensures old(length) < old(elements.Length) ==> elements == old(elements) && copied == old(copied)
      ensures old(length) == old(elements.Length) ==>
                elements.Length == NextPower2(Max(16, old(length) + 1)) && copied == old(copied) + old(length)
    {
      ghost var s := Contents();
      if length >= elements.Length {
        Enlarge(length + 1);
      }
      var n, cells := length, elements;
      assert cells[..n] == s;
      forall i | pos <= i < n {
        cells[i + 1] := cells[i];
      }
      cells[pos] := datum;
      length := n + 1;
      assert forall i :: 0 <= i < n + 1 ==> cells[i] == if i < pos then s[i] else if i == pos then datum else s[i - 1];
      assert cells[..n + 1] == s[..pos] + [datum] + s[pos..];
    }

    /** The `memcpy` of `list_concat`, whose source may be this very list. */
    method CopyBehind(from: array<T>, n: nat)
      requires Valid() && n <= from.Length && length + n <= elements.Length
      requires from == elements ==> n <= length
      modifies this, elements
      ensures Valid() && Contents() == old(Contents()) + old(from[..n])
      ensures elements == old(elements) && copied == old(copied)
    {
      ghost var s := Contents() + from[..n];
      var to, len := elements, length;
      assert forall i :: 0 <= i < n ==> from[i] == s[len + i];
      forall i | 0 <= i < n {
        to[len + i] := from[i];
      }
      length := len + n;
      assert forall i :: 0 <= i < len ==> to[i] == s[i];
      assert to[..len + n] == s;
    }
  }

  /** The sequence that a list stands for; NIL is the empty one. */
  ghost function Cells<T(0)>(list: CellList?<T>): seq<T>
    requires IsList(list)
    reads list, Owned(list)
  {
    if list == null then [] else list.Contents()
  }

  ghost predicate IsList<T(0)>(list: CellList?<T>)
    reads list
  {
    list != null ==> list.Valid()
  }

  /** The memory of a list. */
  ghost function Owned<T(0)>(list: CellList?<T>): set<object>
    reads list
  {
    if list == null then {} else var header: object := list; {header, list.elements}
  }

  /** `lappend` */
  method Lappend<T(0)>(list: CellList?<T>, datum: T) returns (r: CellList<T>)
    requires IsList(list)
    modifies Owned(list)
    ensures r.Valid() && Cells(r) == old(Cells(list)) + [datum]
    ensures if list == null then fresh(Owned(r)) && r.elements.Length == 5 && r.copied == 0
            else r == list && (r.elements == old(list.elements) || fresh(r.elements))
    ensures list != null && old(list.length < list.elements.Length) ==>
              r.elements == old(list.elements) && r.copied == old(list.copied)
    ensures list != null && old(list.length == list.elements.Length) ==>
              r.elements.Length == NextPower2(Max(16, old(list.length) + 1)) && r.copied == old(list.copied) + old(list.length)
  {
    if list == null {
      assert PowerFrom(8, 8) == 8;
      r := new CellList(1);
      r.elements[0] := datum;
      assert r.elements[..1] == [datum];
    } else {
      r := list;
      ghost var s := r.Contents();
      r.InsertCell(r.length, datum);
      assert s[..|s|] + [datum] + s[|s|..] == s + [datum];
    }
  }

  /** `lcons` */
  method Lcons<T(0)>(datum: T, list: CellList?<T>) returns (r: CellList<T>)
    requires IsList(list)
    modifies Owned(list)
    ensures r.Valid() && Cells(r) == [datum] + old(Cells(list))
    ensures if list == null then fresh(Owned(r)) else r == list && (r.elements == old(list.elements) || fresh(r.elements))
  {
    r := ListInsertNth(list, 0, datum);
  }

  /** `list_insert_nth` */
  method ListInsertNth<T(0)>(list: CellList?<T>, pos: nat, datum: T) returns (r: CellList<T>)
    requires IsList(list) && pos <= |Cells(list)|
    modifies Owned(list)
    ensures r.Valid() && Cells(r) == old(Cells(list))[..pos] + [datum] + old(Cells(list))[pos..]
    ensures if list == null then fresh(Owned(r)) else r == list && (r.elements == old(list.elements) || fresh(r.elements))
  {
    if list == null {
      r := new CellList(1);
      r.elements[0] := datum;
      assert r.elements[..1] == [datum];
    } else {
      r := list;
      r.InsertCell(pos, datum);
    }
  }

  /** `list_copy` */
  method ListCopy<T(0)>(oldList: CellList?<T>) returns (r: CellList?<T>)
    requires IsList(oldList)
    ensures IsList(r) && fresh(Owned(r)) && Cells(r) == Cells(oldList)
  {
    r := ListCopyTail(oldList, 0);
  }

  /** `list_copy_tail` */
  method ListCopyTail<T(0)>(oldList: CellList?<T>, nskip: int) returns (r: CellList?<T>)
    requires IsList(oldList)
    ensures IsList(r) && fresh(Owned(r))
    ensures Cells(r) == if nskip <= 0 then Cells(oldList) else if nskip >= |Cells(oldList)| then [] else Cells(oldList)[nskip..]
  {
    var skip := if nskip < 0 then 0 else nskip;
    if oldList == null || skip >= oldList.length {
      return null;
    }
    var n := oldList.length - skip;
    var copy := new CellList<T>(n);
    var cells := copy.elements;
    forall i | 0 <= i < n {
      cells[i] := oldList.elements[skip + i];
    }
    assert cells[..n] == oldList.elements[..oldList.length][skip..];
    r := copy;
  }

  /** `list_concat`; both arguments may be the same list. */
  method ListConcat<T(0)>(list1: CellList?<T>, list2: CellList?<T>) returns (r: CellList?<T>)
    requires IsList(list1) && IsList(list2)
    requires list1 != null && list2 != null && list1 != list2 ==> list1.elements != list2.elements
    modifies Owned(list1)
    ensures IsList(r) && Cells(r) == old(Cells(list1)) + old(Cells(list2))
    ensures if list1 == null then fresh(Owned(r)) else r == list1 && (list1.elements == old(list1.elements) || fresh(list1.elements))
    ensures list1 != list2 ==> IsList(list2) && Cells(list2) == old(Cells(list2))
  {
    if list1 == null {
      r := ListCopy(list2);
      return;
    }
    if list2 == null {
      return list1;
    }
    var n2 := list2.length;
    if list1.length + n2 > list1.elements.Length {
      list1.Enlarge(list1.length + n2);
    }
    list1.CopyBehind(list2.elements, n2);
    r := list1;
  }

  /** `list_truncate` */
  method ListTruncate<T(0)>(list: CellList?<T>, newSize: int) returns (r: CellList?<T>)
    requires IsList(list)
    modifies if list == null then {} else {list}
    ensures IsList(r) && (r == null || r == list) && Owned(r) <= old(Owned(list))
    ensures Cells(r) == if newSize <= 0 then [] else if newSize < |old(Cells(list))| then old(Cells(list))[..newSize] else old(Cells(list))
  {
    if newSize <= 0 {
      return null;
    }
    if list != null && newSize < list.length {
      assert list.elements[..newSize] == list.elements[..list.length][..newSize];
      list.length := newSize;
    }
    r := list;
  }

  /** `list_delete_nth_cell`; deleting the last cell that is left gives NIL. */
  method ListDeleteNthCell<T(0)>(list: CellList<T>, n: nat) returns (r: CellList?<T>)
    requires list.Valid() && n < list.length
    modifies list, list.elements
    ensures IsList(r) && (r == null || r == list) && Owned(r) <= old(Owned(list))
    ensures Cells(r) == old(Cells(list))[..n] + old(Cells(list))[n + 1..]
  {
    if list.length == 1 {
      return null;
    }
    ghost var s := list.Contents();
    var cells, len := list.elements, list.length;
    forall i | n <= i < len - 1 {
      cells[i] := cells[i + 1];
    }
    list.length := len - 1;
    assert cells[..len - 1] == s[..n] + s[n + 1..];
    r := list;
  }

  /** `list_delete_last` */
  method ListDeleteLast<T(0)>(list: CellList?<T>) returns (r: CellList?<T>)
    requires IsList(list)
    modifies if list == null then {} else {list}
    ensures IsList(r) && (r == null || r == list) && Owned(r) <= old(Owned(list))
    ensures var s := old(Cells(list)); Cells(r) == if s == [] then [] else s[..|s| - 1]
  {
    if list == null || list.length <= 1 {
      return null;
    }
    r := ListTruncate(list, list.length - 1);
  }

  // ----- the cost of appending -----

  /** A list that has grown by appending only: what has been copied is less than what fits. */
  ghost predicate GrownByAppending(max: nat, length: nat, copied: nat) {
    || (max == 5 && copied == 0)
    || (max == 16 && copied == 5 && length > 5)
    || (max > 16 && IsPower2(max) && copied == max - 11 && 2 * length > max)
  }

  lemma AppendCost(max: nat, length: nat, copied: nat)
    requires GrownByAppending(max, length, copied) && 0 < length <= max
    ensures copied <= 2 * length
    ensures length < max ==> GrownByAppending(max, length + 1, copied)
    ensures length == max ==> GrownByAppending(NextPower2(Max(16, length + 1)), length + 1, copied + length)
  {
    if length == max {
      if max == 5 {
        assert PowerFrom(8, 16) == 16 && PowerFrom(2, 16) == PowerFrom(4, 16);
      } else {
        assert max == 16 ==> IsPower2(16) by { assert IsPower2(4); }
        NextDoubles(max);
      }
    }
  }

  /** `n` appends from NIL give the items in order and copy at most `2 n` cells in total. */
  method AppendAll<T(0)>(items: seq<T>) returns (list: CellList?<T>)
    ensures IsList(list) && fresh(Owned(list)) && Cells(list) == items
    ensures list != null ==> list.copied <= 2 * |items|
  {
    list := null;
    var i := 0;
    while i < |items|
      invariant 0 <= i <= |items| && IsList(list) && fresh(Owned(list)) && Cells(list) == items[..i]
      invariant i > 0 ==> list != null && list.length == i && GrownByAppending(list.elements.Length, i, list.copied)
    {
      if list != null {
        AppendCost(list.elements.Length, i, list.copied);
      }
      list := Lappend(list, items[i]);
      assert items[..i + 1] == items[..i] + [items[i]];
      i := i + 1;
    }
    if list != null {
      AppendCost(list.elements.Length, i, list.copied);
    }
    assert items[..i] == items;
  }

  // ----- runs of operations -----

  datatype ListOp<T> =
    | Append(datum: T)
    | Prepend(datum: T)
    | InsertNth(pos: nat, datum: T)
    | Concat(items: seq<T>)
    | ConcatSelf
    | Truncate(newSize: int)
    | DeleteNth(n: nat)
    | DeleteLast
    | CopyTail(nskip: int)

  /** What the assertions of the operation ask for. */
  predicate Allowed<T>(s: seq<T>, op: ListOp<T>) {
    match op
    case InsertNth(pos, _) => pos <= |s|
    case DeleteNth(n) => n < |s|
    case _ => true
  }

  /** The operation on sequences. */
  function Step<T>(s: seq<T>, op: ListOp<T>): seq<T>
    requires Allowed(s, op)
  {
    match op
    case Append(datum) => s + [datum]
    case Prepend(datum) => [datum] + s
    case InsertNth(pos, datum) => s[..pos] + [datum] + s[pos..]
    case Concat(items) => s + items
    case ConcatSelf => s + s
    case Truncate(newSize) => if newSize <= 0 then [] else if newSize < |s| then s[..newSize] else s
    case DeleteNth(n) => s[..n] + s[n + 1..]
    case DeleteLast => if s == [] then [] else s[..|s| - 1]
    case CopyTail(nskip) => if nskip <= 0 then s else if nskip >= |s| then [] else s[nskip..]
  }

  predicate AllAllowed<T>(s: seq<T>, ops: seq<ListOp<T>>)
    decreases |ops|
  {
    ops == [] || (Allowed(s, ops[0]) && AllAllowed(Step(s, ops[0]), ops[1..]))
  }

  function After<T>(s: seq<T>, ops: seq<ListOp<T>>): seq<T>
    requires AllAllowed(s, ops)
    decreases |ops|
  {
    if ops == [] then s else After(Step(s, ops[0]), ops[1..])
  }

  method Perform<T(0)>(list: CellList?<T>, op: ListOp<T>) returns (r: CellList?<T>)
    requires IsList(list) && Allowed(Cells(list), op)
    modifies Owned(list)
    ensures IsList(r) && Cells(r) == Step(old(Cells(list)), op)
    ensures fresh(Owned(r) - old(Owned(list)))
  {
    match op
    case Append(datum) => r := Lappend(list, datum);
    case Prepend(datum) => r := Lcons(datum, list);
    case InsertNth(pos, datum) => r := ListInsertNth(list, pos, datum);
    case Concat(items) =>
      var other := AppendAll(items);
      r := ListConcat(list, other);
    case ConcatSelf => r := ListConcat(list, list);
    case Truncate(newSize) => r := ListTruncate(list, newSize);
    case DeleteNth(n) => r := ListDeleteNthCell(list, n);
    case DeleteLast => r := ListDeleteLast(list);
    case CopyTail(nskip) => r := ListCopyTail(list, nskip);
  }

  /** Any run of the operations from NIL keeps the list valid and acts as the run on sequences. */
  method PerformAll<T(0)>(ops: seq<ListOp<T>>) returns (list: CellList?<T>)
    requires AllAllowed([], ops)
    ensures IsList(list) && Cells(list) == After([], ops)
  {
    list := null;
    var i := 0;
    while i < |ops|
      invariant 0 <= i <= |ops| && IsList(list) && fresh(Owned(list))
      invariant AllAllowed(Cells(list), ops[i..]) && After(Cells(list), ops[i..]) == After([], ops)
    {
      assert ops[i..][1..] == ops[i + 1..];
      list := Perform(list, ops[i]);
      i := i + 1;
    }
  }
}
