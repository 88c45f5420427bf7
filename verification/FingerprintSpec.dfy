/**
 Fingerprints: what is written into the hash for a parse tree, recomputed at every visit.

 A tree is a node with fields, a list, a scalar or a node that is ignored. Lists have an
 identity, the address that the cache of `FingerprintCache` is keyed by. The hash is any
 function on byte streams.
 */
module FingerprintSpec {
  import opened Common

  datatype Tree =
    | Null
    | Scalar(text: seq<string>)
    | Ignored
    | ListNode(id: nat, items: seq<Tree>)
    | Struct(tag: string, fields: seq<Field>)

  /**
   A field is scalar text, left out in some places, or a child. A child is visited through
   `_fingerprintNode` as a node or as a list, or its own function is called directly.
   */
  datatype Field =
    | Text(text: seq<string>, hidden: set<Place>)
    | Child(name: string, via: Via, child: Tree)

  datatype Via = ViaNode | ViaList | Direct

  /** The type of the parent and the name of the field under which a node is reached. */
  datatype Place = Place(parent: string, field: string)

  const NOWHERE := Place("", "")

  /** The lists in these fields are sorted and freed of duplicates. */
  const SORTED_FIELDS := {"fromClause", "targetList", "cols", "rexpr", "valuesLists", "args"}

  const DEPTH_LIMIT := 100

  predicate IsSorted(place: Place) {
    place.field in SORTED_FIELDS
  }

  /** `_fingerprintString`, several times. */
  function Joined(text: seq<string>): string {
    if text == [] then "" else Joined(text[..|text| - 1]) + text[|text| - 1]
  }

  /** The children that the code looks at: no null pointers, no empty lists. */
  predicate IsVisited(f: Field) {
    f.Child? && match f.via
                case ViaNode => !f.child.Null?
                case ViaList => f.child.ListNode? && f.child.items != []
                case Direct => f.child.Struct?
  }

  /** A list that consists of a single null, whose field name is kept in spite of its emptiness. */
  predicate IsLoneNil(f: Field) {
    f.Child? && f.via.ViaList? && f.child.ListNode? && f.child.items == [Null]
  }

  // ----- sorting by hash -----

  datatype Item = Item(hash: nat, pos: nat)

  predicate ByHash(x: Item, y: Item) {
    x.hash < y.hash
  }

  /** The items sorted by hash; equal hashes keep their order. */
  function Sort(hashes: seq<nat>): seq<Item> {
    if hashes == [] then [] else InsertBy(ByHash, Item(hashes[|hashes| - 1], |hashes| - 1), Sort(hashes[..|hashes| - 1]))
  }

  /** The first item of every run of equal hashes. */
  function Firsts(xs: seq<Item>): seq<Item> {
    if xs == [] then []
    else
      var n := |xs| - 1;
      Firsts(xs[..n]) + if n > 0 && xs[n - 1].hash == xs[n].hash then [] else [xs[n]]
  }

  ghost predicate Positions(xs: seq<Item>, n: nat) {
    forall k :: 0 <= k < |xs| ==> xs[k].pos < n
  }

  ghost predicate Ascending(xs: seq<Item>) {
    forall j, k :: 0 <= j <= k < |xs| ==> xs[j].hash <= xs[k].hash
  }

  function Items(hashes: seq<nat>): (items: seq<Item>)
    ensures |items| == |hashes| && forall k :: 0 <= k < |items| ==> items[k] == Item(hashes[k], k)
  {
    if hashes == [] then [] else Items(hashes[..|hashes| - 1]) + [Item(hashes[|hashes| - 1], |hashes| - 1)]
  }

  lemma {:induction false} SortIsSortBy(hashes: seq<nat>)
    ensures Sort(hashes) == SortBy(ByHash, Items(hashes))
  {
    if hashes != [] {
      SortIsSortBy(hashes[..|hashes| - 1]);
      assert Items(hashes)[..|hashes| - 1] == Items(hashes[..|hashes| - 1]);
    }
  }

  /** Sorting keeps every item, in ascending order of the hashes. */
  lemma SortFacts(hashes: seq<nat>)
    ensures |Sort(hashes)| == |hashes| && Ascending(Sort(hashes))
    ensures forall y :: y in Sort(hashes) <==> y.pos < |hashes| && y.hash == hashes[y.pos]
  {
    hide *;
    SortIsSortBy(hashes);
    ByHashIsOrder();
    SortByFacts(ByHash, Items(hashes));
    SameMembers(Sort(hashes), Items(hashes));
    ItemsAre(hashes);
    OrderedAscends(Sort(hashes));
  }

  lemma OrderedAscends(xs: seq<Item>)
    requires OrderedBy(ByHash, xs)
    ensures Ascending(xs)
  {
    forall j, k | 0 <= j < k < |xs| ensures xs[j].hash <= xs[k].hash {
      assert !ByHash(xs[k], xs[j]);
    }
  }

  lemma ByHashIsOrder()
    ensures IsWeakOrder(ByHash)
  {
  }

  lemma SameMembers(xs: seq<Item>, ys: seq<Item>)
    requires multiset(xs) == multiset(ys)
    ensures forall y :: y in xs <==> y in ys
  {
    forall y ensures y in xs <==> y in ys {
      assert y in xs <==> y in multiset(xs);
    }
  }

  lemma ItemsAre(hashes: seq<nat>)
    ensures forall y: Item :: y in Items(hashes) <==> y.pos < |hashes| && y.hash == hashes[y.pos]
  {
    var items := Items(hashes);
    forall y: Item ensures y in items <==> y.pos < |hashes| && y.hash == hashes[y.pos] {
      if y.pos < |hashes| && y.hash == hashes[y.pos] {
        assert items[y.pos] == y;
      }
    }
  }

  lemma SortPositions(hashes: seq<nat>)
    ensures |Sort(hashes)| == |hashes| && Positions(Sort(hashes), |hashes|)
  {
    SortFacts(hashes);
    var s := Sort(hashes);
    forall k | 0 <= k < |s| ensures s[k].pos < |hashes| {
      assert s[k] in s;
    }
  }

  lemma {:induction false} FirstsPositions(xs: seq<Item>, n: nat)
    requires Positions(xs, n)
    ensures Positions(Firsts(xs), n) && |Firsts(xs)| <= |xs|
  {
    if xs != [] {
      FirstsPositions(xs[..|xs| - 1], n);
    }
  }

  // ----- what is written -----

  /** The digest of one list item, computed in a context of its own. */
  function ItemHash(h: string -> nat, t: Tree, place: Place, depth: nat): nat
    decreases t, 1
  {
    h(EmitNode(h, "", t, place, depth))
  }

  function ItemHashes(h: string -> nat, items: seq<Tree>, place: Place, depth: nat): (hashes: seq<nat>)
    ensures |hashes| == |items|
    decreases items, 2
  {
    if items == [] then []
    else ItemHashes(h, items[..|items| - 1], place, depth) + [ItemHash(h, items[|items| - 1], place, depth)]
  }

  /** The stream after the items at the positions of `run` have been visited one by one. */
  function EmitRun(h: string -> nat, s: string, items: seq<Tree>, run: seq<Item>, place: Place, depth: nat): string
    requires Positions(run, |items|)
    decreases items, 2, |run|
  {
    if run == [] then s
    else
      var n := |run| - 1;
      EmitNode(h, EmitRun(h, s, items, run[..n], place, depth), items[run[n].pos], place, depth)
  }

  /** The stream after the first `n` items of an unsorted list. */
  function EmitItems(h: string -> nat, s: string, items: seq<Tree>, n: nat, place: Place, depth: nat): string
    requires n <= |items|
    decreases items, 2, n
  {
    if n == 0 then s else EmitNode(h, EmitItems(h, s, items, n - 1, place, depth), items[n - 1], place, depth)
  }

  /** `_fingerprintNode`: the stream after a node has been visited. */
  function EmitNode(h: string -> nat, s: string, t: Tree, place: Place, depth: nat): string
    decreases t, 0
  {
    if depth >= DEPTH_LIMIT then s
    else match t
      case Null => s
      case Ignored => s
      case Scalar(text) => s + Joined(text)
      case Struct(tag, fields) => EmitFields(h, s + tag, tag, fields, |fields|, place, depth)
      case ListNode(_, items) =>
        if IsSorted(place) then
          SortPositions(ItemHashes(h, items, place, depth + 1));
          FirstsPositions(Sort(ItemHashes(h, items, place, depth + 1)), |items|);
          EmitRun(h, s, items, Firsts(Sort(ItemHashes(h, items, place, depth + 1))), place, depth + 1)
        else EmitItems(h, s, items, |items|, place, depth + 1)
  }

  /** The stream after the first `n` fields of a node. */
  function EmitFields(h: string -> nat, s: string, tag: string, fields: seq<Field>, n: nat, place: Place, depth: nat): string
    requires n <= |fields|
    decreases fields, 0, n
  {
    if n == 0 then s
    else EmitField(h, EmitFields(h, s, tag, fields, n - 1, place, depth), tag, fields[n - 1], place, depth)
  }

  /** A child whose visit leaves the digest unchanged takes its field name back. */
  function EmitField(h: string -> nat, s: string, tag: string, f: Field, place: Place, depth: nat): string
    decreases f
  {
    if f.Text? then (if place in f.hidden then s else s + Joined(f.text))
    else if !IsVisited(f) then s
    else
      var named := s + f.name;
      var after := if f.via.Direct? then EmitFields(h, named, f.child.tag, f.child.fields, |f.child.fields|, Place(tag, f.name), depth + 1)
                   else EmitNode(h, named, f.child, Place(tag, f.name), depth + 1);
      if h(named) == h(after) && !IsLoneNil(f) then s else after
  }

  /** `pg_query_fingerprint_node` */
  function Fingerprint(h: string -> nat, t: Tree): nat {
    h(EmitNode(h, "", t, NOWHERE, 0))
  }
}
