/**
 Fingerprinting as it runs: one stream per context and a cache of sorted item hashes shared by
 all of them. The cache changes nothing about the stream, and it bounds the number of visits.
 */
module FingerprintCache {
  import opened Common
  import opened FingerprintSpec

  // ----- where the lists are -----

  /** The items of a list, and the place and depth at which they are visited. */
  datatype Site = Site(items: seq<Tree>, place: Place, depth: nat)

  /** Every sorted list is reached under one place and depth, the one that `site` tells. */
  ghost predicate Placed(site: nat -> Site, t: Tree, place: Place, depth: nat)
    decreases t
  {
    depth < DEPTH_LIMIT ==>
      match t
      case Struct(tag, fields) => forall i :: 0 <= i < |fields| ==> FieldPlaced(site, tag, fields[i], depth)
      case ListNode(id, items) =>
        && (IsSorted(place) ==> site(id) == Site(items, place, depth + 1))
        && forall i :: 0 <= i < |items| ==> Placed(site, items[i], place, depth + 1)
      case _ => true
  }

  ghost predicate FieldPlaced(site: nat -> Site, tag: string, f: Field, depth: nat)
    decreases f
  {
    IsVisited(f) ==>
      if f.via.Direct?
      then forall i :: 0 <= i < |f.child.fields| ==> FieldPlaced(site, f.child.tag, f.child.fields[i], depth + 1)
      else Placed(site, f.child, Place(tag, f.name), depth + 1)
  }

  /** Every sorted list that a visit reaches is in the cache. */
  ghost predicate Covered(keys: set<nat>, t: Tree, place: Place, depth: nat)
    decreases t
  {
    depth < DEPTH_LIMIT ==>
      match t
      case Struct(tag, fields) => forall i :: 0 <= i < |fields| ==> FieldCovered(keys, tag, fields[i], depth)
      case ListNode(id, items) =>
        && (IsSorted(place) ==> id in keys)
        && forall i :: 0 <= i < |items| ==> Covered(keys, items[i], place, depth + 1)
      case _ => true
  }

  ghost predicate FieldCovered(keys: set<nat>, tag: string, f: Field, depth: nat)
    decreases f
  {
    IsVisited(f) ==>
      if f.via.Direct?
      then forall i :: 0 <= i < |f.child.fields| ==> FieldCovered(keys, f.child.tag, f.child.fields[i], depth + 1)
      else Covered(keys, f.child, Place(tag, f.name), depth + 1)
  }

  lemma {:induction false} CoveredMore(keys: set<nat>, more: set<nat>, t: Tree, place: Place, depth: nat)
    requires keys <= more && Covered(keys, t, place, depth)
    ensures Covered(more, t, place, depth)
    decreases t
  {
    if depth < DEPTH_LIMIT {
      match t
      case Struct(tag, fields) =>
        forall i | 0 <= i < |fields| ensures FieldCovered(more, tag, fields[i], depth) {
          FieldCoveredMore(keys, more, tag, fields[i], depth);
        }
      case ListNode(_, items) =>
        forall i | 0 <= i < |items| ensures Covered(more, items[i], place, depth + 1) {
          CoveredMore(keys, more, items[i], place, depth + 1);
        }
      case _ =>
    }
  }

  lemma {:induction false} FieldCoveredMore(keys: set<nat>, more: set<nat>, tag: string, f: Field, depth: nat)
    requires keys <= more && FieldCovered(keys, tag, f, depth)
    ensures FieldCovered(more, tag, f, depth)
    decreases f
  {
    if IsVisited(f) {
      if f.via.Direct? {
        forall i | 0 <= i < |f.child.fields| ensures FieldCovered(more, f.child.tag, f.child.fields[i], depth + 1) {
          FieldCoveredMore(keys, more, f.child.tag, f.child.fields[i], depth + 1);
        }
      } else {
        CoveredMore(keys, more, f.child, Place(tag, f.name), depth + 1);
      }
    }
  }

  /** All items of a list are covered. */
  ghost predicate ItemsCovered(keys: set<nat>, s: Site) {
    forall k :: 0 <= k < |s.items| ==> Covered(keys, s.items[k], s.place, s.depth)
  }

  /** A cached entry holds what recomputing would give, and so do the entries below it. */
  ghost predicate EntryOk(h: string -> nat, s: Site, entry: seq<Item>, keys: set<nat>) {
    entry == Sort(ItemHashes(h, s.items, s.place, s.depth)) && ItemsCovered(keys, s)
  }

  ghost predicate CacheOk(h: string -> nat, site: nat -> Site, entries: map<nat, seq<Item>>) {
    forall id :: id in entries ==> EntryOk(h, site(id), entries[id], entries.Keys)
  }

  // ----- how many visits there can be -----

  function Size(t: Tree): (n: nat)
    ensures n >= 1
  {
    match t
    case Struct(_, fields) => 1 + SizeFields(fields)
    case ListNode(_, items) => 1 + SizeItems(items)
    case _ => 1
  }

  function SizeItems(items: seq<Tree>): nat {
    if items == [] then 0 else SizeItems(items[..|items| - 1]) + Size(items[|items| - 1])
  }

  function SizeFields(fields: seq<Field>): nat {
    if fields == [] then 0
    else SizeFields(fields[..|fields| - 1]) + if fields[|fields| - 1].Child? then Size(fields[|fields| - 1].child) else 0
  }

  /** An upper bound of the visits while nothing is cached: list items are visited twice. */
  function Cold(t: Tree, place: Place, depth: nat): (n: nat)
    ensures n >= 1
    decreases t, 0
  {
    if depth >= DEPTH_LIMIT then 1
    else match t
      case Struct(tag, fields) => 1 + ColdFields(tag, fields, depth)
      case ListNode(_, items) => 1 + ColdItems(items, place, depth + 1) + if IsSorted(place) then SizeItems(items) else 0
      case _ => 1
  }

  function ColdItems(items: seq<Tree>, place: Place, depth: nat): nat
    decreases items, 1
  {
    if items == [] then 0
    else ColdItems(items[..|items| - 1], place, depth) + Cold(items[|items| - 1], place, depth)
  }

  function ColdFields(tag: string, fields: seq<Field>, depth: nat): nat
    decreases fields, 1
  {
    if fields == [] then 0
    else ColdFields(tag, fields[..|fields| - 1], depth) + ColdField(tag, fields[|fields| - 1], depth)
  }

  function ColdField(tag: string, f: Field, depth: nat): nat
    decreases f, 1
  {
    if !IsVisited(f) then 0
    else if f.via.Direct? then ColdFields(f.child.tag, f.child.fields, depth + 1)
    else Cold(f.child, Place(tag, f.name), depth + 1)
  }

  /** How deep sorted lists are nested in what is visited. */
  function Nesting(t: Tree, place: Place, depth: nat): nat
    decreases t, 0
  {
    if depth >= DEPTH_LIMIT then 0
    else match t
      case Struct(tag, fields) => NestingFields(tag, fields, depth)
      case ListNode(_, items) => NestingItems(items, place, depth + 1) + if IsSorted(place) then 1 else 0
      case _ => 0
  }

  function NestingItems(items: seq<Tree>, place: Place, depth: nat): nat
    decreases items, 1
  {
    if items == [] then 0
    else Max(NestingItems(items[..|items| - 1], place, depth), Nesting(items[|items| - 1], place, depth))
  }

  function NestingFields(tag: string, fields: seq<Field>, depth: nat): nat
    decreases fields, 1
  {
    if fields == [] then 0
    else Max(NestingFields(tag, fields[..|fields| - 1], depth), NestingField(tag, fields[|fields| - 1], depth))
  }

  function NestingField(tag: string, f: Field, depth: nat): nat
    decreases f, 1
  {
    if !IsVisited(f) then 0
    else if f.via.Direct? then NestingFields(f.child.tag, f.child.fields, depth + 1)
    else Nesting(f.child, Place(tag, f.name), depth + 1)
  }

  lemma Times(a: nat, b: nat, c: nat)
    requires b <= c
    ensures a * (1 + b) <= a * (1 + c)
  {
  }

  lemma Add(a: nat, b: nat, c: nat)
    ensures a * (1 + c) + b * (1 + c) == (a + b) * (1 + c)
  {
  }

  lemma OneMore(a: nat, c: nat)
    ensures 1 + a * (1 + c) <= (1 + a) * (1 + c) && 1 + a * (1 + c) + a <= (1 + a) * (1 + (c + 1))
  {
  }

  /** The bound: size times one more than the nesting depth of sorted lists. */
  lemma {:induction false} ColdBound(t: Tree, place: Place, depth: nat)
    ensures Cold(t, place, depth) <= Size(t) * (1 + Nesting(t, place, depth))
    decreases t, 0
  {
    if depth >= DEPTH_LIMIT {
      assert Nesting(t, place, depth) == 0;
    } else {
      match t
      case Struct(tag, fields) =>
        ColdFieldsBound(tag, fields, depth);
        OneMore(SizeFields(fields), NestingFields(tag, fields, depth));
      case ListNode(_, items) =>
        ColdItemsBound(items, place, depth + 1);
        OneMore(SizeItems(items), NestingItems(items, place, depth + 1));
      case _ =>
    }
  }

  lemma {:induction false} ColdItemsBound(items: seq<Tree>, place: Place, depth: nat)
    ensures ColdItems(items, place, depth) <= SizeItems(items) * (1 + NestingItems(items, place, depth))
    decreases items, 1
  {
    if items != [] {
      var n := |items| - 1;
      var front, last := items[..n], items[n];
      var a, b, c := NestingItems(front, place, depth), Nesting(last, place, depth), NestingItems(items, place, depth);
      ColdItemsBound(front, place, depth);
      ColdBound(last, place, depth);
      Times(SizeItems(front), a, c);
      Times(Size(last), b, c);
      Add(SizeItems(front), Size(last), c);
    }
  }

  lemma {:induction false} ColdFieldsBound(tag: string, fields: seq<Field>, depth: nat)
    ensures ColdFields(tag, fields, depth) <= SizeFields(fields) * (1 + NestingFields(tag, fields, depth))
    decreases fields, 1
  {
    if fields != [] {
      var n := |fields| - 1;
      var front, last := fields[..n], fields[n];
      var a, b, c := NestingFields(tag, front, depth), NestingField(tag, last, depth), NestingFields(tag, fields, depth);
      var size := if last.Child? then Size(last.child) else 0;
      ColdFieldsBound(tag, front, depth);
      ColdFieldBound(tag, last, depth);
      Times(SizeFields(front), a, c);
      Times(size, b, c);
      Add(SizeFields(front), size, c);
    }
  }

  lemma {:induction false} ColdFieldBound(tag: string, f: Field, depth: nat)
    ensures ColdField(tag, f, depth) <= (if f.Child? then Size(f.child) else 0) * (1 + NestingField(tag, f, depth))
    decreases f, 1
  {
    if IsVisited(f) {
      if f.via.Direct? {
        ColdFieldsBound(f.child.tag, f.child.fields, depth + 1);
        OneMore(SizeFields(f.child.fields), NestingField(tag, f, depth));
      } else {
        ColdBound(f.child, Place(tag, f.name), depth + 1);
      }
    }
  }

  /** Sorted lists are nested at most as deep as the cutoff allows. */
  lemma {:induction false} NestingBound(t: Tree, place: Place, depth: nat)
    ensures Nesting(t, place, depth) <= if depth < DEPTH_LIMIT then DEPTH_LIMIT - depth else 0
    decreases t, 0
  {
    if depth < DEPTH_LIMIT {
      match t
      case Struct(tag, fields) => NestingFieldsBound(tag, fields, depth);
      case ListNode(_, items) => NestingItemsBound(items, place, depth + 1);
      case _ =>
    }
  }

  lemma {:induction false} NestingItemsBound(items: seq<Tree>, place: Place, depth: nat)
    ensures NestingItems(items, place, depth) <= if depth < DEPTH_LIMIT then DEPTH_LIMIT - depth else 0
    decreases items, 1
  {
    if items != [] {
      NestingItemsBound(items[..|items| - 1], place, depth);
      NestingBound(items[|items| - 1], place, depth);
    }
  }

  lemma {:induction false} NestingFieldsBound(tag: string, fields: seq<Field>, depth: nat)
    ensures NestingFields(tag, fields, depth) <= if depth < DEPTH_LIMIT then DEPTH_LIMIT - depth else 0
    decreases fields, 1
  {
    if fields != [] {
      NestingFieldsBound(tag, fields[..|fields| - 1], depth);
      var last := fields[|fields| - 1];
      if IsVisited(last) {
        if last.via.Direct? {
          NestingFieldsBound(last.child.tag, last.child.fields, depth + 1);
        } else {
          NestingBound(last.child, Place(tag, last.name), depth + 1);
        }
      }
    }
  }

  /** The visits that a run over cached items takes. */
  function SumRun(items: seq<Tree>, run: seq<Item>): nat
    requires Positions(run, |items|)
  {
    if run == [] then 0 else SumRun(items, run[..|run| - 1]) + Size(items[run[|run| - 1].pos])
  }

  lemma {:induction false} SumFront(items: seq<Tree>, run: seq<Item>)
    requires Positions(run, |items|) && run != []
    ensures SumRun(items, run) == Size(items[run[0].pos]) + SumRun(items, run[1..])
  {
    var n := |run| - 1;
    if n > 0 {
      SumFront(items, run[..n]);
      assert run[..n][1..] == run[1..][..n - 1];
      hide Size;
    } else {
      assert run[..0] == [] && run[1..] == [];
    }
  }

  lemma {:induction false} SumInsert(items: seq<Tree>, x: Item, xs: seq<Item>)
    requires Positions(xs, |items|) && x.pos < |items|
    ensures Positions(InsertBy(ByHash, x, xs), |items|) && SumRun(items, InsertBy(ByHash, x, xs)) == Size(items[x.pos]) + SumRun(items, xs)
  {
    hide Size;
    var r := InsertBy(ByHash, x, xs);
    if xs == [] || x.hash < xs[0].hash {
      SumFront(items, r);
      assert r[1..] == xs;
    } else {
      SumInsert(items, x, xs[1..]);
      SumFront(items, r);
      SumFront(items, xs);
      assert r[1..] == InsertBy(ByHash, x, xs[1..]);
    }
  }

  /** Visiting every item once in sorted order costs the size of the list. */
  lemma {:induction false} SumSort(items: seq<Tree>, hashes: seq<nat>)
    requires |hashes| <= |items|
    ensures Positions(Sort(hashes), |items|) && SumRun(items, Sort(hashes)) == SizeItems(items[..|hashes|])
  {
    SortPositions(hashes);
    if hashes != [] {
      var n := |hashes| - 1;
      SumSort(items, hashes[..n]);
      SumInsert(items, Item(hashes[n], n), Sort(hashes[..n]));
      assert items[..n + 1][..n] == items[..n];
      hide Size, InsertBy;
    }
  }

  lemma {:induction false} SumPrefix(items: seq<Tree>, run: seq<Item>, n: nat)
    requires Positions(run, |items|) && n <= |run|
    ensures SumRun(items, run[..n]) <= SumRun(items, run)
  {
    if n < |run| {
      SumPrefix(items, run[..|run| - 1], n);
      assert run[..|run| - 1][..n] == run[..n];
    } else {
      assert run[..n] == run;
    }
  }

  // ----- the run -----

  class Cache {
    var entries: map<nat, seq<Item>>
    ghost var visits: nat

    constructor ()
      ensures entries == map[] && visits == 0
    {
      entries, visits := map[], 0;
    }
  }

  /** A hash state; contexts for list items are fresh but share the cache. */
  class Context {
    const cache: Cache
    var stream: string

    constructor (cache: Cache)
      ensures this.cache == cache && stream == ""
    {
      this.cache, stream := cache, "";
    }
  }

  /** The cache agrees with recomputing and has only grown. */
  ghost predicate Grown(h: string -> nat, site: nat -> Site, was: map<nat, seq<Item>>, entries: map<nat, seq<Item>>) {
    CacheOk(h, site, entries) && was.Keys <= entries.Keys
  }

  /** `_fingerprintNode` */
  method FingerprintNode(h: string -> nat, ghost site: nat -> Site, ctx: Context, t: Tree, place: Place, depth: nat,
                         ghost s: string, ghost was: map<nat, seq<Item>>, ghost v: nat)
    requires Placed(site, t, place, depth) && CacheOk(h, site, ctx.cache.entries)
    requires ctx.stream == s && ctx.cache.entries == was && ctx.cache.visits == v
    modifies ctx`stream, ctx.cache
    ensures ctx.stream == EmitNode(h, s, t, place, depth)
    ensures Grown(h, site, was, ctx.cache.entries) && Covered(ctx.cache.entries.Keys, t, place, depth)
    ensures ctx.cache.visits <= v + Cold(t, place, depth)
    ensures Covered(was.Keys, t, place, depth) ==> ctx.cache.entries == was && ctx.cache.visits <= v + Size(t)
    decreases t, 5
  {
    hide CacheOk, EmitFields, EmitRun, EmitItems, Sort, Firsts, ColdFields, ColdItems, SizeItems, SizeFields, Joined;
    ctx.cache.visits := ctx.cache.visits + 1;
    if depth >= DEPTH_LIMIT {
      return;
    }
    match t {
      case Scalar(text) => ctx.stream := ctx.stream + Joined(text);
      case Struct(tag, fields) =>
        assert AllPlaced(site, tag, fields, depth);
        ctx.stream := ctx.stream + tag;
        FingerprintFields(h, site, ctx, tag, fields, place, depth, s + tag, was, v + 1);
      case ListNode(id, items) =>
        FingerprintList(h, site, ctx, t, place, depth, s, was, v + 1);
      case _ =>
    }
  }

  /** What holds after the first `i` fields. */
  ghost predicate FieldsSoFar(h: string -> nat, site: nat -> Site, tag: string, fields: seq<Field>, place: Place, depth: nat,
                              s: string, was: map<nat, seq<Item>>, v: nat, i: nat,
                              stream: string, entries: map<nat, seq<Item>>, visits: nat)
  {
    && i <= |fields| && stream == EmitFields(h, s, tag, fields, i, place, depth)
    && Grown(h, site, was, entries)
    && (forall j :: 0 <= j < i ==> FieldCovered(entries.Keys, tag, fields[j], depth))
    && visits <= v + ColdFields(tag, fields[..i], depth)
    && (AllCovered(was.Keys, tag, fields, depth) ==> entries == was && visits <= v + SizeFields(fields[..i]))
  }

  ghost predicate AllCovered(keys: set<nat>, tag: string, fields: seq<Field>, depth: nat) {
    forall i :: 0 <= i < |fields| ==> FieldCovered(keys, tag, fields[i], depth)
  }

  ghost predicate AllPlaced(site: nat -> Site, tag: string, fields: seq<Field>, depth: nat) {
    forall i :: 0 <= i < |fields| ==> FieldPlaced(site, tag, fields[i], depth)
  }

  lemma FieldsStart(h: string -> nat, site: nat -> Site, tag: string, fields: seq<Field>, place: Place, depth: nat,
                    s: string, was: map<nat, seq<Item>>, v: nat)
    requires CacheOk(h, site, was)
    ensures FieldsSoFar(h, site, tag, fields, place, depth, s, was, v, 0, s, was, v)
  {
    hide CacheOk;
  }

  lemma FieldsNext(h: string -> nat, site: nat -> Site, tag: string, fields: seq<Field>, place: Place, depth: nat,
                   s: string, was: map<nat, seq<Item>>, v: nat, i: nat,
                   stream: string, entries: map<nat, seq<Item>>, visits: nat,
                   stream': string, entries': map<nat, seq<Item>>, visits': nat)
    requires FieldsSoFar(h, site, tag, fields, place, depth, s, was, v, i, stream, entries, visits) && i < |fields|
    requires stream' == EmitField(h, stream, tag, fields[i], place, depth)
    requires Grown(h, site, entries, entries') && FieldCovered(entries'.Keys, tag, fields[i], depth)
    requires visits' <= visits + ColdField(tag, fields[i], depth)
    requires FieldCovered(entries.Keys, tag, fields[i], depth) ==>
               entries' == entries && visits' <= visits + if fields[i].Child? then Size(fields[i].child) else 0
    ensures FieldsSoFar(h, site, tag, fields, place, depth, s, was, v, i + 1, stream', entries', visits')
  {
    hide CacheOk, EmitField, FieldCovered, ColdField, Size;
    forall j | 0 <= j < i ensures FieldCovered(entries'.Keys, tag, fields[j], depth) {
      FieldCoveredMore(entries.Keys, entries'.Keys, tag, fields[j], depth);
    }
    assert fields[..i + 1][..i] == fields[..i] && fields[..i + 1][i] == fields[i];
  }

  lemma FieldsEnd(h: string -> nat, site: nat -> Site, tag: string, fields: seq<Field>, place: Place, depth: nat,
                  s: string, was: map<nat, seq<Item>>, v: nat,
                  stream: string, entries: map<nat, seq<Item>>, visits: nat)
    requires FieldsSoFar(h, site, tag, fields, place, depth, s, was, v, |fields|, stream, entries, visits)
    ensures stream == EmitFields(h, s, tag, fields, |fields|, place, depth)
    ensures Grown(h, site, was, entries) && AllCovered(entries.Keys, tag, fields, depth)
    ensures visits <= v + ColdFields(tag, fields, depth)
    ensures AllCovered(was.Keys, tag, fields, depth) ==> entries == was && visits <= v + SizeFields(fields)
  {
    hide CacheOk, FieldCovered, ColdFields, SizeFields, EmitFields;
    assert fields[..|fields|] == fields;
  }

  lemma PlacedAt(site: nat -> Site, tag: string, fields: seq<Field>, depth: nat, i: nat)
    requires AllPlaced(site, tag, fields, depth) && i < |fields|
    ensures FieldPlaced(site, tag, fields[i], depth)
  {
  }

  lemma GrownOk(h: string -> nat, site: nat -> Site, was: map<nat, seq<Item>>, entries: map<nat, seq<Item>>)
    requires Grown(h, site, was, entries)
    ensures CacheOk(h, site, entries) && was.Keys <= entries.Keys
  {
  }

  /** The generated function of a node type: its fields in order. */
  method FingerprintFields(h: string -> nat, ghost site: nat -> Site, ctx: Context, tag: string, fields: seq<Field>,
                           place: Place, depth: nat, ghost s: string, ghost was: map<nat, seq<Item>>, ghost v: nat)
    requires AllPlaced(site, tag, fields, depth) && CacheOk(h, site, ctx.cache.entries)
    requires ctx.stream == s && ctx.cache.entries == was && ctx.cache.visits == v
    modifies ctx`stream, ctx.cache
    ensures ctx.stream == EmitFields(h, s, tag, fields, |fields|, place, depth)
    ensures Grown(h, site, was, ctx.cache.entries) && AllCovered(ctx.cache.entries.Keys, tag, fields, depth)
    ensures ctx.cache.visits <= v + ColdFields(tag, fields, depth)
    ensures AllCovered(was.Keys, tag, fields, depth) ==> ctx.cache.entries == was && ctx.cache.visits <= v + SizeFields(fields)
    decreases fields, 3
  {
    hide *;
    FieldsStart(h, site, tag, fields, place, depth, s, was, v);
    var i := 0;
    while i < |fields|
      invariant 0 <= i <= |fields|
      invariant FieldsSoFar(h, site, tag, fields, place, depth, s, was, v, i, ctx.stream, ctx.cache.entries, ctx.cache.visits)
    {
      ghost var stream, entries, visits := ctx.stream, ctx.cache.entries, ctx.cache.visits;
      PlacedAt(site, tag, fields, depth, i);
      SoFarOk(h, site, tag, fields, place, depth, s, was, v, i, stream, entries, visits);
      FingerprintField(h, site, ctx, tag, fields[i], place, depth, stream, entries, visits);
      FieldsNext(h, site, tag, fields, place, depth, s, was, v, i, stream, entries, visits,
                 ctx.stream, ctx.cache.entries, ctx.cache.visits);
      i := i + 1;
    }
    FieldsEnd(h, site, tag, fields, place, depth, s, was, v, ctx.stream, ctx.cache.entries, ctx.cache.visits);
  }

  lemma SoFarOk(h: string -> nat, site: nat -> Site, tag: string, fields: seq<Field>, place: Place, depth: nat,
                s: string, was: map<nat, seq<Item>>, v: nat, i: nat,
                stream: string, entries: map<nat, seq<Item>>, visits: nat)
    requires FieldsSoFar(h, site, tag, fields, place, depth, s, was, v, i, stream, entries, visits)
    ensures CacheOk(h, site, entries)
  {
  }

  /** One field; a child that leaves the digest unchanged takes its name back. */
  method FingerprintField(h: string -> nat, ghost site: nat -> Site, ctx: Context, tag: string, f: Field,
                          place: Place, depth: nat, ghost s: string, ghost was: map<nat, seq<Item>>, ghost v: nat)
    requires FieldPlaced(site, tag, f, depth) && CacheOk(h, site, ctx.cache.entries)
    requires ctx.stream == s && ctx.cache.entries == was && ctx.cache.visits == v
    modifies ctx`stream, ctx.cache
    ensures ctx.stream == EmitField(h, s, tag, f, place, depth)
    ensures Grown(h, site, was, ctx.cache.entries) && FieldCovered(ctx.cache.entries.Keys, tag, f, depth)
    ensures ctx.cache.visits <= v + ColdField(tag, f, depth)
    ensures FieldCovered(was.Keys, tag, f, depth) ==>
              ctx.cache.entries == was && ctx.cache.visits <= v + if f.Child? then Size(f.child) else 0
    decreases f, 6
  {
    hide CacheOk, EmitNode, EmitFields, Covered, Placed, Cold, ColdFields, SizeFields, Joined;
    if f.Text? {
      if place !in f.hidden {
        ctx.stream := ctx.stream + Joined(f.text);
      }
      return;
    }
    if !IsVisited(f) {
      return;
    }
    var prev := ctx.stream;
    ctx.stream := ctx.stream + f.name;
    var hash := h(ctx.stream);
    if f.via.Direct? {
      FingerprintFields(h, site, ctx, f.child.tag, f.child.fields, Place(tag, f.name), depth + 1, s + f.name, was, v);
    } else {
      FingerprintNode(h, site, ctx, f.child, Place(tag, f.name), depth + 1, s + f.name, was, v);
    }
    if hash == h(ctx.stream) && !IsLoneNil(f) {
      ctx.stream := prev;
    }
  }

  ghost predicate ItemsPlaced(site: nat -> Site, items: seq<Tree>, place: Place, depth: nat) {
    forall i :: 0 <= i < |items| ==> Placed(site, items[i], place, depth)
  }

  /** What holds after the first `i` items have been hashed. */
  ghost predicate HashesSoFar(h: string -> nat, site: nat -> Site, items: seq<Tree>, place: Place, depth: nat,
                              was: map<nat, seq<Item>>, v: nat, i: nat,
                              hashes: seq<nat>, entries: map<nat, seq<Item>>, visits: nat)
  {
    && i <= |items| && hashes == ItemHashes(h, items[..i], place, depth) && Grown(h, site, was, entries)
    && ItemsCovered(entries.Keys, Site(items[..i], place, depth))
    && visits <= v + ColdItems(items[..i], place, depth)
  }

  lemma ItemsNext(keys: set<nat>, more: set<nat>, items: seq<Tree>, place: Place, depth: nat, i: nat)
    requires i < |items| && keys <= more && ItemsCovered(keys, Site(items[..i], place, depth))
    requires Covered(more, items[i], place, depth)
    ensures ItemsCovered(more, Site(items[..i + 1], place, depth))
  {
    hide Covered;
    forall k | 0 <= k < i ensures Covered(more, items[k], place, depth) {
      assert items[..i][k] == items[k];
      CoveredMore(keys, more, items[k], place, depth);
    }
  }

  lemma HashesStart(h: string -> nat, site: nat -> Site, items: seq<Tree>, place: Place, depth: nat,
                    was: map<nat, seq<Item>>, v: nat)
    requires CacheOk(h, site, was)
    ensures HashesSoFar(h, site, items, place, depth, was, v, 0, [], was, v)
  {
    hide CacheOk;
    assert items[..0] == [];
  }

  lemma HashesNext(h: string -> nat, site: nat -> Site, items: seq<Tree>, place: Place, depth: nat,
                   was: map<nat, seq<Item>>, v: nat, i: nat,
                   hashes: seq<nat>, entries: map<nat, seq<Item>>, visits: nat, entries': map<nat, seq<Item>>, visits': nat)
    requires HashesSoFar(h, site, items, place, depth, was, v, i, hashes, entries, visits) && i < |items|
    requires Grown(h, site, entries, entries') && Covered(entries'.Keys, items[i], place, depth)
    requires visits' <= visits + Cold(items[i], place, depth)
    ensures HashesSoFar(h, site, items, place, depth, was, v, i + 1, hashes + [ItemHash(h, items[i], place, depth)],
                        entries', visits')
  {
    ItemsNext(entries.Keys, entries'.Keys, items, place, depth, i);
    hide CacheOk, Covered, Cold, ItemHash, ItemsCovered;
    assert items[..i + 1][..i] == items[..i] && items[..i + 1][i] == items[i];
  }

  lemma HashesEnd(h: string -> nat, site: nat -> Site, items: seq<Tree>, place: Place, depth: nat,
                  was: map<nat, seq<Item>>, v: nat, hashes: seq<nat>, entries: map<nat, seq<Item>>, visits: nat)
    requires HashesSoFar(h, site, items, place, depth, was, v, |items|, hashes, entries, visits)
    ensures hashes == ItemHashes(h, items, place, depth) && Grown(h, site, was, entries)
    ensures ItemsCovered(entries.Keys, Site(items, place, depth)) && visits <= v + ColdItems(items, place, depth)
  {
    hide CacheOk, ItemsCovered, ColdItems;
    assert items[..|items|] == items;
  }

  lemma HashesOk(h: string -> nat, site: nat -> Site, items: seq<Tree>, place: Place, depth: nat,
                 was: map<nat, seq<Item>>, v: nat, i: nat, hashes: seq<nat>, entries: map<nat, seq<Item>>, visits: nat)
    requires HashesSoFar(h, site, items, place, depth, was, v, i, hashes, entries, visits)
    ensures CacheOk(h, site, entries)
  {
  }

  lemma ItemPlacedAt(site: nat -> Site, items: seq<Tree>, place: Place, depth: nat, i: nat)
    requires ItemsPlaced(site, items, place, depth) && i < |items|
    ensures Placed(site, items[i], place, depth)
  {
  }

  /** The digest of every item, each in a fresh context on the same cache. */
  method HashItems(h: string -> nat, ghost site: nat -> Site, cache: Cache, items: seq<Tree>, place: Place, depth: nat,
                   ghost was: map<nat, seq<Item>>, ghost v: nat)
    returns (hashes: seq<nat>)
    requires ItemsPlaced(site, items, place, depth) && CacheOk(h, site, was) && cache.entries == was && cache.visits == v
    modifies cache
    ensures hashes == ItemHashes(h, items, place, depth) && Grown(h, site, was, cache.entries)
    ensures ItemsCovered(cache.entries.Keys, Site(items, place, depth))
    ensures cache.visits <= v + ColdItems(items, place, depth)
    decreases items, 6
  {
    hide *;
    HashesStart(h, site, items, place, depth, was, v);
    hashes := [];
    var i := 0;
    while i < |items|
      invariant 0 <= i <= |items|
      invariant HashesSoFar(h, site, items, place, depth, was, v, i, hashes, cache.entries, cache.visits)
    {
      ghost var entries, visits := cache.entries, cache.visits;
      ItemPlacedAt(site, items, place, depth, i);
      HashesOk(h, site, items, place, depth, was, v, i, hashes, entries, visits);
      var ctx := new Context(cache);
      FingerprintNode(h, site, ctx, items[i], place, depth, "", entries, visits);
      ItemHashIs(h, items[i], place, depth);
      HashesNext(h, site, items, place, depth, was, v, i, hashes, entries, visits, cache.entries, cache.visits);
      hashes := hashes + [h(ctx.stream)];
      i := i + 1;
    }
    HashesEnd(h, site, items, place, depth, was, v, hashes, cache.entries, cache.visits);
  }

  lemma ItemHashIs(h: string -> nat, t: Tree, place: Place, depth: nat)
    ensures ItemHash(h, t, place, depth) == h(EmitNode(h, "", t, place, depth))
  {
  }

  /** What holds after the first `i` sorted items, all of them cached. */
  ghost predicate RunSoFar(h: string -> nat, items: seq<Tree>, sorted: seq<Item>, place: Place, depth: nat,
                           s: string, v: nat, i: nat, stream: string, visits: nat)
  {
    && i <= |sorted| && Positions(sorted, |items|)
    && Positions(sorted[..i], |items|) && Positions(Firsts(sorted[..i]), |items|)
    && stream == EmitRun(h, s, items, Firsts(sorted[..i]), place, depth)
    && visits <= v + SumRun(items, sorted[..i])
  }

  lemma RunStart(h: string -> nat, items: seq<Tree>, sorted: seq<Item>, place: Place, depth: nat, s: string, v: nat)
    requires Positions(sorted, |items|)
    ensures RunSoFar(h, items, sorted, place, depth, s, v, 0, s, v)
  {
    assert sorted[..0] == [];
  }

  /** A duplicate is skipped. */
  lemma RunSkips(h: string -> nat, items: seq<Tree>, sorted: seq<Item>, place: Place, depth: nat,
                 s: string, v: nat, i: nat, stream: string, visits: nat)
    requires RunSoFar(h, items, sorted, place, depth, s, v, i, stream, visits)
    requires 0 < i < |sorted| && sorted[i - 1].hash == sorted[i].hash
    ensures RunSoFar(h, items, sorted, place, depth, s, v, i + 1, stream, visits)
  {
    hide EmitRun, Size;
    var more := sorted[..i + 1];
    assert more[..i] == sorted[..i] && more[i] == sorted[i] && more[i - 1] == sorted[i - 1];
    assert Firsts(more) == Firsts(sorted[..i]) + [] == Firsts(sorted[..i]);
  }

  lemma RunVisits(h: string -> nat, items: seq<Tree>, sorted: seq<Item>, place: Place, depth: nat,
                  s: string, v: nat, i: nat, stream: string, visits: nat, visits': nat)
    requires RunSoFar(h, items, sorted, place, depth, s, v, i, stream, visits)
    requires i < |sorted| && (i > 0 ==> sorted[i - 1].hash != sorted[i].hash)
    requires visits' <= visits + Size(items[sorted[i].pos])
    ensures RunSoFar(h, items, sorted, place, depth, s, v, i + 1, EmitNode(h, stream, items[sorted[i].pos], place, depth), visits')
  {
    hide EmitNode, Size, Firsts, EmitRun, SumRun;
    FirstsNext(sorted, i);
    EmitRunNext(h, s, items, Firsts(sorted[..i]), sorted[i], place, depth);
    SumRunNext(items, sorted, i);
  }

  lemma FirstsNext(sorted: seq<Item>, i: nat)
    requires i < |sorted| && (i > 0 ==> sorted[i - 1].hash != sorted[i].hash)
    ensures Firsts(sorted[..i + 1]) == Firsts(sorted[..i]) + [sorted[i]]
  {
    var more := sorted[..i + 1];
    assert more[..i] == sorted[..i] && more[i] == sorted[i] && (i > 0 ==> more[i - 1] == sorted[i - 1]);
  }

  lemma EmitRunNext(h: string -> nat, s: string, items: seq<Tree>, run: seq<Item>, x: Item, place: Place, depth: nat)
    requires Positions(run, |items|) && x.pos < |items|
    ensures Positions(run + [x], |items|)
    ensures EmitRun(h, s, items, run + [x], place, depth) == EmitNode(h, EmitRun(h, s, items, run, place, depth), items[x.pos], place, depth)
  {
    hide EmitNode;
    assert (run + [x])[..|run|] == run;
  }

  lemma SumRunNext(items: seq<Tree>, run: seq<Item>, i: nat)
    requires Positions(run, |items|) && i < |run|
    ensures Positions(run[..i], |items|) && Positions(run[..i + 1], |items|)
    ensures SumRun(items, run[..i + 1]) == SumRun(items, run[..i]) + Size(items[run[i].pos])
  {
    hide Size;
    assert run[..i + 1][..i] == run[..i];
  }

  lemma RunEnd(h: string -> nat, items: seq<Tree>, hashes: seq<nat>, place: Place, depth: nat,
               s: string, v: nat, stream: string, visits: nat)
    requires |hashes| == |items|
    requires RunSoFar(h, items, Sort(hashes), place, depth, s, v, |Sort(hashes)|, stream, visits)
    ensures Positions(Firsts(Sort(hashes)), |items|) && visits <= v + SizeItems(items)
    ensures stream == EmitRun(h, s, items, Firsts(Sort(hashes)), place, depth)
  {
    hide EmitRun;
    var sorted := Sort(hashes);
    SumSort(items, hashes);
    assert sorted[..|sorted|] == sorted && items[..|items|] == items;
  }

  /** The visits of the sorted items, duplicates left out; everything below is cached. */
  method VisitRun(h: string -> nat, ghost site: nat -> Site, ctx: Context, items: seq<Tree>, ghost hashes: seq<nat>,
                  sorted: seq<Item>, place: Place, depth: nat, ghost s: string, ghost was: map<nat, seq<Item>>, ghost v: nat)
    requires |hashes| == |items| && sorted == Sort(hashes)
    requires ItemsPlaced(site, items, place, depth) && CacheOk(h, site, was) && ItemsCovered(was.Keys, Site(items, place, depth))
    requires ctx.stream == s && ctx.cache.entries == was && ctx.cache.visits == v
    modifies ctx`stream, ctx.cache
    ensures Positions(Firsts(sorted), |items|) && ctx.stream == EmitRun(h, s, items, Firsts(sorted), place, depth)
    ensures ctx.cache.entries == was && ctx.cache.visits <= v + SizeItems(items)
    decreases items, 6
  {
    hide *;
    SortPositions(hashes);
    RunStart(h, items, sorted, place, depth, s, v);
    var i := 0;
    while i < |sorted|
      invariant 0 <= i <= |sorted| && ctx.cache.entries == was
      invariant RunSoFar(h, items, sorted, place, depth, s, v, i, ctx.stream, ctx.cache.visits)
    {
      ghost var stream, visits := ctx.stream, ctx.cache.visits;
      if i > 0 && sorted[i - 1].hash == sorted[i].hash {
        RunSkips(h, items, sorted, place, depth, s, v, i, stream, visits);
      } else {
        RunPosition(h, items, sorted, place, depth, s, v, i, stream, visits);
        ItemPlacedAt(site, items, place, depth, sorted[i].pos);
        ItemCoveredAt(was.Keys, items, place, depth, sorted[i].pos);
        FingerprintNode(h, site, ctx, items[sorted[i].pos], place, depth, stream, was, visits);
        RunVisits(h, items, sorted, place, depth, s, v, i, stream, visits, ctx.cache.visits);
      }
      i := i + 1;
    }
    RunEnd(h, items, hashes, place, depth, s, v, ctx.stream, ctx.cache.visits);
  }

  lemma RunPosition(h: string -> nat, items: seq<Tree>, sorted: seq<Item>, place: Place, depth: nat,
                    s: string, v: nat, i: nat, stream: string, visits: nat)
    requires RunSoFar(h, items, sorted, place, depth, s, v, i, stream, visits) && i < |sorted|
    ensures sorted[i].pos < |items|
  {
  }

  lemma ItemCoveredAt(keys: set<nat>, items: seq<Tree>, place: Place, depth: nat, i: nat)
    requires ItemsCovered(keys, Site(items, place, depth)) && i < |items|
    ensures Covered(keys, items[i], place, depth)
  {
    assert Site(items, place, depth).items[i] == items[i];
  }

  /** What holds after the first `i` items of an unsorted list. */
  ghost predicate ItemsSoFar(h: string -> nat, site: nat -> Site, items: seq<Tree>, place: Place, depth: nat,
                             s: string, was: map<nat, seq<Item>>, v: nat, i: nat,
                             stream: string, entries: map<nat, seq<Item>>, visits: nat)
  {
    && i <= |items| && stream == EmitItems(h, s, items, i, place, depth) && Grown(h, site, was, entries)
    && ItemsCovered(entries.Keys, Site(items[..i], place, depth))
    && visits <= v + ColdItems(items[..i], place, depth)
    && (ItemsCovered(was.Keys, Site(items, place, depth)) ==> entries == was && visits <= v + SizeItems(items[..i]))
  }

  lemma ItemsStart(h: string -> nat, site: nat -> Site, items: seq<Tree>, place: Place, depth: nat,
                   s: string, was: map<nat, seq<Item>>, v: nat)
    requires CacheOk(h, site, was)
    ensures ItemsSoFar(h, site, items, place, depth, s, was, v, 0, s, was, v)
  {
    hide CacheOk;
    assert items[..0] == [];
  }

  lemma ItemsVisits(h: string -> nat, site: nat -> Site, items: seq<Tree>, place: Place, depth: nat,
                    s: string, was: map<nat, seq<Item>>, v: nat, i: nat,
                    stream: string, entries: map<nat, seq<Item>>, visits: nat, entries': map<nat, seq<Item>>, visits': nat)
    requires ItemsSoFar(h, site, items, place, depth, s, was, v, i, stream, entries, visits) && i < |items|
    requires Grown(h, site, entries, entries') && Covered(entries'.Keys, items[i], place, depth)
    requires visits' <= visits + Cold(items[i], place, depth)
    requires Covered(entries.Keys, items[i], place, depth) ==> entries' == entries && visits' <= visits + Size(items[i])
    ensures ItemsSoFar(h, site, items, place, depth, s, was, v, i + 1, EmitNode(h, stream, items[i], place, depth), entries', visits')
  {
    ItemsNext(entries.Keys, entries'.Keys, items, place, depth, i);
    if ItemsCovered(was.Keys, Site(items, place, depth)) {
      ItemCoveredAt(was.Keys, items, place, depth, i);
    }
    hide CacheOk, Covered, Cold, Size, ItemsCovered, EmitNode;
    assert items[..i + 1][..i] == items[..i] && items[..i + 1][i] == items[i];
  }

  lemma ItemsEnd(h: string -> nat, site: nat -> Site, items: seq<Tree>, place: Place, depth: nat,
                 s: string, was: map<nat, seq<Item>>, v: nat, stream: string, entries: map<nat, seq<Item>>, visits: nat)
    requires ItemsSoFar(h, site, items, place, depth, s, was, v, |items|, stream, entries, visits)
    ensures stream == EmitItems(h, s, items, |items|, place, depth) && Grown(h, site, was, entries)
    ensures ItemsCovered(entries.Keys, Site(items, place, depth)) && visits <= v + ColdItems(items, place, depth)
    ensures ItemsCovered(was.Keys, Site(items, place, depth)) ==> entries == was && visits <= v + SizeItems(items)
  {
    hide CacheOk, ItemsCovered, ColdItems, SizeItems, EmitItems;
    assert items[..|items|] == items;
  }

  lemma ItemsOk(h: string -> nat, site: nat -> Site, items: seq<Tree>, place: Place, depth: nat,
                s: string, was: map<nat, seq<Item>>, v: nat, i: nat, stream: string, entries: map<nat, seq<Item>>, visits: nat)
    requires ItemsSoFar(h, site, items, place, depth, s, was, v, i, stream, entries, visits)
    ensures CacheOk(h, site, entries)
  {
  }

  /** The visits of the items of an unsorted list. */
  method VisitItems(h: string -> nat, ghost site: nat -> Site, ctx: Context, items: seq<Tree>, place: Place, depth: nat,
                    ghost s: string, ghost was: map<nat, seq<Item>>, ghost v: nat)
    requires ItemsPlaced(site, items, place, depth) && CacheOk(h, site, was)
    requires ctx.stream == s && ctx.cache.entries == was && ctx.cache.visits == v
    modifies ctx`stream, ctx.cache
    ensures ctx.stream == EmitItems(h, s, items, |items|, place, depth) && Grown(h, site, was, ctx.cache.entries)
    ensures ItemsCovered(ctx.cache.entries.Keys, Site(items, place, depth))
    ensures ctx.cache.visits <= v + ColdItems(items, place, depth)
    ensures ItemsCovered(was.Keys, Site(items, place, depth)) ==>
              ctx.cache.entries == was && ctx.cache.visits <= v + SizeItems(items)
    decreases items, 6
  {
    hide *;
    ItemsStart(h, site, items, place, depth, s, was, v);
    var i := 0;
    while i < |items|
      invariant 0 <= i <= |items|
      invariant ItemsSoFar(h, site, items, place, depth, s, was, v, i, ctx.stream, ctx.cache.entries, ctx.cache.visits)
    {
      ghost var stream, entries, visits := ctx.stream, ctx.cache.entries, ctx.cache.visits;
      ItemPlacedAt(site, items, place, depth, i);
      ItemsOk(h, site, items, place, depth, s, was, v, i, stream, entries, visits);
      FingerprintNode(h, site, ctx, items[i], place, depth, stream, entries, visits);
      ItemsVisits(h, site, items, place, depth, s, was, v, i, stream, entries, visits, ctx.cache.entries, ctx.cache.visits);
      i := i + 1;
    }
    ItemsEnd(h, site, items, place, depth, s, was, v, ctx.stream, ctx.cache.entries, ctx.cache.visits);
  }

  /** A new entry whose items are covered leaves the cache in order. */
  lemma CacheInsert(h: string -> nat, site: nat -> Site, entries: map<nat, seq<Item>>, id: nat, sorted: seq<Item>)
    requires CacheOk(h, site, entries) && EntryOk(h, site(id), sorted, entries.Keys)
    ensures Grown(h, site, entries, entries[id := sorted])
  {
    hide Covered, Sort, ItemHashes;
    var more := entries[id := sorted];
    assert entries.Keys <= more.Keys;
    forall k | k in more ensures EntryOk(h, site(k), more[k], more.Keys) {
      assert k != id ==> EntryOk(h, site(k), entries[k], entries.Keys);
      ItemsCoveredMore(entries.Keys, more.Keys, site(k));
    }
  }

  lemma ItemsCoveredMore(keys: set<nat>, more: set<nat>, s: Site)
    requires keys <= more && ItemsCovered(keys, s)
    ensures ItemsCovered(more, s)
  {
    hide Covered;
    forall k | 0 <= k < |s.items| ensures Covered(more, s.items[k], s.place, s.depth) {
      CoveredMore(keys, more, s.items[k], s.place, s.depth);
    }
  }

  /** The list as its parts: what the predicates and bounds say about it. */
  lemma ListFacts(h: string -> nat, site: nat -> Site, s: string, t: Tree, place: Place, depth: nat)
    requires t.ListNode? && depth < DEPTH_LIMIT && Placed(site, t, place, depth)
    ensures ItemsPlaced(site, t.items, place, depth + 1)
    ensures IsSorted(place) ==> site(t.id) == Site(t.items, place, depth + 1)
    ensures Cold(t, place, depth) == 1 + ColdItems(t.items, place, depth + 1) + if IsSorted(place) then SizeItems(t.items) else 0
    ensures Size(t) == 1 + SizeItems(t.items)
    ensures !IsSorted(place) ==> EmitNode(h, s, t, place, depth) == EmitItems(h, s, t.items, |t.items|, place, depth + 1)
    ensures var run := Firsts(Sort(ItemHashes(h, t.items, place, depth + 1)));
            IsSorted(place) && Positions(run, |t.items|) ==>
              EmitNode(h, s, t, place, depth) == EmitRun(h, s, t.items, run, place, depth + 1)
  {
    hide EmitRun, EmitItems, ColdItems, SizeItems;
  }

  lemma ListCovered(keys: set<nat>, t: Tree, place: Place, depth: nat)
    requires t.ListNode? && depth < DEPTH_LIMIT
    ensures Covered(keys, t, place, depth) <==>
              (IsSorted(place) ==> t.id in keys) && ItemsCovered(keys, Site(t.items, place, depth + 1))
  {
    var site := Site(t.items, place, depth + 1);
    assert forall i :: 0 <= i < |t.items| ==> site.items[i] == t.items[i];
  }

  lemma EntryAt(h: string -> nat, site: nat -> Site, entries: map<nat, seq<Item>>, id: nat)
    requires CacheOk(h, site, entries) && id in entries
    ensures EntryOk(h, site(id), entries[id], entries.Keys)
  {
  }

  /** `_fingerprintList` */
  method FingerprintList(h: string -> nat, ghost site: nat -> Site, ctx: Context, t: Tree, place: Place, depth: nat,
                         ghost s: string, ghost was: map<nat, seq<Item>>, ghost v: nat)
    requires t.ListNode? && depth < DEPTH_LIMIT && Placed(site, t, place, depth) && CacheOk(h, site, ctx.cache.entries)
    requires ctx.stream == s && ctx.cache.entries == was && ctx.cache.visits == v
    modifies ctx`stream, ctx.cache
    ensures ctx.stream == EmitNode(h, s, t, place, depth)
    ensures Grown(h, site, was, ctx.cache.entries) && Covered(ctx.cache.entries.Keys, t, place, depth)
    ensures ctx.cache.visits + 1 <= v + Cold(t, place, depth)
    ensures Covered(was.Keys, t, place, depth) ==> ctx.cache.entries == was && ctx.cache.visits + 1 <= v + Size(t)
    decreases t, 4
  {
    ListFacts(h, site, s, t, place, depth);
    ListCovered(was.Keys, t, place, depth);
    hide *;
    if IsSorted(place) {
      var sorted := CachedItems(h, site, ctx.cache, t, place, depth, was, v);
      GrownOk(h, site, was, ctx.cache.entries);
      ghost var entries, visits := ctx.cache.entries, ctx.cache.visits;
      VisitRun(h, site, ctx, t.items, ItemHashes(h, t.items, place, depth + 1), sorted, place, depth + 1, s, entries, visits);
    } else {
      VisitItems(h, site, ctx, t.items, place, depth + 1, s, was, v);
    }
    ListCovered(ctx.cache.entries.Keys, t, place, depth);
  }

  /** The sorted hashes of the items, from the cache or computed and cached. */
  method CachedItems(h: string -> nat, ghost site: nat -> Site, cache: Cache, t: Tree, place: Place, depth: nat,
                     ghost was: map<nat, seq<Item>>, ghost v: nat)
    returns (sorted: seq<Item>)
    requires t.ListNode? && CacheOk(h, site, was) && cache.entries == was && cache.visits == v
    requires ItemsPlaced(site, t.items, place, depth + 1) && site(t.id) == Site(t.items, place, depth + 1)
    modifies cache
    ensures sorted == Sort(ItemHashes(h, t.items, place, depth + 1))
    ensures Grown(h, site, was, cache.entries)
    ensures t.id in cache.entries && ItemsCovered(cache.entries.Keys, Site(t.items, place, depth + 1))
    ensures cache.visits <= v + ColdItems(t.items, place, depth + 1)
    ensures t.id in was ==> cache.entries == was && cache.visits == v
    decreases t, 3
  {
    hide CacheOk, Covered, Sort, ItemHashes, ItemsPlaced, ItemsCovered, ColdItems;
    if t.id in cache.entries {
      EntryAt(h, site, was, t.id);
      sorted := cache.entries[t.id];
    } else {
      var hashes := HashItems(h, site, cache, t.items, place, depth + 1, was, v);
      sorted := Sort(hashes);
      CacheInsert(h, site, cache.entries, t.id, sorted);
      ItemsCoveredMore(cache.entries.Keys, cache.entries[t.id := sorted].Keys, site(t.id));
      cache.entries := cache.entries[t.id := sorted];
    }
  }

  /**
   `pg_query_fingerprint_node`: the cache is transparent, and there are at most size times
   one more than the nesting depth of sorted lists visits, hence at most 101 times the size.
   */
  method FingerprintTree(h: string -> nat, ghost site: nat -> Site, t: Tree) returns (hash: nat, ghost visits: nat)
    requires Placed(site, t, NOWHERE, 0)
    ensures hash == Fingerprint(h, t)
    ensures visits <= Size(t) * (1 + Nesting(t, NOWHERE, 0))
    ensures visits <= 101 * Size(t)
  {
    EmptyCache(h, site);
    ColdBound(t, NOWHERE, 0);
    NestingBound(t, NOWHERE, 0);
    Times(Size(t), Nesting(t, NOWHERE, 0), 100);
    FingerprintIs(h, t);
    hide *;
    var cache := new Cache();
    var ctx := new Context(cache);
    FingerprintNode(h, site, ctx, t, NOWHERE, 0, "", map[], 0);
    hash, visits := h(ctx.stream), cache.visits;
  }

  lemma EmptyCache(h: string -> nat, site: nat -> Site)
    ensures CacheOk(h, site, map[])
  {
  }

  lemma FingerprintIs(h: string -> nat, t: Tree)
    ensures Fingerprint(h, t) == h(EmitNode(h, "", t, NOWHERE, 0))
  {
  }
}
