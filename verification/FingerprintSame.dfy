/**
 The fingerprint is a congruence: trees that differ only by the order and the multiplicity of
 items in sorted lists, at any depth, have the same fingerprint.

 The hash has to be injective on the streams whose digests are taken; no more is assumed.
 */
module FingerprintSame {
  import opened FingerprintSpec

  ghost predicate InjectiveOn(h: string -> nat, streams: iset<string>) {
    forall a, b :: a in streams && b in streams && h(a) == h(b) ==> a == b
  }

  // ----- the streams whose digests are taken -----

  ghost predicate Digested(streams: iset<string>, h: string -> nat, s: string, t: Tree, place: Place, depth: nat)
    decreases t, 0
  {
    depth < DEPTH_LIMIT ==>
      match t
      case Struct(tag, fields) => FieldsDigested(streams, h, s + tag, tag, fields, |fields|, place, depth)
      case ListNode(_, items) =>
        if IsSorted(place) then
          && ItemsDigested(streams, h, items, place, depth + 1)
          && var run := Firsts(Sort(ItemHashes(h, items, place, depth + 1)));
          && Positions(run, |items|) && RunDigested(streams, h, s, items, run, place, depth + 1)
        else ListDigested(streams, h, s, items, |items|, place, depth + 1)
      case _ => true
  }

  ghost predicate ItemsDigested(streams: iset<string>, h: string -> nat, items: seq<Tree>, place: Place, depth: nat)
    decreases items, 2
  {
    forall i :: 0 <= i < |items| ==>
      EmitNode(h, "", items[i], place, depth) in streams && Digested(streams, h, "", items[i], place, depth)
  }

  ghost predicate RunDigested(streams: iset<string>, h: string -> nat, s: string, items: seq<Tree>, run: seq<Item>,
                              place: Place, depth: nat)
    requires Positions(run, |items|)
    decreases items, 2, |run|
  {
    run != [] ==>
      var n := |run| - 1;
      && RunDigested(streams, h, s, items, run[..n], place, depth)
      && Digested(streams, h, EmitRun(h, s, items, run[..n], place, depth), items[run[n].pos], place, depth)
  }

  ghost predicate ListDigested(streams: iset<string>, h: string -> nat, s: string, items: seq<Tree>, n: nat,
                               place: Place, depth: nat)
    requires n <= |items|
    decreases items, 2, n
  {
    n > 0 ==>
      && ListDigested(streams, h, s, items, n - 1, place, depth)
      && Digested(streams, h, EmitItems(h, s, items, n - 1, place, depth), items[n - 1], place, depth)
  }

  ghost predicate FieldsDigested(streams: iset<string>, h: string -> nat, s: string, tag: string, fields: seq<Field>, n: nat,
                                 place: Place, depth: nat)
    requires n <= |fields|
    decreases fields, 0, n
  {
    n > 0 ==>
      && FieldsDigested(streams, h, s, tag, fields, n - 1, place, depth)
      && FieldDigested(streams, h, EmitFields(h, s, tag, fields, n - 1, place, depth), tag, fields[n - 1], depth)
  }

  ghost predicate FieldDigested(streams: iset<string>, h: string -> nat, s: string, tag: string, f: Field, depth: nat)
    decreases f
  {
    IsVisited(f) ==>
      var named, here := s + f.name, Place(tag, f.name);
      && named in streams
      && (if f.via.Direct?
          then EmitFields(h, named, f.child.tag, f.child.fields, |f.child.fields|, here, depth + 1) in streams
               && FieldsDigested(streams, h, named, f.child.tag, f.child.fields, |f.child.fields|, here, depth + 1)
          else EmitNode(h, named, f.child, here, depth + 1) in streams && Digested(streams, h, named, f.child, here, depth + 1))
  }

  // ----- what a node contributes, wherever it stands -----

  function OutNode(h: string -> nat, t: Tree, place: Place, depth: nat): string
    decreases t, 0
  {
    if depth >= DEPTH_LIMIT then ""
    else match t
      case Null => ""
      case Ignored => ""
      case Scalar(text) => Joined(text)
      case Struct(tag, fields) => tag + OutFields(h, tag, fields, |fields|, place, depth)
      case ListNode(_, items) =>
        if IsSorted(place) then
          SortPositions(ItemHashes(h, items, place, depth + 1));
          FirstsPositions(Sort(ItemHashes(h, items, place, depth + 1)), |items|);
          OutRun(h, items, Firsts(Sort(ItemHashes(h, items, place, depth + 1))), place, depth + 1)
        else OutItems(h, items, |items|, place, depth + 1)
  }

  function OutRun(h: string -> nat, items: seq<Tree>, run: seq<Item>, place: Place, depth: nat): string
    requires Positions(run, |items|)
    decreases items, 2, |run|
  {
    if run == [] then ""
    else OutRun(h, items, run[..|run| - 1], place, depth) + OutNode(h, items[run[|run| - 1].pos], place, depth)
  }

  function OutItems(h: string -> nat, items: seq<Tree>, n: nat, place: Place, depth: nat): string
    requires n <= |items|
    decreases items, 2, n
  {
    if n == 0 then "" else OutItems(h, items, n - 1, place, depth) + OutNode(h, items[n - 1], place, depth)
  }

  function OutFields(h: string -> nat, tag: string, fields: seq<Field>, n: nat, place: Place, depth: nat): string
    requires n <= |fields|
    decreases fields, 0, n
  {
    if n == 0 then "" else OutFields(h, tag, fields, n - 1, place, depth) + OutField(h, tag, fields[n - 1], place, depth)
  }

  /** A child contributes its name and its own text, or nothing at all when it has no text. */
  function OutField(h: string -> nat, tag: string, f: Field, place: Place, depth: nat): string
    decreases f
  {
    if f.Text? then (if place in f.hidden then "" else Joined(f.text))
    else if !IsVisited(f) then ""
    else
      var out := OutChild(h, tag, f, depth);
      if out == "" && !IsLoneNil(f) then "" else f.name + out
  }

  function OutChild(h: string -> nat, tag: string, f: Field, depth: nat): string
    requires IsVisited(f)
    decreases f, 0
  {
    if f.via.Direct? then OutFields(h, f.child.tag, f.child.fields, |f.child.fields|, Place(tag, f.name), depth + 1)
    else OutNode(h, f.child, Place(tag, f.name), depth + 1)
  }

  lemma Grow(s: string, a: string, b: string)
    ensures (s + a) + b == s + (a + b) && s + "" == s
  {
  }

  /** Writing a node appends what it contributes. */
  lemma {:induction false} EmitIsOut(streams: iset<string>, h: string -> nat, s: string, t: Tree, place: Place, depth: nat)
    requires InjectiveOn(h, streams) && Digested(streams, h, s, t, place, depth)
    ensures EmitNode(h, s, t, place, depth) == s + OutNode(h, t, place, depth)
    decreases t, 0
  {
    Grow(s, "", "");
    if depth < DEPTH_LIMIT {
      match t {
        case Struct(tag, fields) =>
          EmitFieldsIsOut(streams, h, s + tag, tag, fields, |fields|, place, depth);
          Grow(s, tag, OutFields(h, tag, fields, |fields|, place, depth));
        case ListNode(_, items) =>
          if IsSorted(place) {
            EmitRunIsOut(streams, h, s, items, Firsts(Sort(ItemHashes(h, items, place, depth + 1))), place, depth + 1);
          } else {
            EmitItemsIsOut(streams, h, s, items, |items|, place, depth + 1);
          }
        case _ =>
      }
    }
  }

  lemma {:induction false} EmitRunIsOut(streams: iset<string>, h: string -> nat, s: string, items: seq<Tree>, run: seq<Item>,
                                        place: Place, depth: nat)
    requires InjectiveOn(h, streams) && Positions(run, |items|) && RunDigested(streams, h, s, items, run, place, depth)
    ensures EmitRun(h, s, items, run, place, depth) == s + OutRun(h, items, run, place, depth)
    decreases items, 2, |run|
  {
    hide InjectiveOn, Digested, EmitNode, OutNode;
    if run == [] {
      Grow(s, "", "");
    } else {
      var n := |run| - 1;
      EmitRunIsOut(streams, h, s, items, run[..n], place, depth);
      EmitIsOut(streams, h, EmitRun(h, s, items, run[..n], place, depth), items[run[n].pos], place, depth);
      Grow(s, OutRun(h, items, run[..n], place, depth), OutNode(h, items[run[n].pos], place, depth));
    }
  }

  lemma {:induction false} EmitItemsIsOut(streams: iset<string>, h: string -> nat, s: string, items: seq<Tree>, n: nat,
                                          place: Place, depth: nat)
    requires InjectiveOn(h, streams) && n <= |items| && ListDigested(streams, h, s, items, n, place, depth)
    ensures EmitItems(h, s, items, n, place, depth) == s + OutItems(h, items, n, place, depth)
    decreases items, 2, n
  {
    hide InjectiveOn, Digested, EmitNode, OutNode;
    if n == 0 {
      Grow(s, "", "");
    } else {
      EmitItemsIsOut(streams, h, s, items, n - 1, place, depth);
      EmitIsOut(streams, h, EmitItems(h, s, items, n - 1, place, depth), items[n - 1], place, depth);
      Grow(s, OutItems(h, items, n - 1, place, depth), OutNode(h, items[n - 1], place, depth));
    }
  }

  lemma {:induction false} EmitFieldsIsOut(streams: iset<string>, h: string -> nat, s: string, tag: string, fields: seq<Field>,
                                           n: nat, place: Place, depth: nat)
    requires InjectiveOn(h, streams) && n <= |fields| && FieldsDigested(streams, h, s, tag, fields, n, place, depth)
    ensures EmitFields(h, s, tag, fields, n, place, depth) == s + OutFields(h, tag, fields, n, place, depth)
    decreases fields, 0, n
  {
    hide InjectiveOn, FieldDigested, EmitField, OutField;
    if n == 0 {
      Grow(s, "", "");
    } else {
      EmitFieldsIsOut(streams, h, s, tag, fields, n - 1, place, depth);
      EmitFieldIsOut(streams, h, EmitFields(h, s, tag, fields, n - 1, place, depth), tag, fields[n - 1], place, depth);
      Grow(s, OutFields(h, tag, fields, n - 1, place, depth), OutField(h, tag, fields[n - 1], place, depth));
    }
  }

  lemma {:induction false} EmitFieldIsOut(streams: iset<string>, h: string -> nat, s: string, tag: string, f: Field,
                                          place: Place, depth: nat)
    requires InjectiveOn(h, streams) && FieldDigested(streams, h, s, tag, f, depth)
    ensures EmitField(h, s, tag, f, place, depth) == s + OutField(h, tag, f, place, depth)
    decreases f
  {
    Grow(s, "", "");
    if IsVisited(f) {
      var named, here, out := s + f.name, Place(tag, f.name), OutChild(h, tag, f, depth);
      if f.via.Direct? {
        EmitFieldsIsOut(streams, h, named, f.child.tag, f.child.fields, |f.child.fields|, here, depth + 1);
      } else {
        EmitIsOut(streams, h, named, f.child, here, depth + 1);
      }
      Grow(s, f.name, out);
      Grow(named, "", "");
      assert named + out in streams && named in streams;
      assert out == "" <==> named + out == named by {
        assert |named + out| == |named| + |out|;
      }
      hide EmitNode, EmitFields, OutNode, OutFields, OutChild;
    }
  }

  // ----- trees that count as the same -----

  /** Equal up to the order and multiplicity of the items of sorted lists, at any depth. */
  ghost predicate Same(a: Tree, b: Tree, place: Place)
    decreases a, 0
  {
    match a
    case Struct(tag, fields) =>
      b.Struct? && b.tag == tag && |b.fields| == |fields|
      && forall i :: 0 <= i < |fields| ==> SameField(fields[i], b.fields[i], tag)
    case ListNode(_, items) =>
      b.ListNode? &&
      if IsSorted(place) then
        && (forall i :: 0 <= i < |items| ==> FindsSame(items[i], b.items, place))
        && (forall j :: 0 <= j < |b.items| ==> IsFound(items, b.items[j], place))
      else |b.items| == |items| && forall i :: 0 <= i < |items| ==> Same(items[i], b.items[i], place)
    case _ => a == b
  }

  ghost predicate FindsSame(x: Tree, ys: seq<Tree>, place: Place)
    decreases x, 1
  {
    exists j :: 0 <= j < |ys| && Same(x, ys[j], place)
  }

  ghost predicate IsFound(xs: seq<Tree>, y: Tree, place: Place)
    decreases xs, 1
  {
    exists i :: 0 <= i < |xs| && Same(xs[i], y, place)
  }

  /** A list of a single null keeps its field name, so it may not be duplicated. */
  ghost predicate SameField(f: Field, g: Field, tag: string)
    decreases f, 0
  {
    if f.Text? then f == g
    else
      g.Child? && g.name == f.name && g.via == f.via && Same(f.child, g.child, Place(tag, f.name))
      && (IsLoneNil(f) <==> IsLoneNil(g))
  }

  lemma {:induction false} SameRefl(a: Tree, place: Place)
    ensures Same(a, a, place)
    decreases a
  {
    match a
    case Struct(tag, fields) =>
      forall i | 0 <= i < |fields| ensures SameField(fields[i], fields[i], tag) {
        if fields[i].Child? {
          SameRefl(fields[i].child, Place(tag, fields[i].name));
        }
      }
    case ListNode(_, items) =>
      forall i | 0 <= i < |items|
        ensures Same(items[i], items[i], place) && FindsSame(items[i], items, place) && IsFound(items, items[i], place)
      {
        SameRefl(items[i], place);
      }
    case _ =>
  }

  /** Permuting and duplicating the items of a sorted list gives the same list. */
  lemma SameElements(a: Tree, b: Tree, place: Place)
    requires a.ListNode? && b.ListNode? && IsSorted(place)
    requires forall x :: x in a.items <==> x in b.items
    ensures Same(a, b, place)
  {
    forall i | 0 <= i < |a.items| ensures FindsSame(a.items[i], b.items, place) {
      assert a.items[i] in b.items;
      var j :| 0 <= j < |b.items| && b.items[j] == a.items[i];
      SameRefl(a.items[i], place);
    }
    forall j | 0 <= j < |b.items| ensures IsFound(a.items, b.items[j], place) {
      assert b.items[j] in a.items;
      var i :| 0 <= i < |a.items| && a.items[i] == b.items[j];
      SameRefl(a.items[i], place);
    }
  }

  // ----- sorted, duplicates left out -----

  ghost predicate Strict(xs: seq<Item>) {
    forall j, k :: 0 <= j < k < |xs| ==> xs[j].hash < xs[k].hash
  }

  ghost predicate HashIn(x: nat, xs: seq<Item>) {
    exists k :: 0 <= k < |xs| && xs[k].hash == x
  }

  lemma HashInMore(x: nat, xs: seq<Item>, ys: seq<Item>)
    requires HashIn(x, xs)
    ensures HashIn(x, xs + ys)
  {
    var k :| 0 <= k < |xs| && xs[k].hash == x;
    assert (xs + ys)[k].hash == x;
  }

  /** The first items of the runs: strictly ascending hashes, all of them items. */
  lemma {:induction false} FirstsFacts(xs: seq<Item>)
    requires Ascending(xs)
    ensures var r := Firsts(xs);
            && Strict(r) && (xs != [] ==> r != [] && r[|r| - 1].hash == xs[|xs| - 1].hash)
            && (forall y :: y in r ==> y in xs)
  {
    if xs != [] {
      FirstsFacts(xs[..|xs| - 1]);
    }
  }

  /** No hash is lost. */
  lemma {:induction false} FirstsKeep(xs: seq<Item>, i: nat)
    requires Ascending(xs) && i < |xs|
    ensures HashIn(xs[i].hash, Firsts(xs))
  {
    var n := |xs| - 1;
    FirstsFacts(xs);
    if i < n {
      FirstsKeep(xs[..n], i);
      HashInMore(xs[i].hash, Firsts(xs[..n]), if xs[n - 1].hash == xs[n].hash then [] else [xs[n]]);
    } else {
      assert Firsts(xs)[|Firsts(xs)| - 1].hash == xs[n].hash;
    }
  }

  /** Strictly ascending runs with the same hashes agree hash by hash. */
  lemma {:induction false} SameRuns(p: seq<Item>, q: seq<Item>)
    requires Strict(p) && Strict(q)
    requires forall x :: HashIn(x, p) <==> HashIn(x, q)
    ensures |p| == |q| && forall k :: 0 <= k < |p| ==> p[k].hash == q[k].hash
  {
    if p == [] {
      if q != [] {
        assert HashIn(q[0].hash, q);
      }
    } else {
      assert HashIn(p[|p| - 1].hash, p);
      assert q != [];
      var m, n := |p| - 1, |q| - 1;
      assert HashIn(q[n].hash, q);
      LastIsLargest(p, q[n].hash);
      LastIsLargest(q, p[m].hash);
      forall x ensures HashIn(x, p[..m]) <==> HashIn(x, q[..n]) {
        WithoutLast(p, x);
        WithoutLast(q, x);
      }
      SameRuns(p[..m], q[..n]);
    }
  }

  lemma LastIsLargest(p: seq<Item>, x: nat)
    requires Strict(p) && HashIn(x, p)
    ensures x <= p[|p| - 1].hash
  {
  }

  lemma WithoutLast(p: seq<Item>, x: nat)
    requires Strict(p) && p != []
    ensures HashIn(x, p[..|p| - 1]) <==> HashIn(x, p) && x != p[|p| - 1].hash
  {
    var n := |p| - 1;
    if HashIn(x, p) && x != p[n].hash {
      var k :| 0 <= k < |p| && p[k].hash == x;
      assert p[..n][k].hash == x;
    }
    if HashIn(x, p[..n]) {
      var k :| 0 <= k < |p[..n]| && p[..n][k].hash == x;
      assert p[k].hash == x;
    }
  }

  lemma {:induction false} ItemHashesAt(h: string -> nat, items: seq<Tree>, place: Place, depth: nat, i: nat)
    requires i < |items|
    ensures ItemHashes(h, items, place, depth)[i] == h(EmitNode(h, "", items[i], place, depth))
  {
    hide EmitNode;
    if i < |items| - 1 {
      ItemHashesAt(h, items[..|items| - 1], place, depth, i);
    }
  }

  /** The run of a sorted list: positions of items, strictly by hash, no hash lost. */
  lemma RunFacts(h: string -> nat, items: seq<Tree>, place: Place, depth: nat)
    ensures var hashes := ItemHashes(h, items, place, depth);
            var run := Firsts(Sort(hashes));
            && Strict(run) && Positions(run, |items|)
            && (forall k :: 0 <= k < |run| ==> run[k].hash == hashes[run[k].pos])
            && (forall i :: 0 <= i < |items| ==> HashIn(hashes[i], run))
  {
    var hashes := ItemHashes(h, items, place, depth);
    SortFacts(hashes);
    FirstsFacts(Sort(hashes));
    SortPositions(hashes);
    FirstsPositions(Sort(hashes), |items|);
    hide Sort, Firsts, ItemHashes;
    var run := Firsts(Sort(hashes));
    forall k | 0 <= k < |run| ensures run[k].hash == hashes[run[k].pos] {
      assert run[k] in run;
    }
    forall i | 0 <= i < |items| ensures HashIn(hashes[i], run) {
      assert Item(hashes[i], i) in Sort(hashes);
      var k :| 0 <= k < |Sort(hashes)| && Sort(hashes)[k] == Item(hashes[i], i);
      FirstsKeep(Sort(hashes), k);
    }
  }

  // ----- the congruence -----

  /** What an item contributes, and that its digest tells. */
  ghost predicate ItemsTold(streams: iset<string>, h: string -> nat, items: seq<Tree>, place: Place, depth: nat) {
    forall i :: 0 <= i < |items| ==>
      && OutNode(h, items[i], place, depth) in streams
      && ItemHashes(h, items, place, depth)[i] == h(OutNode(h, items[i], place, depth))
  }

  lemma ItemsTell(streams: iset<string>, h: string -> nat, items: seq<Tree>, place: Place, depth: nat)
    requires InjectiveOn(h, streams) && ItemsDigested(streams, h, items, place, depth)
    ensures ItemsTold(streams, h, items, place, depth)
  {
    hide InjectiveOn, EmitNode, Digested, OutNode, ItemHashes;
    forall i | 0 <= i < |items|
      ensures OutNode(h, items[i], place, depth) in streams
      ensures ItemHashes(h, items, place, depth)[i] == h(OutNode(h, items[i], place, depth))
    {
      EmitIsOut(streams, h, "", items[i], place, depth);
      ItemHashesAt(h, items, place, depth, i);
      assert "" + OutNode(h, items[i], place, depth) == OutNode(h, items[i], place, depth);
    }
  }

  ghost predicate HashAmong(h: string -> nat, items: seq<Tree>, place: Place, depth: nat, x: nat) {
    exists j :: 0 <= j < |items| && ItemHashes(h, items, place, depth)[j] == x
  }

  ghost predicate HashesAmong(h: string -> nat, items: seq<Tree>, others: seq<Tree>, place: Place, depth: nat) {
    forall i :: 0 <= i < |items| ==> HashAmong(h, others, place, depth, ItemHashes(h, items, place, depth)[i])
  }

  /** Every hash of one list is a hash of the other. */
  lemma HashesCarry(h: string -> nat, items: seq<Tree>, others: seq<Tree>, place: Place, depth: nat, x: nat)
    requires var hashes := ItemHashes(h, items, place, depth);
             var run := Firsts(Sort(hashes));
             Positions(run, |items|) && (forall k :: 0 <= k < |run| ==> run[k].hash == hashes[run[k].pos]) && HashIn(x, run)
    requires HashesAmong(h, items, others, place, depth)
    requires var otherHashes := ItemHashes(h, others, place, depth);
             forall j :: 0 <= j < |others| ==> HashIn(otherHashes[j], Firsts(Sort(otherHashes)))
    ensures HashIn(x, Firsts(Sort(ItemHashes(h, others, place, depth))))
  {
    hide ItemHashes, Sort, Firsts;
    var hashes, otherHashes := ItemHashes(h, items, place, depth), ItemHashes(h, others, place, depth);
    var run := Firsts(Sort(hashes));
    var k :| 0 <= k < |run| && run[k].hash == x;
    var i := run[k].pos;
    assert hashes[i] == x;
    assert HashAmong(h, others, place, depth, hashes[i]);
    var j :| 0 <= j < |others| && otherHashes[j] == hashes[i];
  }

  /** Runs with the same hashes contribute the same, because the digests tell the items. */
  lemma {:induction false} OutRunSame(streams: iset<string>, h: string -> nat, items: seq<Tree>, others: seq<Tree>,
                                      p: seq<Item>, q: seq<Item>, place: Place, depth: nat)
    requires InjectiveOn(h, streams) && Positions(p, |items|) && Positions(q, |others|)
    requires ItemsTold(streams, h, items, place, depth) && ItemsTold(streams, h, others, place, depth)
    requires forall k :: 0 <= k < |p| ==> p[k].hash == ItemHashes(h, items, place, depth)[p[k].pos]
    requires forall k :: 0 <= k < |q| ==> q[k].hash == ItemHashes(h, others, place, depth)[q[k].pos]
    requires |p| == |q| && forall k :: 0 <= k < |p| ==> p[k].hash == q[k].hash
    ensures OutRun(h, items, p, place, depth) == OutRun(h, others, q, place, depth)
    decreases |p|
  {
    hide OutNode, ItemHashes;
    if p != [] {
      var n := |p| - 1;
      OutRunSame(streams, h, items, others, p[..n], q[..n], place, depth);
      var x, y := OutNode(h, items[p[n].pos], place, depth), OutNode(h, others[q[n].pos], place, depth);
      assert h(x) == p[n].hash == q[n].hash == h(y);
    }
  }

  lemma OutRunsSame(streams: iset<string>, h: string -> nat, items: seq<Tree>, others: seq<Tree>, place: Place, depth: nat)
    requires InjectiveOn(h, streams)
    requires ItemsTold(streams, h, items, place, depth) && ItemsTold(streams, h, others, place, depth)
    requires HashesAmong(h, items, others, place, depth) && HashesAmong(h, others, items, place, depth)
    ensures var p, q := Firsts(Sort(ItemHashes(h, items, place, depth))), Firsts(Sort(ItemHashes(h, others, place, depth)));
            Positions(p, |items|) && Positions(q, |others|)
            && OutRun(h, items, p, place, depth) == OutRun(h, others, q, place, depth)
  {
    RunFacts(h, items, place, depth);
    RunFacts(h, others, place, depth);
    hide ItemHashes, Sort, Firsts, ItemsTold, InjectiveOn, OutRun;
    var p, q := Firsts(Sort(ItemHashes(h, items, place, depth))), Firsts(Sort(ItemHashes(h, others, place, depth)));
    forall x ensures HashIn(x, p) <==> HashIn(x, q) {
      if HashIn(x, p) {
        HashesCarry(h, items, others, place, depth, x);
      }
      if HashIn(x, q) {
        HashesCarry(h, others, items, place, depth, x);
      }
    }
    SameRuns(p, q);
    OutRunSame(streams, h, items, others, p, q, place, depth);
  }

  /** Same trees contribute the same text. */
  lemma {:induction false} OutSame(streams: iset<string>, h: string -> nat, s: string, a: Tree, s': string, b: Tree,
                                   place: Place, depth: nat)
    requires InjectiveOn(h, streams) && Same(a, b, place)
    requires Digested(streams, h, s, a, place, depth) && Digested(streams, h, s', b, place, depth)
    ensures OutNode(h, a, place, depth) == OutNode(h, b, place, depth)
    decreases a, 3
  {
    if depth < DEPTH_LIMIT {
      match a {
        case Struct(tag, fields) =>
          OutFieldsSame(streams, h, s + tag, s' + tag, tag, fields, b.fields, |fields|, place, depth);
        case ListNode(_, items) =>
          if IsSorted(place) {
            OutListSame(streams, h, items, b.items, place, depth + 1);
          } else {
            OutItemsSame(streams, h, s, items, s', b.items, |items|, place, depth + 1);
          }
        case _ =>
      }
    }
  }

  lemma {:induction false} OutListSame(streams: iset<string>, h: string -> nat, items: seq<Tree>, others: seq<Tree>,
                                       place: Place, depth: nat)
    requires InjectiveOn(h, streams)
    requires ItemsDigested(streams, h, items, place, depth) && ItemsDigested(streams, h, others, place, depth)
    requires forall i :: 0 <= i < |items| ==> FindsSame(items[i], others, place)
    requires forall j :: 0 <= j < |others| ==> IsFound(items, others[j], place)
    ensures var p, q := Firsts(Sort(ItemHashes(h, items, place, depth))), Firsts(Sort(ItemHashes(h, others, place, depth)));
            Positions(p, |items|) && Positions(q, |others|)
            && OutRun(h, items, p, place, depth) == OutRun(h, others, q, place, depth)
    decreases items, 4
  {
    hide *;
    forall i | 0 <= i < |items| ensures HashAmong(h, others, place, depth, ItemHashes(h, items, place, depth)[i]) {
      var j := TheSame(items[i], others, place);
      PairSame(streams, h, items, others, i, j, place, depth);
    }
    forall j | 0 <= j < |others| ensures HashAmong(h, items, place, depth, ItemHashes(h, others, place, depth)[j]) {
      var i := TheFound(items, others[j], place);
      PairSame(streams, h, items, others, i, j, place, depth);
    }
    AllAmong(h, items, others, place, depth);
    AllAmong(h, others, items, place, depth);
    ItemsTell(streams, h, items, place, depth);
    ItemsTell(streams, h, others, place, depth);
    OutRunsSame(streams, h, items, others, place, depth);
  }

  lemma AllAmong(h: string -> nat, items: seq<Tree>, others: seq<Tree>, place: Place, depth: nat)
    requires forall i :: 0 <= i < |items| ==> HashAmong(h, others, place, depth, ItemHashes(h, items, place, depth)[i])
    ensures HashesAmong(h, items, others, place, depth)
  {
    hide HashAmong, ItemHashes;
  }

  lemma TheSame(x: Tree, ys: seq<Tree>, place: Place) returns (j: nat)
    requires FindsSame(x, ys, place)
    ensures j < |ys| && Same(x, ys[j], place)
  {
    hide Same;
    j :| 0 <= j < |ys| && Same(x, ys[j], place);
  }

  lemma TheFound(xs: seq<Tree>, y: Tree, place: Place) returns (i: nat)
    requires IsFound(xs, y, place)
    ensures i < |xs| && Same(xs[i], y, place)
  {
    hide Same;
    i :| 0 <= i < |xs| && Same(xs[i], y, place);
  }

  /** Items that are the same have the same digest. */
  lemma {:induction false} PairSame(streams: iset<string>, h: string -> nat, items: seq<Tree>, others: seq<Tree>,
                                    i: nat, j: nat, place: Place, depth: nat)
    requires InjectiveOn(h, streams) && i < |items| && j < |others| && Same(items[i], others[j], place)
    requires ItemsDigested(streams, h, items, place, depth) && ItemsDigested(streams, h, others, place, depth)
    ensures HashAmong(h, others, place, depth, ItemHashes(h, items, place, depth)[i])
    ensures HashAmong(h, items, place, depth, ItemHashes(h, others, place, depth)[j])
    decreases items, 3
  {
    ItemsTell(streams, h, items, place, depth);
    ItemsTell(streams, h, others, place, depth);
    hide InjectiveOn, Digested, ItemHashes, OutNode, EmitNode, Same;
    OutSame(streams, h, "", items[i], "", others[j], place, depth);
    assert ItemHashes(h, items, place, depth)[i] == ItemHashes(h, others, place, depth)[j];
  }

  lemma {:induction false} OutItemsSame(streams: iset<string>, h: string -> nat, s: string, items: seq<Tree>,
                                        s': string, others: seq<Tree>, n: nat, place: Place, depth: nat)
    requires InjectiveOn(h, streams) && n <= |items| == |others|
    requires forall i :: 0 <= i < n ==> Same(items[i], others[i], place)
    requires ListDigested(streams, h, s, items, n, place, depth) && ListDigested(streams, h, s', others, n, place, depth)
    ensures OutItems(h, items, n, place, depth) == OutItems(h, others, n, place, depth)
    decreases items, 4, n
  {
    hide InjectiveOn, Digested, OutNode, Same;
    if n > 0 {
      OutItemsSame(streams, h, s, items, s', others, n - 1, place, depth);
      OutSame(streams, h, EmitItems(h, s, items, n - 1, place, depth), items[n - 1],
              EmitItems(h, s', others, n - 1, place, depth), others[n - 1], place, depth);
    }
  }

  lemma {:induction false} OutFieldsSame(streams: iset<string>, h: string -> nat, s: string, s': string, tag: string,
                                         fields: seq<Field>, others: seq<Field>, n: nat, place: Place, depth: nat)
    requires InjectiveOn(h, streams) && n <= |fields| == |others|
    requires forall i :: 0 <= i < n ==> SameField(fields[i], others[i], tag)
    requires FieldsDigested(streams, h, s, tag, fields, n, place, depth)
    requires FieldsDigested(streams, h, s', tag, others, n, place, depth)
    ensures OutFields(h, tag, fields, n, place, depth) == OutFields(h, tag, others, n, place, depth)
    decreases fields, 2, n
  {
    hide InjectiveOn, FieldDigested, OutField, SameField;
    if n > 0 {
      OutFieldsSame(streams, h, s, s', tag, fields, others, n - 1, place, depth);
      OutFieldSame(streams, h, EmitFields(h, s, tag, fields, n - 1, place, depth),
                   EmitFields(h, s', tag, others, n - 1, place, depth), tag, fields[n - 1], others[n - 1], place, depth);
    }
  }

  lemma {:induction false} OutFieldSame(streams: iset<string>, h: string -> nat, s: string, s': string, tag: string,
                                        f: Field, g: Field, place: Place, depth: nat)
    requires InjectiveOn(h, streams) && SameField(f, g, tag)
    requires FieldDigested(streams, h, s, tag, f, depth) && FieldDigested(streams, h, s', tag, g, depth)
    ensures OutField(h, tag, f, place, depth) == OutField(h, tag, g, place, depth)
    decreases f, 3
  {
    SameVisited(f, g, tag);
    if IsVisited(f) {
      OutChildSame(streams, h, s, s', tag, f, g, depth);
    }
  }

  lemma SameVisited(f: Field, g: Field, tag: string)
    requires SameField(f, g, tag)
    ensures IsVisited(f) <==> IsVisited(g)
  {
    if f.Child? && f.via.ViaList? && f.child.ListNode? {
      var place := Place(tag, f.name);
      if IsSorted(place) && f.child.items != [] {
        assert FindsSame(f.child.items[0], g.child.items, place);
      }
      if IsSorted(place) && g.child.items != [] {
        assert IsFound(f.child.items, g.child.items[0], place);
      }
    }
  }

  lemma {:induction false} OutChildSame(streams: iset<string>, h: string -> nat, s: string, s': string, tag: string,
                                        f: Field, g: Field, depth: nat)
    requires InjectiveOn(h, streams) && SameField(f, g, tag) && IsVisited(f) && IsVisited(g)
    requires FieldDigested(streams, h, s, tag, f, depth) && FieldDigested(streams, h, s', tag, g, depth)
    ensures OutChild(h, tag, f, depth) == OutChild(h, tag, g, depth)
    decreases f, 1
  {
    var here := Place(tag, f.name);
    if f.via.Direct? {
      OutFieldsSame(streams, h, s + f.name, s' + f.name, f.child.tag, f.child.fields, g.child.fields, |f.child.fields|,
                    here, depth + 1);
    } else {
      OutSame(streams, h, s + f.name, f.child, s' + f.name, g.child, here, depth + 1);
    }
  }

  /**
   Trees that differ only by permuting or duplicating items of sorted lists, at any depth, have
   equal fingerprints, the cutoff included.
   */
  lemma Congruence(streams: iset<string>, h: string -> nat, a: Tree, b: Tree)
    requires InjectiveOn(h, streams) && Same(a, b, NOWHERE)
    requires Digested(streams, h, "", a, NOWHERE, 0) && Digested(streams, h, "", b, NOWHERE, 0)
    ensures Fingerprint(h, a) == Fingerprint(h, b)
  {
    EmitIsOut(streams, h, "", a, NOWHERE, 0);
    EmitIsOut(streams, h, "", b, NOWHERE, 0);
    OutSame(streams, h, "", a, "", b, NOWHERE, 0);
  }

  /**
   Duplicating the null of a single-null list is the one duplication that shows: under a field
   name the two lists contribute the same exactly when both or neither consist of one null.
   */
  lemma LoneNilShows(streams: iset<string>, h: string -> nat, s: string, s': string, tag: string, f: Field, g: Field,
                     place: Place, depth: nat)
    requires InjectiveOn(h, streams) && f.Child? && g.Child? && f.name == g.name != "" && f.via.ViaList? && g.via.ViaList?
    requires IsSorted(Place(tag, f.name)) && Same(f.child, g.child, Place(tag, f.name))
    requires FieldDigested(streams, h, s, tag, f, depth) && FieldDigested(streams, h, s', tag, g, depth)
    ensures OutField(h, tag, f, place, depth) == OutField(h, tag, g, place, depth) <==> (IsLoneNil(f) <==> IsLoneNil(g))
  {
    var here := Place(tag, f.name);
    if IsLoneNil(f) <==> IsLoneNil(g) {
      OutFieldSame(streams, h, s, s', tag, f, g, place, depth);
    } else {
      NullsEverywhere(f, g, here);
      OnlyNulls(h, f.child, here, depth + 1);
      OnlyNulls(h, g.child, here, depth + 1);
    }
  }

  lemma NullIsNull(x: Tree, y: Tree, place: Place)
    requires Same(x, y, place) && (x == Null || y == Null)
    ensures x == Null && y == Null
  {
  }

  lemma SameLists(a: Tree, b: Tree, here: Place)
    requires IsSorted(here) && Same(a, b, here) && (a.ListNode? || b.ListNode?)
    ensures a.ListNode? && b.ListNode?
    ensures forall i :: 0 <= i < |a.items| ==> FindsSame(a.items[i], b.items, here)
    ensures forall j :: 0 <= j < |b.items| ==> IsFound(a.items, b.items[j], here)
  {
    hide FindsSame, IsFound;
  }

  lemma NullsEverywhere(f: Field, g: Field, here: Place)
    requires f.Child? && g.Child? && f.via.ViaList? && g.via.ViaList? && IsSorted(here) && Same(f.child, g.child, here)
    requires !(IsLoneNil(f) <==> IsLoneNil(g))
    ensures f.child.ListNode? && g.child.ListNode? && f.child.items != [] && g.child.items != []
    ensures forall i :: 0 <= i < |f.child.items| ==> f.child.items[i] == Null
    ensures forall i :: 0 <= i < |g.child.items| ==> g.child.items[i] == Null
  {
    SameLists(f.child, g.child, here);
    hide Same, FindsSame, IsFound, IsSorted;
    var xs, ys := f.child.items, g.child.items;
    if xs == [Null] {
      var some := TheSame(xs[0], ys, here);
      forall j | 0 <= j < |ys| ensures ys[j] == Null {
        var i := TheFound(xs, ys[j], here);
        NullIsNull(xs[i], ys[j], here);
      }
    } else {
      var some := TheFound(xs, ys[0], here);
      forall i | 0 <= i < |xs| ensures xs[i] == Null {
        var j := TheSame(xs[i], ys, here);
        NullIsNull(xs[i], ys[j], here);
      }
    }
  }

  lemma OnlyNulls(h: string -> nat, t: Tree, place: Place, depth: nat)
    requires t.ListNode? && IsSorted(place) && forall i :: 0 <= i < |t.items| ==> t.items[i] == Null
    ensures OutNode(h, t, place, depth) == ""
  {
    if depth < DEPTH_LIMIT {
      var run := Firsts(Sort(ItemHashes(h, t.items, place, depth + 1)));
      RunFacts(h, t.items, place, depth + 1);
      NothingOut(h, t.items, run, place, depth + 1);
    }
  }

  lemma {:induction false} NothingOut(h: string -> nat, items: seq<Tree>, run: seq<Item>, place: Place, depth: nat)
    requires Positions(run, |items|) && forall i :: 0 <= i < |items| ==> items[i] == Null
    ensures OutRun(h, items, run, place, depth) == ""
    decreases |run|
  {
    if run != [] {
      NothingOut(h, items, run[..|run| - 1], place, depth);
    }
  }
}
