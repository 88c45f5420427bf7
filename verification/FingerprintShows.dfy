/**
 What a fingerprint shows: how each kind of node extends the stream, and that trees which differ
 in one visible text have different fingerprints.

 As for the congruence, the hash has to be injective on the streams whose digests are taken.
 */
module FingerprintShows {
  import opened FingerprintSpec
  import opened FingerprintSame

  // ----- texts -----

  lemma {:induction false} JoinedAppend(t: seq<string>, u: seq<string>)
    ensures Joined(t + u) == Joined(t) + Joined(u)
  {
    if u == [] {
      assert t + u == t;
      assert Joined(t) + "" == Joined(t);
    } else {
      var n := |u| - 1;
      JoinedAppend(t, u[..n]);
      assert (t + u)[..|t + u| - 1] == t + u[..n];
      assert Joined(t) + (Joined(u[..n]) + u[n]) == Joined(t) + Joined(u[..n]) + u[n];
    }
  }

  lemma JoinedOne(s: string)
    ensures Joined([s]) == s
  {
    assert [s][..0] == [];
    assert Joined([]) == "";
  }

  /** Every string of a scalar is written in full, one behind the other. */
  lemma ScalarShows(h: string -> nat, s: string, t: seq<string>, u: seq<string>, x: string, place: Place, depth: nat)
    requires depth < 100
    ensures EmitNode(h, s, Scalar([x]), place, depth) == s + x
    ensures EmitNode(h, s, Scalar(t + u), place, depth)
         == EmitNode(h, EmitNode(h, s, Scalar(t), place, depth), Scalar(u), place, depth)
    ensures EmitNode(h, s, Scalar([]), place, depth) == s
  {
    JoinedOne(x);
    JoinedAppend(t, u);
    assert Joined([]) == "" && s + "" == s;
    assert s + (Joined(t) + Joined(u)) == s + Joined(t) + Joined(u);
  }

  /** The String node of the name `a`, as its three strings. */
  lemma StringNode(h: string -> nat, a: string, place: Place)
    ensures EmitNode(h, "", Scalar(["String", "str", a]), place, 0) == "Stringstr" + a
  {
    hide EmitNode;
    ScalarShows(h, "", [], ["String"], "String", place, 0);
    ScalarShows(h, "String", ["String"], ["str"], "str", place, 0);
    ScalarShows(h, "Stringstr", ["String", "str"], [a], a, place, 0);
    ScalarShows(h, "", ["String"], ["str"], a, place, 0);
    ScalarShows(h, "", ["String", "str"], [a], a, place, 0);
    assert ["String"] + ["str"] == ["String", "str"] && ["String", "str"] + [a] == ["String", "str", a];
    assert "" + "String" == "String" && "String" + "str" == "Stringstr";
  }

  // ----- nodes -----

  lemma {:induction false} FieldsBefore(h: string -> nat, s: string, tag: string, fields: seq<Field>, f: Field, n: nat,
                                        place: Place, depth: nat)
    requires n <= |fields|
    ensures EmitFields(h, s, tag, fields + [f], n, place, depth) == EmitFields(h, s, tag, fields, n, place, depth)
  {
    hide EmitField;
    if n > 0 {
      FieldsBefore(h, s, tag, fields, f, n - 1, place, depth);
      assert (fields + [f])[n - 1] == fields[n - 1];
    }
  }

  /** A node without fields writes its tag, and every further field writes behind what is there. */
  lemma NextField(h: string -> nat, s: string, tag: string, fields: seq<Field>, f: Field, place: Place, depth: nat)
    requires depth < 100
    ensures EmitNode(h, s, Struct(tag, []), place, depth) == s + tag
    ensures EmitNode(h, s, Struct(tag, fields + [f]), place, depth)
         == EmitField(h, EmitNode(h, s, Struct(tag, fields), place, depth), tag, f, place, depth)
  {
    hide EmitField;
    assert EmitFields(h, s + tag, tag, [], 0, place, depth) == s + tag;
    FieldsBefore(h, s + tag, tag, fields, f, |fields|, place, depth);
    assert (fields + [f])[|fields|] == f;
  }

  /** Scalar text of a node is written like a scalar, except in the places where it is left out. */
  lemma TextShows(h: string -> nat, s: string, tag: string, fields: seq<Field>, text: seq<string>, hidden: set<Place>,
                  place: Place, depth: nat)
    requires depth < 100
    ensures var before := EmitNode(h, s, Struct(tag, fields), place, depth);
            EmitNode(h, s, Struct(tag, fields + [Text(text, hidden)]), place, depth)
            == if place in hidden then before else EmitNode(h, before, Scalar(text), place, depth)
  {
    NextField(h, s, tag, fields, Text(text, hidden), place, depth);
    var before := EmitNode(h, s, Struct(tag, fields), place, depth);
    TextField(h, before, tag, text, hidden, place, depth);
    hide *;
  }

  lemma TextField(h: string -> nat, s: string, tag: string, text: seq<string>, hidden: set<Place>, place: Place, depth: nat)
    requires depth < 100
    ensures EmitField(h, s, tag, Text(text, hidden), place, depth)
         == if place in hidden then s else EmitNode(h, s, Scalar(text), place, depth)
  {
  }

  /**
   A child writes the name of its field and then itself, one level deeper. When it has nothing to
   write the name goes again, unless the child is a list of one null.
   */
  lemma ChildShows(h: string -> nat, s: string, tag: string, fields: seq<Field>, name: string, via: Via, child: Tree,
                   place: Place, depth: nat)
    requires depth < 100 && (via.ViaNode? || via.ViaList?)
    requires var named := EmitNode(h, s, Struct(tag, fields), place, depth) + name;
             var after := EmitNode(h, named, child, Place(tag, name), depth + 1);
             h(named) == h(after) ==> named == after
    ensures var before := EmitNode(h, s, Struct(tag, fields), place, depth);
            var after := EmitNode(h, before + name, child, Place(tag, name), depth + 1);
            EmitNode(h, s, Struct(tag, fields + [Child(name, via, child)]), place, depth)
            == if via.ViaNode? && child.Null? then before
               else if via.ViaList? && (!child.ListNode? || child.items == []) then before
               else if after == before + name && !(via.ViaList? && child.items == [Null]) then before
               else after
  {
    NextField(h, s, tag, fields, Child(name, via, child), place, depth);
    var before := EmitNode(h, s, Struct(tag, fields), place, depth);
    ChildField(h, before, tag, name, via, child, place, depth);
    hide *;
  }

  lemma ChildField(h: string -> nat, s: string, tag: string, name: string, via: Via, child: Tree, place: Place, depth: nat)
    requires via.ViaNode? || via.ViaList?
    requires var after := EmitNode(h, s + name, child, Place(tag, name), depth + 1);
             h(s + name) == h(after) ==> s + name == after
    ensures var after := EmitNode(h, s + name, child, Place(tag, name), depth + 1);
            EmitField(h, s, tag, Child(name, via, child), place, depth)
            == if via.ViaNode? && child.Null? then s
               else if via.ViaList? && (!child.ListNode? || child.items == []) then s
               else if after == s + name && !(via.ViaList? && child.items == [Null]) then s
               else after
  {
    hide EmitNode, EmitFields;
  }

  /** Null pointers, nodes that are ignored, and everything from depth 100 on write nothing. */
  lemma NothingShows(h: string -> nat, s: string, t: Tree, place: Place, depth: nat)
    requires t == Null || t == Ignored || depth >= 100
    ensures EmitNode(h, s, t, place, depth) == s
  {
  }

  /** A child whose own function is called writes its name and what it writes as a node, without the tag. */
  lemma DirectShows(streams: iset<string>, h: string -> nat, s: string, tag: string, name: string, child: Tree,
                    x: string, place: Place, depth: nat) returns (out: string)
    requires child.Struct? && depth + 1 < 100 && InjectiveOn(h, streams)
    requires FieldDigested(streams, h, s, tag, Child(name, Direct, child), depth)
    requires Digested(streams, h, x, child, Place(tag, name), depth + 1)
    ensures EmitNode(h, x, child, Place(tag, name), depth + 1) == x + child.tag + out
    ensures EmitField(h, s, tag, Child(name, Direct, child), place, depth) == s + if out == "" then "" else name + out
  {
    var f, here := Child(name, Direct, child), Place(tag, name);
    out := OutFields(h, child.tag, child.fields, |child.fields|, here, depth + 1);
    EmitIsOut(streams, h, x, child, here, depth + 1);
    EmitFieldIsOut(streams, h, s, tag, f, place, depth);
    assert x + (child.tag + out) == x + child.tag + out;
    hide EmitNode, EmitFields, EmitField, Digested, FieldDigested, OutFields;
  }

  // ----- lists -----

  lemma {:induction false} ItemsBefore(h: string -> nat, s: string, items: seq<Tree>, t: Tree, n: nat, place: Place, depth: nat)
    requires n <= |items|
    ensures EmitItems(h, s, items + [t], n, place, depth) == EmitItems(h, s, items, n, place, depth)
  {
    hide EmitNode;
    if n > 0 {
      ItemsBefore(h, s, items, t, n - 1, place, depth);
      assert (items + [t])[n - 1] == items[n - 1];
    }
  }

  /** The items of a list that is not sorted are written in their order. */
  lemma ItemShows(h: string -> nat, s: string, id: nat, items: seq<Tree>, t: Tree, place: Place, depth: nat)
    requires depth < 100 && place.field !in {"fromClause", "targetList", "cols", "rexpr", "valuesLists", "args"}
    ensures EmitNode(h, s, ListNode(id, []), place, depth) == s
    ensures EmitNode(h, s, ListNode(id, items + [t]), place, depth)
         == EmitNode(h, EmitNode(h, s, ListNode(id, items), place, depth), t, place, depth + 1)
  {
    assert !IsSorted(place);
    ItemsBefore(h, s, items, t, |items|, place, depth + 1);
    assert (items + [t])[|items|] == t;
  }

  /** What the items at the positions of a run contribute. */
  function Parts(h: string -> nat, items: seq<Tree>, run: seq<Item>, place: Place, depth: nat): (parts: seq<string>)
    requires Positions(run, |items|)
    ensures |parts| == |run| && forall k :: 0 <= k < |run| ==> parts[k] == OutNode(h, items[run[k].pos], place, depth)
  {
    seq(|run|, k requires 0 <= k < |run| => OutNode(h, items[run[k].pos], place, depth))
  }

  lemma {:induction false} PartsAre(h: string -> nat, items: seq<Tree>, run: seq<Item>, place: Place, depth: nat)
    requires Positions(run, |items|)
    ensures OutRun(h, items, run, place, depth) == Joined(Parts(h, items, run, place, depth))
    decreases |run|
  {
    hide OutNode;
    if run != [] {
      var n := |run| - 1;
      PartsAre(h, items, run[..n], place, depth);
      assert Parts(h, items, run, place, depth)[..n] == Parts(h, items, run[..n], place, depth);
    }
  }

  ghost predicate AscendingHashes(h: string -> nat, parts: seq<string>) {
    forall j, k :: 0 <= j < k < |parts| ==> h(parts[j]) < h(parts[k])
  }

  /** `part` is what the item writes on its own. */
  ghost predicate IsPart(h: string -> nat, items: seq<Tree>, place: Place, depth: nat, part: string) {
    exists i :: 0 <= i < |items| && part == EmitNode(h, "", items[i], place, depth)
  }

  lemma PartOf(streams: iset<string>, h: string -> nat, items: seq<Tree>, place: Place, depth: nat, i: nat)
    requires InjectiveOn(h, streams) && ItemsDigested(streams, h, items, place, depth) && i < |items|
    ensures EmitNode(h, "", items[i], place, depth) == OutNode(h, items[i], place, depth)
    ensures ItemHashes(h, items, place, depth)[i] == h(OutNode(h, items[i], place, depth))
    ensures OutNode(h, items[i], place, depth) in streams
  {
    hide InjectiveOn, EmitNode, Digested, OutNode, ItemHashes;
    ItemsTell(streams, h, items, place, depth);
    EmitIsOut(streams, h, "", items[i], place, depth);
    assert "" + OutNode(h, items[i], place, depth) == OutNode(h, items[i], place, depth);
  }

  /** A sorted list writes what its items write, every text once, in the order of the digests. */
  lemma SortedShows(streams: iset<string>, h: string -> nat, s: string, id: nat, items: seq<Tree>, place: Place, depth: nat)
    returns (parts: seq<string>)
    requires depth < 100 && place.field in {"fromClause", "targetList", "cols", "rexpr", "valuesLists", "args"}
    requires InjectiveOn(h, streams) && Digested(streams, h, s, ListNode(id, items), place, depth)
    ensures AscendingHashes(h, parts)
    ensures forall x :: x in parts <==> IsPart(h, items, place, depth + 1, x)
    ensures EmitNode(h, s, ListNode(id, items), place, depth) == EmitNode(h, s, Scalar(parts), place, depth)
  {
    assert IsSorted(place);
    EmitIsOut(streams, h, s, ListNode(id, items), place, depth);
    RunFacts(h, items, place, depth + 1);
    var run := Firsts(Sort(ItemHashes(h, items, place, depth + 1)));
    parts := Parts(h, items, run, place, depth + 1);
    PartsAre(h, items, run, place, depth + 1);
    hide ItemHashes, Sort, Firsts, Positions, Strict;
    PartsAscend(streams, h, items, run, place, depth + 1);
    PartsComplete(streams, h, items, run, place, depth + 1);
  }

  lemma PartsAscend(streams: iset<string>, h: string -> nat, items: seq<Tree>, run: seq<Item>, place: Place, depth: nat)
    requires InjectiveOn(h, streams) && ItemsDigested(streams, h, items, place, depth)
    requires Strict(run) && Positions(run, |items|)
    requires forall k :: 0 <= k < |run| ==> run[k].hash == ItemHashes(h, items, place, depth)[run[k].pos]
    ensures AscendingHashes(h, Parts(h, items, run, place, depth))
  {
    var parts := Parts(h, items, run, place, depth);
    forall k | 0 <= k < |run| ensures h(parts[k]) == run[k].hash {
      PartOf(streams, h, items, place, depth, run[k].pos);
    }
  }

  lemma PartsComplete(streams: iset<string>, h: string -> nat, items: seq<Tree>, run: seq<Item>, place: Place, depth: nat)
    requires InjectiveOn(h, streams) && ItemsDigested(streams, h, items, place, depth) && Positions(run, |items|)
    requires forall k :: 0 <= k < |run| ==> run[k].hash == ItemHashes(h, items, place, depth)[run[k].pos]
    requires forall i :: 0 <= i < |items| ==> HashIn(ItemHashes(h, items, place, depth)[i], run)
    ensures forall x :: x in Parts(h, items, run, place, depth) <==> IsPart(h, items, place, depth, x)
  {
    var parts := Parts(h, items, run, place, depth);
    forall x ensures x in parts <==> IsPart(h, items, place, depth, x) {
      if x in parts {
        var k :| 0 <= k < |parts| && parts[k] == x;
        PartOf(streams, h, items, place, depth, run[k].pos);
      }
      if IsPart(h, items, place, depth, x) {
        var i :| 0 <= i < |items| && x == EmitNode(h, "", items[i], place, depth);
        PartOf(streams, h, items, place, depth, i);
        var k :| 0 <= k < |run| && run[k].hash == ItemHashes(h, items, place, depth)[i];
        PartOf(streams, h, items, place, depth, run[k].pos);
        assert parts[k] == x;
      }
    }
  }

  // ----- two trees that differ in one text -----

  ghost predicate OneString(t: seq<string>, u: seq<string>) {
    |t| == |u| && exists k :: 0 <= k < |t| && t[k] != u[k] && u == t[k := u[k]]
  }

  function Digest(h: string -> nat, t: Tree, place: Place, depth: nat): nat {
    h(EmitNode(h, "", t, place, depth))
  }

  /** Among the digests of the other items the one of item `k` has the same place in both lists. */
  ghost predicate KeepsRank(h: string -> nat, items: seq<Tree>, others: seq<Tree>, k: nat, place: Place, depth: nat)
    requires k < |items| == |others|
  {
    var x, y := Digest(h, items[k], place, depth), Digest(h, others[k], place, depth);
    forall j :: 0 <= j < |items| && j != k ==>
      var d := Digest(h, items[j], place, depth); (d < x <==> d < y) && (x < d <==> y < d)
  }

  /** The trees are the same but for one string that is written. */
  ghost predicate OneText(h: string -> nat, a: Tree, b: Tree, place: Place, depth: nat)
    decreases a, 0
  {
    depth < 100 &&
    match a
    case Scalar(text) => b.Scalar? && OneString(text, b.text)
    case Struct(tag, fields) => b.Struct? && b.tag == tag && OneField(h, tag, fields, b.fields, place, depth)
    case ListNode(_, items) => b.ListNode? && OneItem(h, items, b.items, place, depth + 1)
    case _ => false
  }

  /** In a list that is sorted by digest the item has to keep its place. */
  ghost predicate OneItem(h: string -> nat, items: seq<Tree>, others: seq<Tree>, place: Place, depth: nat)
    decreases items, 1
  {
    |items| == |others| &&
    exists k :: 0 <= k < |items| && others == items[k := others[k]] && OneText(h, items[k], others[k], place, depth)
                && (IsSorted(place) ==> KeepsRank(h, items, others, k, place, depth))
  }

  ghost predicate OneField(h: string -> nat, tag: string, fields: seq<Field>, others: seq<Field>, place: Place, depth: nat)
    decreases fields, 1
  {
    |fields| == |others| &&
    exists k :: 0 <= k < |fields| && others == fields[k := others[k]] && InField(h, tag, fields[k], others[k], place, depth)
  }

  ghost predicate InField(h: string -> nat, tag: string, f: Field, g: Field, place: Place, depth: nat)
    decreases f, 0
  {
    if f.Text? then g.Text? && g.hidden == f.hidden && place !in f.hidden && OneString(f.text, g.text)
    else
      var here := Place(tag, f.name);
      && g.Child? && g.name == f.name && g.via == f.via
      && match f.via
         case ViaNode => OneText(h, f.child, g.child, here, depth + 1)
         case ViaList => f.child.ListNode? && OneText(h, f.child, g.child, here, depth + 1)
         case Direct => f.child.Struct? && g.child.Struct? && g.child.tag == f.child.tag
                        && OneField(h, f.child.tag, f.child.fields, g.child.fields, here, depth + 1)
  }

  lemma Cancel(a: string, x: string, y: string, b: string)
    requires x != y
    ensures a + x + b != a + y + b && a + x != a + y && x + b != y + b
  {
    if |x| == |y| {
      var k :| 0 <= k < |x| && x[k] != y[k];
      assert (a + x + b)[|a| + k] == x[k] && (a + y + b)[|a| + k] == y[k];
      assert (a + x)[|a| + k] == x[k] && (a + y)[|a| + k] == y[k];
      assert (x + b)[k] == x[k] && (y + b)[k] == y[k];
    } else {
      assert |a + x + b| != |a + y + b|;
      assert |a + x| != |a + y|;
      assert |x + b| != |y + b|;
    }
  }

  lemma SplitAt(t: seq<string>, k: nat)
    requires k < |t|
    ensures t == t[..k] + [t[k]] + t[k + 1..]
  {
  }

  lemma JoinedAround(t: seq<string>, k: nat)
    requires k < |t|
    ensures Joined(t) == Joined(t[..k]) + t[k] + Joined(t[k + 1..])
  {
    hide Joined;
    var rest := t[k + 1..];
    SplitAt(t, k);
    JoinedAppend(t[..k] + [t[k]], rest);
    JoinedAppend(t[..k], [t[k]]);
    JoinedOne(t[k]);
  }

  lemma OneStringShows(t: seq<string>, u: seq<string>)
    requires OneString(t, u)
    ensures Joined(t) != Joined(u)
  {
    hide Joined;
    var k :| 0 <= k < |t| && t[k] != u[k] && u == t[k := u[k]];
    assert t[..k] == u[..k] && t[k + 1..] == u[k + 1..];
    JoinedAround(t, k);
    JoinedAround(u, k);
    Cancel(Joined(t[..k]), t[k], u[k], Joined(t[k + 1..]));
  }

  // ----- the place of an item among the digests -----

  lemma NotEmpty(p: seq<string>, q: seq<string>)
    requires p != [] && forall x :: x in p <==> x in q
    ensures q != []
  {
    assert p[0] in q;
  }

  lemma {:induction false} SameParts(h: string -> nat, p: seq<string>, q: seq<string>)
    requires AscendingHashes(h, p) && AscendingHashes(h, q) && forall x :: x in p <==> x in q
    ensures p == q
  {
    if q != [] {
      NotEmpty(q, p);
    }
    if p != [] {
      NotEmpty(p, q);
      var m, n := |p| - 1, |q| - 1;
      assert p[m] in q && q[n] in p;
      assert p[m] == q[n];
      forall x ensures x in p[..m] <==> x in q[..n] {
        assert x in p[..m] <==> x in p && x != p[m] by { WithoutLast(h, p, x); }
        assert x in q[..n] <==> x in q && x != q[n] by { WithoutLast(h, q, x); }
      }
      SameParts(h, p[..m], q[..n]);
      assert p == p[..m] + [p[m]] && q == q[..n] + [q[n]];
    }
  }

  lemma WithoutLast(h: string -> nat, p: seq<string>, x: string)
    requires AscendingHashes(h, p) && p != []
    ensures x in p[..|p| - 1] <==> x in p && x != p[|p| - 1]
  {
    var n := |p| - 1;
    if x in p[..n] {
      var k :| 0 <= k < n && p[k] == x;
      assert h(p[k]) < h(p[n]);
    }
    if x in p && x != p[n] {
      var k :| 0 <= k < |p| && p[k] == x;
      assert p[..n][k] == x;
    }
  }

  /** Ascending texts around one of them. */
  lemma Around(h: string -> nat, p: seq<string>, i: nat)
    requires AscendingHashes(h, p) && i < |p|
    ensures AscendingHashes(h, p[..i]) && AscendingHashes(h, p[i + 1..])
    ensures forall x :: x in p[..i] <==> x in p && h(x) < h(p[i])
    ensures var rest := p[i + 1..]; forall x :: x in rest <==> x in p && h(p[i]) < h(x)
  {
    var rest := p[i + 1..];
    forall x ensures x in p[..i] <==> x in p && h(x) < h(p[i]) {
      if x in p && h(x) < h(p[i]) {
        var k :| 0 <= k < |p| && p[k] == x;
        assert p[..i][k] == x;
      }
    }
    forall x ensures x in rest <==> x in p && h(p[i]) < h(x) {
      if x in p && h(p[i]) < h(x) {
        var k :| 0 <= k < |p| && p[k] == x;
        assert rest[k - i - 1] == x;
      }
    }
  }

  // ----- the difference shows -----

  lemma {:induction false} ItemsUpTo(h: string -> nat, items: seq<Tree>, others: seq<Tree>, n: nat, place: Place, depth: nat)
    requires n <= |items| == |others| && items[..n] == others[..n]
    ensures OutItems(h, items, n, place, depth) == OutItems(h, others, n, place, depth)
  {
    hide OutNode;
    if n > 0 {
      assert items[..n - 1] == items[..n][..n - 1] == others[..n][..n - 1] == others[..n - 1];
      assert items[n - 1] == items[..n][n - 1] == others[..n][n - 1];
      ItemsUpTo(h, items, others, n - 1, place, depth);
    }
  }

  lemma {:induction false} FieldsUpTo(h: string -> nat, tag: string, fields: seq<Field>, others: seq<Field>, n: nat,
                                      place: Place, depth: nat)
    requires n <= |fields| == |others| && fields[..n] == others[..n]
    ensures OutFields(h, tag, fields, n, place, depth) == OutFields(h, tag, others, n, place, depth)
  {
    hide OutField;
    if n > 0 {
      assert fields[..n - 1] == fields[..n][..n - 1] == others[..n][..n - 1] == others[..n - 1];
      assert fields[n - 1] == fields[..n][n - 1] == others[..n][n - 1];
      FieldsUpTo(h, tag, fields, others, n - 1, place, depth);
    }
  }

  /** Behind a difference the texts stay different. */
  lemma {:induction false} ItemsDiffer(h: string -> nat, items: seq<Tree>, others: seq<Tree>, k: nat, n: nat, place: Place, depth: nat)
    requires k < n <= |items| == |others| && others == items[k := others[k]]
    requires OutNode(h, items[k], place, depth) != OutNode(h, others[k], place, depth)
    ensures OutItems(h, items, n, place, depth) != OutItems(h, others, n, place, depth)
    decreases n
  {
    hide OutNode;
    var x, y := OutNode(h, items[n - 1], place, depth), OutNode(h, others[n - 1], place, depth);
    if n - 1 == k {
      ItemsUpTo(h, items, others, k, place, depth);
      Cancel(OutItems(h, items, k, place, depth), x, y, "");
    } else {
      ItemsDiffer(h, items, others, k, n - 1, place, depth);
      Cancel("", OutItems(h, items, n - 1, place, depth), OutItems(h, others, n - 1, place, depth), x);
    }
  }

  lemma {:induction false} FieldsDiffer(h: string -> nat, tag: string, fields: seq<Field>, others: seq<Field>, k: nat, n: nat,
                                        place: Place, depth: nat)
    requires k < n <= |fields| == |others| && others == fields[k := others[k]]
    requires OutField(h, tag, fields[k], place, depth) != OutField(h, tag, others[k], place, depth)
    ensures OutFields(h, tag, fields, n, place, depth) != OutFields(h, tag, others, n, place, depth)
    decreases n
  {
    hide OutField;
    var x, y := OutField(h, tag, fields[n - 1], place, depth), OutField(h, tag, others[n - 1], place, depth);
    if n - 1 == k {
      FieldsUpTo(h, tag, fields, others, k, place, depth);
      Cancel(OutFields(h, tag, fields, k, place, depth), x, y, "");
    } else {
      FieldsDiffer(h, tag, fields, others, k, n - 1, place, depth);
      Cancel("", OutFields(h, tag, fields, n - 1, place, depth), OutFields(h, tag, others, n - 1, place, depth), x);
    }
  }

  /** An item that keeps its rank is the only difference between the sorted texts. */
  lemma SortedDiffer(h: string -> nat, p: seq<string>, q: seq<string>, i: nat, j: nat)
    requires AscendingHashes(h, p) && AscendingHashes(h, q) && i < |p| && j < |q| && p[i] != q[j]
    requires forall z :: z in p && h(z) < h(p[i]) <==> z in q && h(z) < h(q[j])
    requires forall z :: z in p && h(p[i]) < h(z) <==> z in q && h(q[j]) < h(z)
    ensures Joined(p) != Joined(q)
  {
    hide AscendingHashes, Joined;
    Around(h, p, i);
    Around(h, q, j);
    var p', q' := p[i + 1..], q[j + 1..];
    SameParts(h, p[..i], q[..j]);
    SameParts(h, p', q');
    JoinedAround(p, i);
    JoinedAround(q, j);
    Cancel(Joined(p[..i]), p[i], q[j], Joined(p'));
  }

  ghost predicate ItemsOf(h: string -> nat, items: seq<Tree>, place: Place, depth: nat, parts: seq<string>) {
    AscendingHashes(h, parts) && forall x :: x in parts <==> IsPart(h, items, place, depth, x)
  }

  /** Texts of other items on the same side of the one that differs. */
  lemma RankCarries(h: string -> nat, items: seq<Tree>, others: seq<Tree>, k: nat, place: Place, depth: nat, z: string)
    requires k < |items| == |others| && others == items[k := others[k]] && KeepsRank(h, items, others, k, place, depth)
    requires IsPart(h, items, place, depth, z) && h(z) != Digest(h, items[k], place, depth)
    ensures IsPart(h, others, place, depth, z)
    ensures h(z) < Digest(h, items[k], place, depth) <==> h(z) < Digest(h, others[k], place, depth)
    ensures Digest(h, items[k], place, depth) < h(z) <==> Digest(h, others[k], place, depth) < h(z)
  {
    hide EmitNode;
    var m :| 0 <= m < |items| && z == EmitNode(h, "", items[m], place, depth);
    assert m != k && others[m] == items[m];
    assert h(z) == Digest(h, items[m], place, depth);
  }

  lemma RankBothWays(h: string -> nat, items: seq<Tree>, others: seq<Tree>, k: nat, place: Place, depth: nat)
    requires k < |items| == |others| && others == items[k := others[k]] && KeepsRank(h, items, others, k, place, depth)
    ensures items == others[k := items[k]] && KeepsRank(h, others, items, k, place, depth)
  {
    hide EmitNode;
  }

  lemma SortedPartsDiffer(h: string -> nat, items: seq<Tree>, others: seq<Tree>, k: nat, place: Place, depth: nat,
                          p: seq<string>, q: seq<string>)
    requires k < |items| == |others| && others == items[k := others[k]] && KeepsRank(h, items, others, k, place, depth)
    requires EmitNode(h, "", items[k], place, depth) != EmitNode(h, "", others[k], place, depth)
    requires ItemsOf(h, items, place, depth, p) && ItemsOf(h, others, place, depth, q)
    ensures Joined(p) != Joined(q)
  {
    hide EmitNode, KeepsRank, Joined;
    RankBothWays(h, items, others, k, place, depth);
    var x, y := EmitNode(h, "", items[k], place, depth), EmitNode(h, "", others[k], place, depth);
    assert IsPart(h, items, place, depth, x) && IsPart(h, others, place, depth, y);
    var i :| 0 <= i < |p| && p[i] == x;
    var j :| 0 <= j < |q| && q[j] == y;
    forall z ensures z in p && h(z) < h(x) <==> z in q && h(z) < h(y) {
      Sides(h, items, others, k, place, depth, z);
    }
    forall z ensures z in p && h(x) < h(z) <==> z in q && h(y) < h(z) {
      Sides(h, items, others, k, place, depth, z);
    }
    SortedDiffer(h, p, q, i, j);
  }

  lemma Sides(h: string -> nat, items: seq<Tree>, others: seq<Tree>, k: nat, place: Place, depth: nat, z: string)
    requires k < |items| == |others| && others == items[k := others[k]] && KeepsRank(h, items, others, k, place, depth)
    ensures var x, y := Digest(h, items[k], place, depth), Digest(h, others[k], place, depth);
            && (IsPart(h, items, place, depth, z) && h(z) < x <==> IsPart(h, others, place, depth, z) && h(z) < y)
            && (IsPart(h, items, place, depth, z) && x < h(z) <==> IsPart(h, others, place, depth, z) && y < h(z))
  {
    hide EmitNode, KeepsRank, IsPart, Digest;
    RankBothWays(h, items, others, k, place, depth);
    if IsPart(h, items, place, depth, z) && h(z) != Digest(h, items[k], place, depth) {
      RankCarries(h, items, others, k, place, depth, z);
    }
    if IsPart(h, others, place, depth, z) && h(z) != Digest(h, others[k], place, depth) {
      RankCarries(h, others, items, k, place, depth, z);
    }
  }

  /** The run of a sorted list as texts. */
  lemma RunParts(streams: iset<string>, h: string -> nat, items: seq<Tree>, place: Place, depth: nat) returns (parts: seq<string>)
    requires InjectiveOn(h, streams) && ItemsDigested(streams, h, items, place, depth)
    ensures ItemsOf(h, items, place, depth, parts)
    ensures var run := Firsts(Sort(ItemHashes(h, items, place, depth)));
            Positions(run, |items|) && OutRun(h, items, run, place, depth) == Joined(parts)
  {
    RunFacts(h, items, place, depth);
    var run := Firsts(Sort(ItemHashes(h, items, place, depth)));
    hide ItemHashes, Sort, Firsts, Positions, Strict;
    parts := Parts(h, items, run, place, depth);
    PartsAre(h, items, run, place, depth);
    PartsAscend(streams, h, items, run, place, depth);
    PartsComplete(streams, h, items, run, place, depth);
  }

  lemma ItemShowsSorted(streams: iset<string>, h: string -> nat, items: seq<Tree>, others: seq<Tree>, k: nat, place: Place, depth: nat)
    requires InjectiveOn(h, streams)
    requires ItemsDigested(streams, h, items, place, depth) && ItemsDigested(streams, h, others, place, depth)
    requires k < |items| == |others| && others == items[k := others[k]] && KeepsRank(h, items, others, k, place, depth)
    requires OutNode(h, items[k], place, depth) != OutNode(h, others[k], place, depth)
    ensures var p, q := Firsts(Sort(ItemHashes(h, items, place, depth))), Firsts(Sort(ItemHashes(h, others, place, depth)));
            Positions(p, |items|) && Positions(q, |others|)
            && OutRun(h, items, p, place, depth) != OutRun(h, others, q, place, depth)
  {
    hide *;
    PartOf(streams, h, items, place, depth, k);
    PartOf(streams, h, others, place, depth, k);
    var p := RunParts(streams, h, items, place, depth);
    var q := RunParts(streams, h, others, place, depth);
    SortedPartsDiffer(h, items, others, k, place, depth, p, q);
  }

  lemma {:induction false} DigestedField(streams: iset<string>, h: string -> nat, s: string, tag: string, fields: seq<Field>,
                                         n: nat, k: nat, place: Place, depth: nat) returns (before: string)
    requires k < n <= |fields| && FieldsDigested(streams, h, s, tag, fields, n, place, depth)
    ensures FieldDigested(streams, h, before, tag, fields[k], depth)
  {
    hide FieldDigested;
    if k == n - 1 {
      before := EmitFields(h, s, tag, fields, n - 1, place, depth);
    } else {
      before := DigestedField(streams, h, s, tag, fields, n - 1, k, place, depth);
    }
  }

  lemma {:induction false} DigestedItem(streams: iset<string>, h: string -> nat, s: string, items: seq<Tree>, n: nat, k: nat,
                                        place: Place, depth: nat) returns (before: string)
    requires k < n <= |items| && ListDigested(streams, h, s, items, n, place, depth)
    ensures Digested(streams, h, before, items[k], place, depth)
  {
    hide Digested;
    if k == n - 1 {
      before := EmitItems(h, s, items, n - 1, place, depth);
    } else {
      before := DigestedItem(streams, h, s, items, n - 1, k, place, depth);
    }
  }

  /** One text that differs makes what the trees contribute differ. */
  lemma {:induction false} TextTells(streams: iset<string>, h: string -> nat, s: string, a: Tree, s': string, b: Tree,
                                     place: Place, depth: nat)
    requires InjectiveOn(h, streams) && OneText(h, a, b, place, depth)
    requires Digested(streams, h, s, a, place, depth) && Digested(streams, h, s', b, place, depth)
    ensures OutNode(h, a, place, depth) != OutNode(h, b, place, depth)
    decreases a, 0
  {
    match a {
      case Scalar(text) => OneStringShows(text, b.text);
      case Struct(tag, fields) =>
        FieldTells(streams, h, s + tag, s' + tag, tag, fields, b.fields, place, depth);
        var x, y := OutFields(h, tag, fields, |fields|, place, depth), OutFields(h, tag, b.fields, |b.fields|, place, depth);
        hide OutFields;
        Cancel(tag, x, y, "");
      case ListNode(_, items) => ItemTells(streams, h, s, s', items, b.items, place, depth);
    }
  }

  lemma {:induction false} ItemTells(streams: iset<string>, h: string -> nat, s: string, s': string, items: seq<Tree>,
                                     others: seq<Tree>, place: Place, depth: nat)
    requires InjectiveOn(h, streams) && depth < DEPTH_LIMIT && OneItem(h, items, others, place, depth + 1)
    requires Digested(streams, h, s, ListNode(0, items), place, depth) && Digested(streams, h, s', ListNode(0, others), place, depth)
    ensures OutNode(h, ListNode(0, items), place, depth) != OutNode(h, ListNode(0, others), place, depth)
    decreases items, 1
  {
    var k :| 0 <= k < |items| && others == items[k := others[k]] && OneText(h, items[k], others[k], place, depth + 1)
             && (IsSorted(place) ==> KeepsRank(h, items, others, k, place, depth + 1));
    if IsSorted(place) {
      TextTells(streams, h, "", items[k], "", others[k], place, depth + 1);
      ItemShowsSorted(streams, h, items, others, k, place, depth + 1);
    } else {
      var before := DigestedItem(streams, h, s, items, |items|, k, place, depth + 1);
      var before' := DigestedItem(streams, h, s', others, |others|, k, place, depth + 1);
      TextTells(streams, h, before, items[k], before', others[k], place, depth + 1);
      ItemsDiffer(h, items, others, k, |items|, place, depth + 1);
    }
  }

  lemma {:induction false} FieldTells(streams: iset<string>, h: string -> nat, s: string, s': string, tag: string,
                                      fields: seq<Field>, others: seq<Field>, place: Place, depth: nat)
    requires InjectiveOn(h, streams) && OneField(h, tag, fields, others, place, depth)
    requires FieldsDigested(streams, h, s, tag, fields, |fields|, place, depth)
    requires FieldsDigested(streams, h, s', tag, others, |others|, place, depth)
    ensures OutFields(h, tag, fields, |fields|, place, depth) != OutFields(h, tag, others, |others|, place, depth)
    decreases fields, 1
  {
    var k :| 0 <= k < |fields| && others == fields[k := others[k]] && InField(h, tag, fields[k], others[k], place, depth);
    var before := DigestedField(streams, h, s, tag, fields, |fields|, k, place, depth);
    var before' := DigestedField(streams, h, s', tag, others, |others|, k, place, depth);
    hide OutFields, FieldsDigested, FieldDigested, OutField, InjectiveOn;
    InFieldTells(streams, h, before, before', tag, fields[k], others[k], place, depth);
    FieldsDiffer(h, tag, fields, others, k, |fields|, place, depth);
  }

  lemma {:induction false} InFieldTells(streams: iset<string>, h: string -> nat, s: string, s': string, tag: string,
                                        f: Field, g: Field, place: Place, depth: nat)
    requires InjectiveOn(h, streams) && InField(h, tag, f, g, place, depth)
    requires FieldDigested(streams, h, s, tag, f, depth) && FieldDigested(streams, h, s', tag, g, depth)
    ensures OutField(h, tag, f, place, depth) != OutField(h, tag, g, place, depth)
    decreases f, 0
  {
    if f.Text? {
      OneStringShows(f.text, g.text);
    } else {
      VisitedBoth(h, tag, f, g, place, depth);
      var here := Place(tag, f.name);
      if f.via.Direct? {
        FieldTells(streams, h, s + f.name, s' + f.name, f.child.tag, f.child.fields, g.child.fields, here, depth + 1);
      } else {
        TextTells(streams, h, s + f.name, f.child, s' + f.name, g.child, here, depth + 1);
      }
      var x, y := OutChild(h, tag, f, depth), OutChild(h, tag, g, depth);
      assert x != y;
      hide OutChild;
      Cancel(f.name, x, y, "");
      NameIsLonger(f.name, x);
      NameIsLonger(f.name, y);
    }
  }

  lemma NameIsLonger(name: string, x: string)
    ensures x != "" ==> name + x != ""
  {
  }

  lemma VisitedBoth(h: string -> nat, tag: string, f: Field, g: Field, place: Place, depth: nat)
    requires f.Child? && InField(h, tag, f, g, place, depth)
    ensures IsVisited(f) && IsVisited(g) && !IsLoneNil(f) && !IsLoneNil(g)
  {
    if f.via.ViaList? {
      NotOneNull(h, f.child.items, g.child.items, Place(tag, f.name), depth + 2);
    }
  }

  lemma NotOneNull(h: string -> nat, items: seq<Tree>, others: seq<Tree>, place: Place, depth: nat)
    requires OneItem(h, items, others, place, depth)
    ensures items != [] && others != [] && items != [Null] && others != [Null]
  {
    hide KeepsRank;
    var k :| 0 <= k < |items| && others == items[k := others[k]] && OneText(h, items[k], others[k], place, depth);
    assert items[k] != Null && others[k] != Null;
  }

  /** Trees that differ in one visible text have different fingerprints. */
  lemma OneTextShows(streams: iset<string>, h: string -> nat, a: Tree, b: Tree)
    requires InjectiveOn(h, streams) && OneText(h, a, b, Place("", ""), 0)
    requires Digested(streams, h, "", a, NOWHERE, 0) && Digested(streams, h, "", b, NOWHERE, 0)
    requires EmitNode(h, "", a, NOWHERE, 0) in streams && EmitNode(h, "", b, NOWHERE, 0) in streams
    ensures Fingerprint(h, a) != Fingerprint(h, b)
  {
    TextTells(streams, h, "", a, "", b, NOWHERE, 0);
    EmitIsOut(streams, h, "", a, NOWHERE, 0);
    EmitIsOut(streams, h, "", b, NOWHERE, 0);
    hide OutNode, EmitNode, Digested, OneText;
    Cancel("", OutNode(h, a, NOWHERE, 0), OutNode(h, b, NOWHERE, 0), "");
  }

  // ----- the rank matters -----

  lemma {:induction false} ScalarRun(streams: iset<string>, h: string -> nat, s: string, items: seq<Tree>, run: seq<Item>,
                                     place: Place, depth: nat)
    requires Positions(run, |items|) && forall i :: 0 <= i < |items| ==> items[i].Scalar?
    ensures RunDigested(streams, h, s, items, run, place, depth)
    decreases |run|
  {
    hide EmitRun;
    if run != [] {
      ScalarRun(streams, h, s, items, run[..|run| - 1], place, depth);
    }
  }

  lemma ScalarsDigested(streams: iset<string>, h: string -> nat, s: string, items: seq<Tree>, place: Place)
    requires IsSorted(place) && ItemsDigested(streams, h, items, place, 1) && forall i :: 0 <= i < |items| ==> items[i].Scalar?
    ensures Digested(streams, h, s, ListNode(0, items), place, 0)
  {
    RunFacts(h, items, place, 1);
    ScalarRun(streams, h, s, items, Firsts(Sort(ItemHashes(h, items, place, 1))), place, 1);
    hide RunDigested, EmitNode;
  }

  function Pair(x: string): seq<Tree> {
    [Scalar([x]), Scalar(["a"])]
  }

  lemma PairDigested(h: string -> nat, s: string, x: string, place: Place)
    requires IsSorted(place)
    ensures ItemsDigested(iset{x, "a"}, h, Pair(x), place, 1) && Digested(iset{x, "a"}, h, s, ListNode(0, Pair(x)), place, 0)
    ensures forall z :: IsPart(h, Pair(x), place, 1, z) <==> z == x || z == "a"
  {
    var items := Pair(x);
    ScalarShows(h, "", [], [], x, place, 1);
    ScalarShows(h, "", [], [], "a", place, 1);
    assert "" + x == x && "" + "a" == "a";
    hide EmitNode;
    forall z ensures IsPart(h, items, place, 1, z) <==> z == x || z == "a" {
      assert z == "a" ==> z == EmitNode(h, "", items[1], place, 1);
      assert z == x ==> z == EmitNode(h, "", items[0], place, 1);
    }
    ScalarsDigested(iset{x, "a"}, h, s, items, place);
  }

  lemma TwoWritten(h: string -> nat, s: string, x: string, y: string, place: Place)
    ensures EmitNode(h, s, Scalar([x, y]), place, 0) == s + x + y
  {
    hide EmitNode;
    ScalarShows(h, s, [x], [y], x, place, 0);
    ScalarShows(h, s + x, [], [], y, place, 0);
    assert [x] + [y] == [x, y];
  }

  lemma PairWritten(h: string -> nat, s: string, x: string, place: Place)
    requires IsSorted(place) && h(x) != h("a")
    ensures EmitNode(h, s, ListNode(0, Pair(x)), place, 0) == if h(x) < h("a") then s + x + "a" else s + "a" + x
  {
    hide *;
    PairDigested(h, s, x, place);
    SortedField(place);
    InjectiveOnTwo(h, x, "a");
    var parts := SortedShows(iset{x, "a"}, h, s, 0, Pair(x), place, 0);
    var expected := if h(x) < h("a") then [x, "a"] else ["a", x];
    TwoAscend(h, expected[0], expected[1]);
    SameParts(h, parts, expected);
    TwoWritten(h, s, expected[0], expected[1], place);
  }

  lemma TwoAscend(h: string -> nat, x: string, y: string)
    requires h(x) < h(y)
    ensures AscendingHashes(h, [x, y])
  {
  }

  lemma InjectiveOnTwo(h: string -> nat, x: string, y: string)
    requires h(x) != h(y)
    ensures InjectiveOn(h, iset{x, y})
  {
  }

  lemma SortedField(place: Place)
    requires IsSorted(place)
    ensures place.field in {"fromClause", "targetList", "cols", "rexpr", "valuesLists", "args"}
  {
  }

  /** An item that changes its place among the digests may leave the stream as it is. */
  lemma RankMatters(h: string -> nat, s: string, place: Place)
    requires IsSorted(place) && h("ab") < h("a") < h("ba")
    ensures EmitNode(h, s, ListNode(0, [Scalar(["ab"]), Scalar(["a"])]), place, 0) == s + "aba"
    ensures EmitNode(h, s, ListNode(0, [Scalar(["ba"]), Scalar(["a"])]), place, 0) == s + "aba"
  {
    hide EmitNode, IsSorted;
    PairWritten(h, s, "ab", place);
    PairWritten(h, s, "ba", place);
    assert s + "ab" + "a" == s + "aba" && s + "a" + "ba" == s + "aba";
  }

  // ----- exactly when a change of place shows -----

  /** The items but the one at `k`. */
  function Others(items: seq<Tree>, k: nat): seq<Tree>
    requires k < |items|
  {
    items[..k] + items[k + 1..]
  }

  lemma OthersParts(h: string -> nat, items: seq<Tree>, k: nat, place: Place, depth: nat, z: string)
    requires k < |items|
    ensures IsPart(h, items, place, depth, z) <==>
            z == EmitNode(h, "", items[k], place, depth) || IsPart(h, Others(items, k), place, depth, z)
  {
    hide EmitNode;
    var rest := Others(items, k);
    assert forall i :: 0 <= i < |rest| ==> rest[i] == items[if i < k then i else i + 1];
    if IsPart(h, items, place, depth, z) {
      var i :| 0 <= i < |items| && z == EmitNode(h, "", items[i], place, depth);
      if i != k {
        assert rest[if i < k then i else i - 1] == items[i];
      }
    }
    if IsPart(h, rest, place, depth, z) {
      var i :| 0 <= i < |rest| && z == EmitNode(h, "", rest[i], place, depth);
      assert rest[i] == items[if i < k then i else i + 1];
    }
  }

  lemma OthersDigested(streams: iset<string>, h: string -> nat, items: seq<Tree>, k: nat, place: Place, depth: nat)
    requires ItemsDigested(streams, h, items, place, depth) && k < |items|
    ensures ItemsDigested(streams, h, Others(items, k), place, depth)
  {
    hide EmitNode, Digested;
  }

  /** How many of the ascending texts come before `x`. */
  function Below(h: string -> nat, o: seq<string>, x: string): (i: nat)
    ensures i <= |o|
  {
    if o == [] || h(o[|o| - 1]) < h(x) then |o| else Below(h, o[..|o| - 1], x)
  }

  lemma {:induction false} BelowSplits(h: string -> nat, o: seq<string>, x: string)
    requires AscendingHashes(h, o)
    ensures var i := Below(h, o, x);
            (forall j :: 0 <= j < i ==> h(o[j]) < h(x)) && forall j :: i <= j < |o| ==> h(x) <= h(o[j])
  {
    if o != [] && h(x) <= h(o[|o| - 1]) {
      BelowSplits(h, o[..|o| - 1], x);
    }
  }

  /** The ascending texts with `x` among them. */
  function Inserted(h: string -> nat, o: seq<string>, x: string): seq<string> {
    var i := Below(h, o, x);
    if x in o then o else o[..i] + [x] + o[i..]
  }

  lemma InsertAscends(h: string -> nat, o: seq<string>, i: nat, x: string)
    requires AscendingHashes(h, o) && i <= |o|
    requires (forall j :: 0 <= j < i ==> h(o[j]) < h(x)) && forall j :: i <= j < |o| ==> h(x) < h(o[j])
    ensures AscendingHashes(h, o[..i] + [x] + o[i..])
  {
    var r := o[..i] + [x] + o[i..];
    assert forall j :: 0 <= j < |r| ==> r[j] == if j < i then o[j] else if j == i then x else o[j - 1];
  }

  lemma InsertMembers(o: seq<string>, i: nat, x: string)
    requires i <= |o|
    ensures forall z :: z in o[..i] + [x] + o[i..] <==> z in o || z == x
  {
    assert o == o[..i] + o[i..];
  }

  lemma InsertedAscends(streams: iset<string>, h: string -> nat, o: seq<string>, x: string)
    requires InjectiveOn(h, streams) && x in streams && AscendingHashes(h, o) && forall z :: z in o ==> z in streams
    ensures AscendingHashes(h, Inserted(h, o, x)) && forall z :: z in Inserted(h, o, x) <==> z in o || z == x
  {
    if x !in o {
      var i := Below(h, o, x);
      BelowSplits(h, o, x);
      forall j | i <= j < |o| ensures h(x) < h(o[j]) {
        assert o[j] in o;
      }
      hide AscendingHashes, Below;
      InsertAscends(h, o, i, x);
      InsertMembers(o, i, x);
    }
  }

  lemma {:induction false} BelowOrder(h: string -> nat, o: seq<string>, x: string, y: string)
    requires h(x) <= h(y)
    ensures Below(h, o, x) <= Below(h, o, y)
  {
    if o != [] && h(y) <= h(o[|o| - 1]) {
      BelowOrder(h, o[..|o| - 1], x, y);
    }
  }

  lemma JoinedInserted(h: string -> nat, o: seq<string>, x: string)
    ensures var i := Below(h, o, x);
            Joined(Inserted(h, o, x)) == Joined(o[..i]) + (if x in o then "" else x) + Joined(o[i..])
  {
    hide Joined, Below;
    var i := Below(h, o, x);
    JoinedAppend(o[..i], o[i..]);
    assert o == o[..i] + o[i..];
    if x in o {
      assert Joined(o[..i]) + "" == Joined(o[..i]);
    } else {
      JoinedAppend(o[..i] + [x], o[i..]);
      JoinedAppend(o[..i], [x]);
      JoinedOne(x);
    }
  }

  lemma CancelBoth(a: string, x: string, y: string, b: string)
    ensures a + x + b == a + y + b <==> x == y
  {
    if x != y {
      Cancel(a, x, y, b);
    }
  }

  /** Insertions at two places are the same text exactly when they are around what lies between. */
  lemma InsertionsSame(h: string -> nat, o: seq<string>, x: string, y: string)
    requires h(x) <= h(y)
    ensures Below(h, o, x) <= Below(h, o, y)
    ensures var between := Joined(o[Below(h, o, x)..Below(h, o, y)]);
            Joined(Inserted(h, o, x)) == Joined(Inserted(h, o, y))
            <==> (if x in o then "" else x) + between == between + if y in o then "" else y
  {
    hide *;
    BelowOrder(h, o, x, y);
    JoinedInserted(h, o, x);
    JoinedInserted(h, o, y);
    JoinedBetween(o, Below(h, o, x), Below(h, o, y));
    AroundSame(Joined(o[..Below(h, o, x)]), if x in o then "" else x, Joined(o[Below(h, o, x)..Below(h, o, y)]),
               if y in o then "" else y, Joined(o[Below(h, o, y)..]));
  }

  lemma JoinedBetween(o: seq<string>, i: nat, j: nat)
    requires i <= j <= |o|
    ensures Joined(o[..j]) == Joined(o[..i]) + Joined(o[i..j]) && Joined(o[i..]) == Joined(o[i..j]) + Joined(o[j..])
  {
    hide Joined;
    assert o[..j] == o[..i] + o[i..j] && o[i..] == o[i..j] + o[j..];
    JoinedAppend(o[..i], o[i..j]);
    JoinedAppend(o[i..j], o[j..]);
  }

  lemma AroundSame(a: string, x: string, m: string, y: string, b: string)
    ensures a + x + (m + b) == (a + m) + y + b <==> x + m == m + y
  {
    assert a + x + (m + b) == a + (x + m) + b;
    assert (a + m) + y + b == a + (m + y) + b;
    CancelBoth(a, x + m, m + y, b);
  }

  /** The texts of a sorted list are those of the other items with the text of item `k` among them. */
  lemma PartsInserted(streams: iset<string>, h: string -> nat, items: seq<Tree>, k: nat, place: Place, depth: nat,
                      o: seq<string>, p: seq<string>)
    requires InjectiveOn(h, streams) && ItemsDigested(streams, h, items, place, depth) && k < |items|
    requires ItemsOf(h, Others(items, k), place, depth, o) && ItemsOf(h, items, place, depth, p)
    ensures p == Inserted(h, o, EmitNode(h, "", items[k], place, depth))
  {
    hide *;
    var x := EmitNode(h, "", items[k], place, depth);
    forall z ensures z in p <==> z in o || z == x {
      ItemsOfSays(h, items, place, depth, p, z);
      ItemsOfSays(h, Others(items, k), place, depth, o, z);
      OthersParts(h, items, k, place, depth, z);
    }
    forall z ensures z in o ==> z in streams {
      ItemsOfSays(h, Others(items, k), place, depth, o, z);
      OthersParts(h, items, k, place, depth, z);
      if z in o {
        PartsInStreams(streams, h, items, place, depth, z);
      }
    }
    OthersParts(h, items, k, place, depth, x);
    PartsInStreams(streams, h, items, place, depth, x);
    ItemsOfSays(h, items, place, depth, p, x);
    ItemsOfSays(h, Others(items, k), place, depth, o, x);
    InsertedAscends(streams, h, o, x);
    SameParts(h, p, Inserted(h, o, x));
  }

  lemma ItemsOfSays(h: string -> nat, items: seq<Tree>, place: Place, depth: nat, parts: seq<string>, z: string)
    requires ItemsOf(h, items, place, depth, parts)
    ensures AscendingHashes(h, parts) && (z in parts <==> IsPart(h, items, place, depth, z))
  {
    hide IsPart;
  }

  lemma PartsInStreams(streams: iset<string>, h: string -> nat, items: seq<Tree>, place: Place, depth: nat, z: string)
    requires InjectiveOn(h, streams) && ItemsDigested(streams, h, items, place, depth) && IsPart(h, items, place, depth, z)
    ensures z in streams
  {
    hide EmitNode, Digested;
  }

  lemma ScalarIs(h: string -> nat, s: string, text: seq<string>, place: Place, depth: nat)
    requires depth < DEPTH_LIMIT
    ensures EmitNode(h, s, Scalar(text), place, depth) == s + Joined(text)
  {
  }

  /** The list writes its texts. */
  lemma ListWrites(streams: iset<string>, h: string -> nat, s: string, id: nat, items: seq<Tree>, place: Place, depth: nat)
    returns (p: seq<string>)
    requires depth < 100 && place.field in {"fromClause", "targetList", "cols", "rexpr", "valuesLists", "args"}
    requires InjectiveOn(h, streams) && Digested(streams, h, s, ListNode(id, items), place, depth)
    ensures ItemsDigested(streams, h, items, place, depth + 1) && ItemsOf(h, items, place, depth + 1, p)
    ensures EmitNode(h, s, ListNode(id, items), place, depth) == s + Joined(p)
  {
    p := SortedShows(streams, h, s, id, items, place, depth);
    ScalarIs(h, s, p, place, depth);
    assert IsSorted(place);
    hide EmitNode, RunDigested, ItemsDigested, AscendingHashes, IsPart;
  }

  lemma SameOthers(items: seq<Tree>, others: seq<Tree>, k: nat)
    requires k < |items| == |others| && others == items[k := others[k]]
    ensures Others(items, k) == Others(others, k)
  {
    assert items[..k] == others[..k] && items[k + 1..] == others[k + 1..];
  }

  /**
   Exactly when changing item `k` of a sorted list leaves the stream as it is, say from a smaller to a
   larger digest: when its text in front of the texts of the other items in between is the same as its
   new text behind them. A text that another item writes too does not count.
   */
  lemma PlaceShows(streams: iset<string>, h: string -> nat, s: string, id: nat, items: seq<Tree>, id': nat, others: seq<Tree>,
                   k: nat, place: Place, depth: nat) returns (o: seq<string>)
    requires depth < 100 && place.field in {"fromClause", "targetList", "cols", "rexpr", "valuesLists", "args"}
    requires k < |items| == |others| && others == items[k := others[k]]
    requires InjectiveOn(h, streams) && Digested(streams, h, s, ListNode(id, items), place, depth)
    requires Digested(streams, h, s, ListNode(id', others), place, depth)
    requires Digest(h, items[k], place, depth + 1) <= Digest(h, others[k], place, depth + 1)
    ensures AscendingHashes(h, o) && forall z :: z in o <==> IsPart(h, Others(items, k), place, depth + 1, z)
    ensures var x, y := EmitNode(h, "", items[k], place, depth + 1), EmitNode(h, "", others[k], place, depth + 1);
            var i, j := Below(h, o, x), Below(h, o, y);
            i <= j &&
            var between := EmitNode(h, "", Scalar(o[i..j]), place, depth);
            EmitNode(h, s, ListNode(id, items), place, depth) == EmitNode(h, s, ListNode(id', others), place, depth)
            <==> (if x in o then "" else x) + between == between + if y in o then "" else y
  {
    hide *;
    var p := ListWrites(streams, h, s, id, items, place, depth);
    var q := ListWrites(streams, h, s, id', others, place, depth);
    OthersDigested(streams, h, items, k, place, depth + 1);
    SameOthers(items, others, k);
    o := RunParts(streams, h, Others(items, k), place, depth + 1);
    PartsInserted(streams, h, items, k, place, depth + 1, o, p);
    PartsInserted(streams, h, others, k, place, depth + 1, o, q);
    DigestIs(h, items[k], place, depth + 1);
    DigestIs(h, others[k], place, depth + 1);
    var x, y := EmitNode(h, "", items[k], place, depth + 1), EmitNode(h, "", others[k], place, depth + 1);
    InsertionsSame(h, o, x, y);
    Between(h, o[Below(h, o, x)..Below(h, o, y)], place, depth);
    CancelBoth(s, Joined(p), Joined(q), "");
    assert s + Joined(p) + "" == s + Joined(p) && s + Joined(q) + "" == s + Joined(q);
    forall z ensures z in o <==> IsPart(h, Others(items, k), place, depth + 1, z) {
      ItemsOfSays(h, Others(items, k), place, depth + 1, o, z);
    }
    ItemsOfSays(h, Others(items, k), place, depth + 1, o, "");
  }

  lemma DigestIs(h: string -> nat, t: Tree, place: Place, depth: nat)
    ensures Digest(h, t, place, depth) == h(EmitNode(h, "", t, place, depth))
  {
    hide EmitNode;
  }

  lemma Between(h: string -> nat, text: seq<string>, place: Place, depth: nat)
    requires depth < 100
    ensures EmitNode(h, "", Scalar(text), place, depth) == Joined(text)
  {
    ScalarIs(h, "", text, place, depth);
    assert "" + Joined(text) == Joined(text);
  }
}
