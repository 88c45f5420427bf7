/** What fingerprints do not show, and what they show although it is nothing. */
module FingerprintLimits {
  import opened FingerprintSpec

  // ----- below the depth limit -----

  /** `t` below `n` nodes of one child each. */
  function Chain(tag: string, field: string, n: nat, t: Tree): Tree {
    if n == 0 then t else Struct(tag, [Child(field, ViaNode, Chain(tag, field, n - 1, t))])
  }

  lemma OneField(h: string -> nat, s: string, tag: string, f: Field, place: Place, depth: nat)
    requires depth < DEPTH_LIMIT
    ensures EmitNode(h, s, Struct(tag, [f]), place, depth) == EmitField(h, s + tag, tag, f, place, depth)
  {
    hide EmitField;
    assert EmitFields(h, s + tag, tag, [f], 0, place, depth) == s + tag;
    assert EmitFields(h, s + tag, tag, [f], 1, place, depth) == EmitField(h, s + tag, tag, [f][0], place, depth);
  }

  /** Children that contribute the same, as nodes, are the same field. */
  lemma SameField(h: string -> nat, s: string, tag: string, field: string, a: Tree, b: Tree, place: Place, depth: nat)
    requires EmitNode(h, s + field, a, Place(tag, field), depth + 1) == EmitNode(h, s + field, b, Place(tag, field), depth + 1)
    requires depth + 1 >= DEPTH_LIMIT || (a.Null? <==> b.Null?)
    ensures EmitField(h, s, tag, Child(field, ViaNode, a), place, depth) == EmitField(h, s, tag, Child(field, ViaNode, b), place, depth)
  {
    hide EmitFields;
  }

  /** What hangs below a chain of nodes that reaches the depth limit does not show in the stream. */
  lemma {:induction false} CutoffHides(h: string -> nat, s: string, tag: string, field: string, n: nat, t: Tree, u: Tree,
                                       place: Place, depth: nat)
    requires depth + n >= 100
    ensures EmitNode(h, s, Chain(tag, field, n, t), place, depth) == EmitNode(h, s, Chain(tag, field, n, u), place, depth)
    decreases n
  {
    if n > 0 && depth < DEPTH_LIMIT {
      var a, b := Chain(tag, field, n - 1, t), Chain(tag, field, n - 1, u);
      CutoffHides(h, (s + tag) + field, tag, field, n - 1, t, u, Place(tag, field), depth + 1);
      hide EmitNode, EmitField;
      SameField(h, s + tag, tag, field, a, b, place, depth);
      OneField(h, s, tag, Child(field, ViaNode, a), place, depth);
      OneField(h, s, tag, Child(field, ViaNode, b), place, depth);
    }
  }

  // ----- a list of one null -----

  /** A node whose only field is a list of `n` nulls that is sorted. */
  function Nulls(n: nat): (items: seq<Tree>)
    ensures |items| == n && forall i :: 0 <= i < n ==> items[i] == Null
  {
    seq(n, _ => Null)
  }

  function CallOf(n: nat): Tree {
    Struct("FuncCall", [Child("args", ViaList, ListNode(0, Nulls(n)))])
  }

  lemma {:induction false} RunOfNulls(h: string -> nat, s: string, items: seq<Tree>, run: seq<Item>, place: Place, depth: nat)
    requires Positions(run, |items|) && forall i :: 0 <= i < |items| ==> items[i] == Null
    ensures EmitRun(h, s, items, run, place, depth) == s
  {
    if run != [] {
      RunOfNulls(h, s, items, run[..|run| - 1], place, depth);
    }
  }

  lemma ListOfNulls(h: string -> nat, s: string, n: nat, place: Place, depth: nat)
    requires IsSorted(place)
    ensures EmitNode(h, s, ListNode(0, Nulls(n)), place, depth) == s
  {
    if depth < DEPTH_LIMIT {
      var items := Nulls(n);
      var hashes := ItemHashes(h, items, place, depth + 1);
      SortPositions(hashes);
      FirstsPositions(Sort(hashes), n);
      RunOfNulls(h, s, items, Firsts(Sort(hashes)), place, depth + 1);
    }
  }

  /** A list of one null leaves its field name behind, a list of two does not. */
  lemma OneNullShows(h: string -> nat)
    ensures EmitNode(h, "", CallOf(1), NOWHERE, 0) == "FuncCallargs" && EmitNode(h, "", CallOf(2), NOWHERE, 0) == "FuncCall"
    ensures h("FuncCallargs") != h("FuncCall") ==> Fingerprint(h, CallOf(1)) != Fingerprint(h, CallOf(2))
  {
    forall n: nat | 1 <= n <= 2 ensures EmitNode(h, "", CallOf(n), NOWHERE, 0) == if n == 1 then "FuncCallargs" else "FuncCall" {
      CallIs(h, n);
    }
  }

  /** A list that contributes nothing keeps its field name only if it is a single null. */
  lemma EmptyList(h: string -> nat, s: string, tag: string, name: string, list: Tree, place: Place, depth: nat)
    requires list.ListNode? && list.items != [] && EmitNode(h, s + name, list, Place(tag, name), depth + 1) == s + name
    ensures EmitField(h, s, tag, Child(name, ViaList, list), place, depth) == if list.items == [Null] then s + name else s
  {
    hide EmitNode, EmitFields;
  }

  lemma CallIs(h: string -> nat, n: nat)
    requires 1 <= n <= 2
    ensures EmitNode(h, "", CallOf(n), NOWHERE, 0) == if n == 1 then "FuncCallargs" else "FuncCall"
  {
    hide EmitNode, EmitField, Nulls, IsSorted;
    var list := ListNode(0, Nulls(n));
    ArgsSorted();
    OneField(h, "", "FuncCall", Child("args", ViaList, list), NOWHERE, 0);
    ListOfNulls(h, "FuncCallargs", n, Place("FuncCall", "args"), 1);
    assert "" + "FuncCall" == "FuncCall" && "FuncCall" + "args" == "FuncCallargs";
    EmptyList(h, "FuncCall", "FuncCall", "args", list, NOWHERE, 0);
    OnlyOne(n);
  }

  lemma ArgsSorted()
    ensures IsSorted(Place("FuncCall", "args"))
  {
  }

  lemma OnlyOne(n: nat)
    ensures Nulls(n) == [Null] <==> n == 1
  {
  }
}
