/**
 Which truncations there are, and what one of them does to the tree.
 */
module TruncateTree {
  import opened Common
  import opened Truncate

  /** A field that is known, present and longer than three characters, of the node at the end of `q`. */
  predicate IsTruncation(lengthOf: Tree -> int, t: Tree, q: seq<nat>, depth: nat, c: Candidate) {
    var n := At(t, q);
    && n.Node? && !n.raw && c.field < |n.fields|
    && var f := n.fields[c.field];
    && f.candidate && f.child != Null && lengthOf(f.child) > 3
    && c.length == lengthOf(f.child) && c.depth == depth + DepthAt(t, q)
  }

  lemma {:induction false} OwnExactly(lengthOf: Tree -> int, fields: seq<Field>, n: nat, path: seq<nat>, depth: nat, c: Candidate)
    requires n <= |fields|
    ensures c in OwnCandidates(lengthOf, fields, n, path, depth) <==>
            && c.path == path && c.field < n && c.depth == depth
            && var f := fields[c.field]; f.candidate && f.child != Null && lengthOf(f.child) > 3 && c.length == lengthOf(f.child)
  {
    if n > 0 {
      OwnExactly(lengthOf, fields, n - 1, path, depth, c);
    }
  }

  ghost predicate Behind(lengthOf: Tree -> int, t: Tree, path: seq<nat>, depth: nat, c: Candidate) {
    path <= c.path && IsTruncation(lengthOf, t, c.path[|path|..], depth, c)
  }

  /** The candidates are exactly the truncations of the nodes of the tree. */
  lemma {:induction false} CandidatesExactly(lengthOf: Tree -> int, t: Tree, path: seq<nat>, depth: nat, c: Candidate)
    ensures c in Candidates(lengthOf, t, path, depth) <==> Behind(lengthOf, t, path, depth, c)
    decreases t, 0
  {
    if t.Node? {
      OwnExactly(lengthOf, t.fields, |t.fields|, path, depth, c);
      ChildrenExactly(lengthOf, t, |t.fields|, path, if t.raw then depth else depth + 1, c);
      hide OwnCandidates, ChildCandidates, IsTruncation;
      HereOrBelow(lengthOf, t, path, depth, c);
    }
  }

  /** A truncation of the node itself, or of one of its children. */
  lemma HereOrBelow(lengthOf: Tree -> int, t: Tree, path: seq<nat>, depth: nat, c: Candidate)
    requires t.Node?
    ensures Behind(lengthOf, t, path, depth, c) <==>
            || (!t.raw && c.path == path && c.field < |t.fields| && c.depth == depth
                && var f := t.fields[c.field]; f.candidate && f.child != Null && lengthOf(f.child) > 3 && c.length == lengthOf(f.child))
            || BehindChild(lengthOf, t, |t.fields|, path, if t.raw then depth else depth + 1, c)
  {
    if path <= c.path {
      var q := c.path[|path|..];
      assert q == [] <==> c.path == path;
      if q != [] {
        assert path + [q[0]] <= c.path && c.path[|path| + 1..] == q[1..];
      }
    }
  }

  ghost predicate BehindChild(lengthOf: Tree -> int, t: Tree, n: nat, path: seq<nat>, depth: nat, c: Candidate)
    requires t.Node? && n <= |t.fields|
  {
    && path < c.path && c.path[|path|] < n
    && Behind(lengthOf, t.fields[c.path[|path|]].child, path + [c.path[|path|]], depth, c)
  }

  lemma {:induction false} ChildrenExactly(lengthOf: Tree -> int, t: Tree, n: nat, path: seq<nat>, depth: nat, c: Candidate)
    requires t.Node? && n <= |t.fields|
    ensures c in ChildCandidates(lengthOf, t.fields, n, path, depth) <==> BehindChild(lengthOf, t, n, path, depth, c)
    decreases t, 0, n
  {
    if n > 0 {
      ChildrenExactly(lengthOf, t, n - 1, path, depth, c);
      CandidatesExactly(lengthOf, t.fields[n - 1].child, path + [n - 1], depth, c);
      hide IsTruncation, Candidates;
      assert path + [n - 1] <= c.path <==> path < c.path && c.path[|path|] == n - 1;
    }
  }

  // ----- what a truncation does -----

  /** In the place of the field there is the dummy. */
  lemma {:induction false} DummyIsPut(t: Tree, path: seq<nat>, field: nat)
    requires At(t, path).Node? && field < |At(t, path).fields|
    ensures At(Apply(t, path, field), path).Node? && field < |At(Apply(t, path, field), path).fields|
    ensures At(Apply(t, path, field), path).fields[field].child == Dummy
    decreases |path|
  {
    if path != [] {
      DummyIsPut(t.fields[path[0]].child, path[1..], field);
    }
  }

  /** Subtrees that are neither around the field nor inside of it stay. */
  lemma {:induction false} OthersStay(t: Tree, path: seq<nat>, field: nat, p: seq<nat>)
    requires !(p <= path) && !(path + [field] <= p)
    ensures At(Apply(t, path, field), p) == At(t, p)
    decreases |p|
  {
    if t.Node? && path == [] {
      assert p[0] != field by {
        assert p[0] == field ==> path + [field] <= p;
      }
    } else if t.Node? && p[0] == path[0] && p[0] < |t.fields| {
      assert p[1..] <= path[1..] ==> p <= path;
      assert path[1..] + [field] <= p[1..] ==> path + [field] <= p;
      OthersStay(t.fields[p[0]].child, path[1..], field, p[1..]);
    }
  }
}
