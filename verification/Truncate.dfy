/**
 Truncating a query to a length: the candidates of the parse tree are taken deepest first, so
 that every truncation is applied to a node that is still part of the tree.
 */
module Truncate {
  import opened Common
  import opened Bytes
  import opened TruncateText

  /**
   A parse tree. A candidate field is one that `generate_possible_truncations` knows; `Dummy` is
   what is put in the place of such a field. A RawStmt is passed through at the same depth.
   */
  datatype Tree =
    | Null
    | Dummy
    | Node(id: nat, raw: bool, fields: seq<Field>)

  datatype Field = Field(candidate: bool, child: Tree)

  /** A field of the node at the end of `path`; the path stands for the node's address. */
  datatype Candidate = Candidate(path: seq<nat>, field: nat, depth: nat, length: int)

  // ----- candidates -----

  /** The candidates of one node: fields that are present and longer than the dots. */
  function OwnCandidates(lengthOf: Tree -> int, fields: seq<Field>, n: nat, path: seq<nat>, depth: nat): seq<Candidate>
    requires n <= |fields|
  {
    if n == 0 then []
    else
      var f := fields[n - 1];
      OwnCandidates(lengthOf, fields, n - 1, path, depth)
      + if f.candidate && !f.child.Null? && lengthOf(f.child) > 3
        then [Candidate(path, n - 1, depth, lengthOf(f.child))] else []
  }

  function Candidates(lengthOf: Tree -> int, t: Tree, path: seq<nat>, depth: nat): seq<Candidate>
    decreases t, 0
  {
    if !t.Node? then []
    else if t.raw then ChildCandidates(lengthOf, t.fields, |t.fields|, path, depth)
    else OwnCandidates(lengthOf, t.fields, |t.fields|, path, depth)
         + ChildCandidates(lengthOf, t.fields, |t.fields|, path, depth + 1)
  }

  function ChildCandidates(lengthOf: Tree -> int, fields: seq<Field>, n: nat, path: seq<nat>, depth: nat): seq<Candidate>
    requires n <= |fields|
    decreases fields, 1, n
  {
    if n == 0 then []
    else ChildCandidates(lengthOf, fields, n - 1, path, depth) + FieldCandidates(lengthOf, fields[n - 1], path + [n - 1], depth)
  }

  function FieldCandidates(lengthOf: Tree -> int, f: Field, path: seq<nat>, depth: nat): seq<Candidate>
    decreases f, 1
  {
    Candidates(lengthOf, f.child, path, depth)
  }

  /** `TruncationState` while the tree is walked. */
  class TruncationState {
    var truncations: seq<Candidate>
    var depth: nat

    constructor ()
      ensures truncations == [] && depth == 0
    {
      truncations, depth := [], 0;
    }

    /** `add_truncation` */
    method AddTruncation(path: seq<nat>, field: nat, length: int)
      modifies this
      ensures depth == old(depth)
      ensures truncations == old(truncations) + if length <= 3 then [] else [Candidate(path, field, depth, length)]
    {
      if length > 3 {
        truncations := truncations + [Candidate(path, field, depth, length)];
      } else {
        assert truncations + [] == truncations;
      }
    }

    /** `generate_possible_truncations`; the depth is restored for the siblings. */
    method Generate(lengthOf: Tree -> int, t: Tree, path: seq<nat>)
      modifies this
      ensures depth == old(depth)
      ensures truncations == old(truncations) + Candidates(lengthOf, t, path, depth)
      decreases t, 2
    {
      assert truncations + [] == truncations;
      if !t.Node? {
        return;
      }
      if t.raw {
        GenerateChildren(lengthOf, t.fields, path);
        return;
      }
      var i := 0;
      while i < |t.fields|
        invariant 0 <= i <= |t.fields| && depth == old(depth)
        invariant truncations == old(truncations) + OwnCandidates(lengthOf, t.fields, i, path, depth)
      {
        if t.fields[i].candidate && !t.fields[i].child.Null? {
          AddTruncation(path, i, lengthOf(t.fields[i].child));
        }
        i := i + 1;
      }
      var oldDepth := depth;
      depth := depth + 1;
      GenerateChildren(lengthOf, t.fields, path);
      depth := oldDepth;
    }

    method GenerateChildren(lengthOf: Tree -> int, fields: seq<Field>, path: seq<nat>)
      modifies this
      ensures depth == old(depth)
      ensures truncations == old(truncations) + ChildCandidates(lengthOf, fields, |fields|, path, depth)
      decreases fields, 3
    {
      assert truncations + [] == truncations;
      var i := 0;
      while i < |fields|
        invariant 0 <= i <= |fields| && depth == old(depth)
        invariant truncations == old(truncations) + ChildCandidates(lengthOf, fields, i, path, depth)
      {
        GenerateField(lengthOf, fields[i], path + [i]);
        i := i + 1;
      }
    }

    method GenerateField(lengthOf: Tree -> int, f: Field, path: seq<nat>)
      modifies this
      ensures depth == old(depth)
      ensures truncations == old(truncations) + FieldCandidates(lengthOf, f, path, depth)
      decreases f, 4
    {
      Generate(lengthOf, f.child, path);
    }
  }

  // ----- nodes and truncations by path -----

  /** The subtree at the end of a path, `Null` when the path leads nowhere. */
  function At(t: Tree, path: seq<nat>): Tree
    decreases |path|
  {
    if path == [] then t
    else if t.Node? && path[0] < |t.fields| then At(t.fields[path[0]].child, path[1..])
    else Null
  }

  /** The walker levels above the node at the end of a path. */
  function DepthAt(t: Tree, path: seq<nat>): nat
    decreases |path|
  {
    if path == [] || !t.Node? || path[0] >= |t.fields| then 0
    else (if t.raw then 0 else 1) + DepthAt(t.fields[path[0]].child, path[1..])
  }

  /** The tree after a field of the node at the end of `path` has been overwritten. */
  function Apply(t: Tree, path: seq<nat>, field: nat): Tree
    decreases |path|
  {
    if !t.Node? then t
    else if path == [] then
      if field < |t.fields| then t.(fields := t.fields[field := t.fields[field].(child := Dummy)]) else t
    else if path[0] < |t.fields| then
      t.(fields := t.fields[path[0] := t.fields[path[0]].(child := Apply(t.fields[path[0]].child, path[1..], field))])
    else t
  }

  function ApplyAll(t: Tree, cs: seq<Candidate>): Tree {
    if cs == [] then t
    else Apply(ApplyAll(t, cs[..|cs| - 1]), cs[|cs| - 1].path, cs[|cs| - 1].field)
  }

  /** The node at `p` lies inside of field `field` of the node at `path`. */
  predicate IsInside(path: seq<nat>, field: nat, p: seq<nat>) {
    |path| < |p| && p[..|path|] == path && p[|path|] == field
  }

  lemma InsideTail(path: seq<nat>, field: nat, p: seq<nat>)
    requires path != [] && p != [] && path[0] == p[0]
    ensures IsInside(path, field, p) <==> IsInside(path[1..], field, p[1..])
  {
    if |path| < |p| {
      assert p[..|path|] == [p[0]] + p[1..][..|path| - 1] && path == [path[0]] + path[1..];
    }
  }

  /** A truncation leaves every node in place that does not lie inside of what it removes. */
  lemma {:induction false} ApplyKeeps(t: Tree, path: seq<nat>, field: nat, p: seq<nat>)
    requires At(t, p).Node? && !IsInside(path, field, p)
    ensures At(Apply(t, path, field), p).Node? && At(Apply(t, path, field), p).id == At(t, p).id
    ensures |At(Apply(t, path, field), p).fields| == |At(t, p).fields|
    decreases |p|
  {
    if p != [] {
      var i := p[0];
      if path == [] {
        assert i != field;
      } else if path[0] == i {
        InsideTail(path, field, p);
        ApplyKeeps(t.fields[i].child, path[1..], field, p[1..]);
      }
    }
  }

  /** Nodes inside of a field lie deeper than its node. */
  lemma {:induction false} InsideIsDeeper(t: Tree, path: seq<nat>, field: nat, p: seq<nat>)
    requires IsInside(path, field, p) && At(t, path).Node? && !At(t, path).raw && At(t, p).Node?
    ensures DepthAt(t, p) > DepthAt(t, path)
    decreases |path|
  {
    if path != [] {
      assert p[..|path|][0] == path[0];
      InsideTail(path, field, p);
      InsideIsDeeper(t.fields[path[0]].child, path[1..], field, p[1..]);
    }
  }

  lemma {:induction false} AtAppend(t: Tree, p: seq<nat>, q: seq<nat>)
    requires At(t, p).Node?
    ensures At(t, p + q) == At(At(t, p), q) && DepthAt(t, p + q) == DepthAt(t, p) + DepthAt(At(t, p), q)
    decreases |p|
  {
    if p == [] {
      assert p + q == q;
    } else {
      assert (p + q)[0] == p[0] && (p + q)[1..] == p[1..] + q;
      AtAppend(t.fields[p[0]].child, p[1..], q);
    }
  }

  /** A candidate names a present field of a node of the tree, at that node's depth. */
  ghost predicate IsCandidateOf(t: Tree, depth: nat, c: Candidate) {
    var n := At(t, c.path);
    n.Node? && !n.raw && c.field < |n.fields| && c.depth == depth + DepthAt(t, c.path)
  }

  /** The candidates found below the node at `path` are candidates of the whole tree. */
  lemma {:induction false} CandidatesAre(lengthOf: Tree -> int, whole: Tree, t: Tree, path: seq<nat>, depth: nat, c: Candidate)
    requires At(whole, path) == t && (t.Node? ==> depth == DepthAt(whole, path)) && c in Candidates(lengthOf, t, path, depth)
    ensures IsCandidateOf(whole, 0, c)
    decreases t, 0
  {
    if t.Node? {
      var d := if t.raw then depth else depth + 1;
      if !t.raw && c in OwnCandidates(lengthOf, t.fields, |t.fields|, path, depth) {
        OwnAre(lengthOf, t.fields, |t.fields|, path, depth, c);
      } else {
        ChildrenAre(lengthOf, whole, t, |t.fields|, path, d, c);
      }
    }
  }

  lemma {:induction false} OwnAre(lengthOf: Tree -> int, fields: seq<Field>, n: nat, path: seq<nat>, depth: nat, c: Candidate)
    requires n <= |fields| && c in OwnCandidates(lengthOf, fields, n, path, depth)
    ensures c.path == path && c.depth == depth && c.field < n
  {
    if n > 0 && c in OwnCandidates(lengthOf, fields, n - 1, path, depth) {
      OwnAre(lengthOf, fields, n - 1, path, depth, c);
    }
  }

  lemma {:induction false} ChildrenAre(lengthOf: Tree -> int, whole: Tree, t: Tree, n: nat, path: seq<nat>, depth: nat, c: Candidate)
    requires At(whole, path) == t && t.Node? && n <= |t.fields| && c in ChildCandidates(lengthOf, t.fields, n, path, depth)
    requires depth == DepthAt(whole, path) + if t.raw then 0 else 1
    ensures IsCandidateOf(whole, 0, c)
    decreases t, 0, n
  {
    if n > 0 {
      if c in ChildCandidates(lengthOf, t.fields, n - 1, path, depth) {
        ChildrenAre(lengthOf, whole, t, n - 1, path, depth, c);
      } else {
        var child := t.fields[n - 1].child;
        AtAppend(whole, path, [n - 1]);
        assert [n - 1][1..] == [] && At(t, [n - 1]) == child && DepthAt(t, [n - 1]) == if t.raw then 0 else 1;
        CandidatesAre(lengthOf, whole, child, path + [n - 1], depth, c);
      }
    }
  }

  // ----- deepest first -----

  /** `cmp_possible_truncations`: deeper ones first, then longer ones. */
  ghost predicate Ordered(order: seq<Candidate>) {
    forall i, j :: 0 <= i < j < |order| ==>
      order[i].depth > order[j].depth || (order[i].depth == order[j].depth && order[i].length >= order[j].length)
  }

  /** The node of `c` is still where it was, with all of its fields. */
  ghost predicate Attached(t: Tree, now: Tree, c: Candidate) {
    At(t, c.path).Node? && At(now, c.path).Node? && At(now, c.path).id == At(t, c.path).id
    && |At(now, c.path).fields| == |At(t, c.path).fields| && c.field < |At(t, c.path).fields|
  }

  /** Every truncation is applied to a node that is still attached to the current tree. */
  lemma {:induction false} Outward(lengthOf: Tree -> int, t: Tree, order: seq<Candidate>, k: nat, j: nat)
    requires multiset(order) == multiset(Candidates(lengthOf, t, [], 0)) && Ordered(order) && k <= j < |order|
    ensures Attached(t, ApplyAll(t, order[..k]), order[j])
    decreases k
  {
    InOrder(lengthOf, t, order, j);
    if k == 0 {
      assert order[..0] == [];
    } else {
      var a, c := order[k - 1], order[j];
      InOrder(lengthOf, t, order, k - 1);
      Outward(lengthOf, t, order, k - 1, j);
      assert order[..k][..k - 1] == order[..k - 1] && order[..k][k - 1] == a;
      if IsInside(a.path, a.field, c.path) {
        InsideIsDeeper(t, a.path, a.field, c.path);
        assert false;
      }
      ApplyKeeps(ApplyAll(t, order[..k - 1]), a.path, a.field, c.path);
    }
  }

  lemma InOrder(lengthOf: Tree -> int, t: Tree, order: seq<Candidate>, j: nat)
    requires multiset(order) == multiset(Candidates(lengthOf, t, [], 0)) && j < |order|
    ensures IsCandidateOf(t, 0, order[j])
  {
    assert order[j] in multiset(order);
    CandidatesAre(lengthOf, t, t, [], 0, order[j]);
  }

  // ----- down to the limit -----

  /** The placeholder: an ellipsis character between double quotes. */
  const PLACEHOLDER: seq<byte> := [34, 226, 128, 166, 34]
  const SELECT: seq<byte> := [83, 69, 76, 69, 67, 84, 32]
  const AS: seq<byte> := [32, 65, 83, 32]
  const WHERE: seq<byte> := [87, 72, 69, 82, 69, 32]

  /** The text of the truncated tree with the placeholders turned into dots. */
  function Shown(s: seq<byte>): seq<byte> {
    var s1 := Replace(s, SELECT + PLACEHOLDER + AS + PLACEHOLDER, SELECT + PLACEHOLDER);
    var s2 := Replace(s1, SELECT + WHERE + PLACEHOLDER, PLACEHOLDER);
    Replace(s2, PLACEHOLDER, DOTS)
  }

  lemma {:induction false} AsciiText(s: seq<byte>)
    requires forall i :: 0 <= i < |s| ==> 0 < s[i] < 128
    ensures IsUtf8(s)
  {
    if s != [] {
      AsciiText(s[1..]);
      Ascii(s[0], s[1..]);
      assert [s[0]] + s[1..] == s;
      hide IsUtf8, Chars;
    }
  }

  lemma PatternsAreText()
    ensures IsUtf8(PLACEHOLDER) && IsUtf8(SELECT + PLACEHOLDER)
    ensures IsUtf8(SELECT + PLACEHOLDER + AS + PLACEHOLDER) && IsUtf8(SELECT + WHERE + PLACEHOLDER)
  {
    hide IsUtf8, Chars, StartsWithChar, CharLength;
    AsciiText([34]);
    AsciiText(SELECT);
    AsciiText(AS);
    AsciiText(SELECT + WHERE);
    Ellipsis();
    Utf8Append([34], [226, 128, 166]);
    Utf8Append([34] + [226, 128, 166], [34]);
    assert ([34] + [226, 128, 166]) + [34] == PLACEHOLDER;
    Utf8Append(SELECT, PLACEHOLDER);
    Utf8Append(SELECT + PLACEHOLDER, AS);
    Utf8Append(SELECT + PLACEHOLDER + AS, PLACEHOLDER);
    Utf8Append(SELECT + WHERE, PLACEHOLDER);
  }

  lemma Ellipsis()
    ensures IsUtf8([226, 128, 166])
  {
    var e: seq<byte> := [226, 128, 166];
    assert e[3..] == [];
    Front(e);
  }

  lemma ShownIsText(s: seq<byte>)
    requires IsUtf8(s)
    ensures IsUtf8(Shown(s))
  {
    PatternsAreText();
    DotsAreText();
    hide IsUtf8, Replace;
    ReplaceKeepsText(s, SELECT + PLACEHOLDER + AS + PLACEHOLDER, SELECT + PLACEHOLDER);
    var s1 := Replace(s, SELECT + PLACEHOLDER + AS + PLACEHOLDER, SELECT + PLACEHOLDER);
    ReplaceKeepsText(s1, SELECT + WHERE + PLACEHOLDER, PLACEHOLDER);
    ReplaceKeepsText(Replace(s1, SELECT + WHERE + PLACEHOLDER, PLACEHOLDER), PLACEHOLDER, DOTS);
  }

  /** A string in a buffer of its own, a zero byte behind it. */
  method ToBuffer(s: seq<byte>) returns (buf: array<byte>)
    ensures fresh(buf) && buf.Length == |s| + 4 && buf[..|s|] == s && buf[|s|] == 0
  {
    buf := new byte[|s| + 4](i requires i >= 0 => if i < |s| then s[i] else 0);
  }

  /** The three replacements, in place. */
  method Show(buf: array<byte>, n: nat) returns (n': nat)
    requires n < buf.Length && buf[n] == 0
    modifies buf
    ensures n' < buf.Length && buf[n'] == 0 && buf[..n'] == Shown(old(buf[..n]))
  {
    hide Replace;
    n' := GlobalReplace(buf, n, SELECT + PLACEHOLDER + AS + PLACEHOLDER, SELECT + PLACEHOLDER);
    n' := GlobalReplace(buf, n', SELECT + WHERE + PLACEHOLDER, PLACEHOLDER);
    n' := GlobalReplace(buf, n', PLACEHOLDER, DOTS);
  }

  /** The text after the first `k` truncations; untouched before the first of them. */
  function Version(deparse: Tree -> seq<byte>, t: Tree, order: seq<Candidate>, k: nat): seq<byte>
    requires k <= |order|
  {
    if k == 0 then deparse(t) else Shown(deparse(ApplyAll(t, order[..k])))
  }

  /** The first version that fits after at least one truncation, the last one if none does. */
  ghost predicate IsChosen(deparse: Tree -> seq<byte>, t: Tree, order: seq<Candidate>, limit: nat, k: nat) {
    && k <= |order| && (forall j :: 0 < j < k ==> |Version(deparse, t, order, j)| > limit)
    && (k < |order| ==> k > 0 && |Version(deparse, t, order, k)| <= limit)
  }

  lemma NextVersion(deparse: Tree -> seq<byte>, t: Tree, order: seq<Candidate>, k: nat)
    requires k < |order|
    ensures ApplyAll(t, order[..k + 1]) == Apply(ApplyAll(t, order[..k]), order[k].path, order[k].field)
    ensures Version(deparse, t, order, k + 1) == Shown(deparse(ApplyAll(t, order[..k + 1])))
  {
    assert order[..k + 1][..k] == order[..k] && order[..k + 1][k] == order[k];
    hide Apply, Shown;
  }

  lemma FirstVersion(deparse: Tree -> seq<byte>, t: Tree, order: seq<Candidate>)
    ensures ApplyAll(t, order[..0]) == t && Version(deparse, t, order, 0) == deparse(t)
  {
  }

  lemma VersionIsText(deparse: Tree -> seq<byte>, t: Tree, order: seq<Candidate>, k: nat)
    requires k <= |order| && forall x :: IsUtf8(deparse(x))
    ensures IsUtf8(Version(deparse, t, order, k))
  {
    hide IsUtf8, Shown, ApplyAll;
    if k > 0 {
      ShownIsText(deparse(ApplyAll(t, order[..k])));
    }
  }

  /** What is stored as the truncated text after the first `k` truncations. */
  ghost predicate IsStored(deparse: Tree -> seq<byte>, t: Tree, order: seq<Candidate>, limit: nat, k: nat, text: seq<byte>) {
    && IsChosen(deparse, t, order, limit, k)
    && var v := Version(deparse, t, order, k);
    && IsUtf8(v) && text == if 0 < k && |v| <= limit then v else Clipped(v, limit)
  }

  /**
   `apply_truncations`: truncations are applied until the text is short enough; when none of them
   suffices the text is cut.
   */
  method ApplyTruncations(deparse: Tree -> seq<byte>, t: Tree, order: seq<Candidate>, limit: nat) returns (text: seq<byte>)
    requires forall x :: IsUtf8(deparse(x))
    ensures exists k :: IsStored(deparse, t, order, limit, k, text)
  {
    hide *;
    FirstVersion(deparse, t, order);
    var now := t;
    var buf := ToBuffer(deparse(now));
    var n: nat := |deparse(now)|;
    var i := 0;
    while i < |order|
      invariant 0 <= i <= |order| && now == ApplyAll(t, order[..i])
      invariant n < buf.Length && buf.Length >= 4 && buf[n] == 0 && fresh(buf) && buf[..n] == Version(deparse, t, order, i)
      invariant forall k :: 0 < k <= i ==> |Version(deparse, t, order, k)| > limit
    {
      NextVersion(deparse, t, order, i);
      now := Apply(now, order[i].path, order[i].field);
      i := i + 1;
      buf := ToBuffer(deparse(now));
      n := Show(buf, |deparse(now)|);
      if n <= limit {
        text := buf[..n];
        ChosenIs(deparse, t, order, limit, i);
        StoredIs(deparse, t, order, limit, i, text);
        return;
      }
    }
    ChosenIs(deparse, t, order, limit, i);
    VersionIsText(deparse, t, order, i);
    n := TruncateMbstr(buf, n, limit);
    text := buf[..n];
    if 0 < i {
      assert |Version(deparse, t, order, i)| > limit;
    }
    StoredIs(deparse, t, order, limit, i, text);
  }

  lemma StoredIs(deparse: Tree -> seq<byte>, t: Tree, order: seq<Candidate>, limit: nat, k: nat, text: seq<byte>)
    requires forall x :: IsUtf8(deparse(x))
    requires k <= |order| && IsChosen(deparse, t, order, limit, k)
    requires var v := Version(deparse, t, order, k);
             if 0 < k && |v| <= limit then text == v else IsUtf8(v) && text == Clipped(v, limit)
    ensures IsStored(deparse, t, order, limit, k, text)
  {
    hide IsUtf8, IsChosen, Version, Clipped;
    VersionIsText(deparse, t, order, k);
  }

  /** No two numbers of truncations are right, so the text is the only one. */
  lemma StoredOnce(deparse: Tree -> seq<byte>, t: Tree, order: seq<Candidate>, limit: nat, k: nat, j: nat,
                   text: seq<byte>, other: seq<byte>)
    requires IsStored(deparse, t, order, limit, k, text) && IsStored(deparse, t, order, limit, j, other)
    ensures k == j && text == other
  {
    hide IsUtf8, Version, Clipped;
  }

  lemma ChosenIs(deparse: Tree -> seq<byte>, t: Tree, order: seq<Candidate>, limit: nat, k: nat)
    requires k <= |order| && (forall j :: 0 < j < k ==> |Version(deparse, t, order, j)| > limit)
    requires k < |order| ==> k > 0 && |Version(deparse, t, order, k)| <= limit
    ensures IsChosen(deparse, t, order, limit, k)
  {
    hide Version;
  }

  lemma AtMostBytes(s: seq<byte>)
    requires IsUtf8(s)
    ensures Chars(s) <= |s|
  {
  }

  // ----- sorting the candidates -----

  /** What `cmp_possible_truncations` puts in front: deeper, then longer. */
  predicate Precedes(a: Candidate, b: Candidate) {
    a.depth > b.depth || (a.depth == b.depth && a.length > b.length)
  }

  /** `list_sort` */
  function Sort(cs: seq<Candidate>): seq<Candidate> {
    SortBy(Precedes, cs)
  }

  lemma SortOrders(cs: seq<Candidate>)
    ensures Ordered(Sort(cs)) && multiset(Sort(cs)) == multiset(cs)
  {
    SortByFacts(Precedes, cs);
    var s := Sort(cs);
    hide Sort, SortBy;
    assert forall i, j :: 0 <= i < j < |s| ==> !Precedes(s[j], s[i]);
  }

  // ----- the whole truncation -----

  /**
   `pg_query_summary_truncate`: text that is short enough is left as it is. Otherwise the sorted
   candidates are applied one after the other, and each of them is attached when its turn comes.
   */
  method SummaryTruncate(deparse: Tree -> seq<byte>, lengthOf: Tree -> int, t: Tree, limit: nat) returns (text: seq<byte>)
    requires forall x :: IsUtf8(deparse(x))
    ensures var order := Sort(Candidates(lengthOf, t, [], 0));
            && (forall k :: 0 <= k < |order| ==> Attached(t, ApplyAll(t, order[..k]), order[k]))
            && if |deparse(t)| <= limit then text == deparse(t) else exists k :: IsStored(deparse, t, order, limit, k, text)
    ensures IsUtf8(text) && (limit >= 3 ==> Chars(text) <= limit)
  {
    hide *;
    var state := new TruncationState();
    ghost var order := Sort(Candidates(lengthOf, t, [], 0));
    SortOrders(Candidates(lengthOf, t, [], 0));
    forall k | 0 <= k < |order| ensures Attached(t, ApplyAll(t, order[..k]), order[k]) {
      Outward(lengthOf, t, order, k, k);
    }
    text := deparse(t);
    AtMostBytes(text);
    if |text| <= limit {
      return;
    }
    state.Generate(lengthOf, t, []);
    assert [] + Candidates(lengthOf, t, [], 0) == Candidates(lengthOf, t, [], 0);
    text := ApplyTruncations(deparse, t, Sort(state.truncations), limit);
    ghost var k :| IsStored(deparse, t, order, limit, k, text);
    FitsLimit(deparse, t, order, limit, k, text);
  }

  /** The stored text is text, of at most `limit` characters from three on. */
  lemma FitsLimit(deparse: Tree -> seq<byte>, t: Tree, order: seq<Candidate>, limit: nat, k: nat, text: seq<byte>)
    requires IsStored(deparse, t, order, limit, k, text)
    ensures IsUtf8(text) && (limit >= 3 ==> Chars(text) <= limit)
  {
    var v := Version(deparse, t, order, k);
    ClippedFits(v, limit);
    AtMostBytes(v);
  }

  /** Cut text is text, of at most `limit` characters from three on. */
  lemma ClippedFits(v: seq<byte>, limit: nat)
    requires IsUtf8(v)
    ensures IsUtf8(Clipped(v, limit)) && (limit >= 3 ==> Chars(Clipped(v, limit)) <= limit)
  {
    hide IsUtf8, Chars, BytesOf, Clip;
    if Chars(v) > limit {
      if limit >= 3 {
        ClippedChars(v, limit);
      } else {
        TruncatedFacts(v, limit);
        DotsAreText();
        Utf8Append(v[..BytesOf(v, Clip(v, Chars(v), limit - 3))], DOTS);
      }
    }
  }
}
