/**
 The parts that the deparser lays out, and what of their text is content rather than layout.
 */
module DeparseText {
  import opened Common

  /** The space and the newline are the only characters that layout adds or takes away. */
  predicate IsLayout(c: char) {
    c == ' ' || c == '\n'
  }

  /** The text without its layout characters. */
  function Dense(s: string): string {
    if s == "" then ""
    else Dense(s[..|s| - 1]) + if IsLayout(s[|s| - 1]) then "" else [s[|s| - 1]]
  }

  lemma {:induction false} DenseAppend(s: string, t: string)
    ensures Dense(s + t) == Dense(s) + Dense(t)
  {
    if t == "" {
      assert s + t == s;
    } else {
      var n := |t| - 1;
      assert (s + t)[..|s + t| - 1] == s + t[..n] && (s + t)[|s + t| - 1] == t[n];
      DenseAppend(s, t[..n]);
    }
  }

  lemma DenseChar(s: string, c: char)
    ensures Dense(s + [c]) == Dense(s) + if IsLayout(c) then "" else [c]
  {
    assert (s + [c])[..|s|] == s;
  }

  /** `removeTrailingSpaceFromStr` */
  function Trim(s: string): string {
    if s != "" && s[|s| - 1] == ' ' then s[..|s| - 1] else s
  }

  lemma DenseTrim(s: string)
    ensures Dense(Trim(s)) == Dense(s)
  {
  }

  datatype IndentMode = NO_INDENT | INDENT | INDENT_AND_MERGE

  datatype Part = Part(str: string, indent: int, mergeable: bool)

  datatype Group = Group(keyword: Option<string>, parts: seq<Part>, mode: IndentMode)

  datatype Level = Level(groups: seq<Group>, baseIndent: int)

  datatype Options = Options(prettyPrint: bool, indentSize: int, maxLineLength: int, trailingNewline: bool,
                             commasStartOfLine: bool)

  // ----- content of the parts -----

  /** Sizes of 0 stand for the defaults. */
  function WithDefaults(o: Options): Options {
    o.(indentSize := if o.indentSize == 0 then 4 else o.indentSize,
       maxLineLength := if o.maxLineLength == 0 then 80 else o.maxLineLength)
  }

  function PartsContent(parts: seq<Part>): string {
    if parts == [] then "" else PartsContent(parts[..|parts| - 1]) + Dense(parts[|parts| - 1].str)
  }

  function GroupContent(g: Group): string {
    (if g.keyword.Some? then Dense(g.keyword.value) else "") + PartsContent(g.parts)
  }

  function GroupsContent(gs: seq<Group>): string {
    if gs == [] then "" else GroupsContent(gs[..|gs| - 1]) + GroupContent(gs[|gs| - 1])
  }

  function LevelsContent(levels: seq<Level>): string {
    if levels == [] then "" else LevelsContent(levels[..|levels| - 1]) + GroupsContent(levels[|levels| - 1].groups)
  }

  lemma {:induction false} PartsAppend(a: seq<Part>, b: seq<Part>)
    ensures PartsContent(a + b) == PartsContent(a) + PartsContent(b)
  {
    if b == [] {
      assert a + b == a;
    } else {
      var n := |b| - 1;
      hide Dense;
      assert (a + b)[..|a + b| - 1] == a + b[..n] && (a + b)[|a + b| - 1] == b[n];
      PartsAppend(a, b[..n]);
      var x, y, z := PartsContent(a), PartsContent(b[..n]), Dense(b[n].str);
      assert (x + y) + z == x + (y + z);
    }
  }

  lemma OnePart(p: Part)
    ensures PartsContent([p]) == Dense(p.str)
  {
    assert [p][..0] == [];
  }

  // ----- merging the parts of a group -----

  function TrimPart(p: Part): Part {
    p.(str := Trim(p.str))
  }

  /** Whether `part` may go on the line of `target`, whose trailing space is gone. */
  predicate CanJoin(target: Part, part: Part, max: int) {
    target.mergeable && part.mergeable && target.indent + |target.str| + 1 + |part.str| <= max
  }

  /** A line in front of the part that is joined to it: a space between them, but not after a parenthesis. */
  function JoinLead(line: string): string {
    var t := Trim(line);
    t + if t != "" && t[|t| - 1] != '(' then " " else ""
  }

  /** `part` on the line of `target`. */
  function Join(target: Part, part: Part): Part {
    target.(str := JoinLead(target.str) + part.str)
  }

  /** A run of parts joined into one line. */
  function Joined(run: seq<Part>): Part
    requires run != []
  {
    if |run| == 1 then run[0] else Join(Joined(run[..|run| - 1]), run[|run| - 1])
  }

  lemma JoinContent(target: Part, part: Part)
    ensures Dense(Join(target, part).str) == Dense(target.str) + Dense(part.str)
  {
    var t := Trim(target.str);
    var sep := if t != "" && t[|t| - 1] != '(' then " " else "";
    hide Dense, Trim;
    DenseTrim(target.str);
    DenseAppend(t, sep);
    DenseAppend(t + sep, part.str);
    OnlyLayout();
    assert Dense(t) + "" == Dense(t);
  }

  /** White space, or an opening parenthesis, in front of what follows. */
  predicate EndsOpen(lead: string) {
    lead != "" && (IsLayout(lead[|lead| - 1]) || lead[|lead| - 1] == '(')
  }

  /** Part `k` of a line touches those before it without white space only behind an opening parenthesis. */
  predicate JoinedFrom(run: seq<Part>, k: nat)
    requires 0 < k < |run|
  {
    var lead := JoinLead(Joined(run[..k]).str);
    Joined(run[..k + 1]).str == lead + run[k].str && (lead == "" || EndsOpen(lead))
  }

  /** All parts of a line do. */
  ghost predicate IsJoinedApart(run: seq<Part>) {
    forall k :: 0 < k < |run| ==> JoinedFrom(run, k)
  }

  lemma JoinedApart(run: seq<Part>)
    ensures IsJoinedApart(run)
  {
    forall k | 0 < k < |run| ensures JoinedFrom(run, k) {
      assert run[..k + 1][..k] == run[..k];
    }
    hide Trim;
  }

  lemma OnlyLayout()
    ensures Dense("") == "" && Dense(" ") == "" && Dense("\n") == ""
  {
    assert " "[..0] == "" && "\n"[..0] == "";
  }

  lemma {:induction false} JoinedContent(run: seq<Part>)
    requires run != []
    ensures Dense(Joined(run).str) == PartsContent(run)
  {
    if |run| == 1 {
      OnePart(run[0]);
      assert run == [run[0]];
    } else {
      var n := |run| - 1;
      JoinedContent(run[..n]);
      JoinContent(Joined(run[..n]), run[n]);
    }
  }

  /** All parts of a run that was joined may share a line, and the line fits. */
  ghost predicate RunFits(run: seq<Part>, max: int)
    requires run != []
  {
    |run| > 1 ==>
      && (forall i :: 0 <= i < |run| ==> run[i].mergeable)
      && Joined(run).indent + |Joined(run).str| <= max
  }

  function Flat(runs: seq<seq<Part>>): seq<Part> {
    if runs == [] then [] else Flat(runs[..|runs| - 1]) + runs[|runs| - 1]
  }

  /** What becomes of a run: its line, without a trailing space when another line follows. */
  function LineOf(runs: seq<seq<Part>>, k: nat): Part
    requires k < |runs| && runs[k] != []
  {
    if k == |runs| - 1 then Joined(runs[k]) else TrimPart(Joined(runs[k]))
  }

  /** The line of run `k` could not take in the part that starts the next one. */
  ghost predicate Breaks(runs: seq<seq<Part>>, k: nat, max: int)
    requires k + 1 < |runs|
  {
    runs[k] != [] && runs[k + 1] != [] && !CanJoin(TrimPart(Joined(runs[k])), runs[k + 1][0], max)
  }

  /**
   `merged` is `parts` cut into runs, each on a line of its own: nothing is lost or reordered, the
   parts of a line are kept apart, every joined line fits, and no line could have taken in the part
   after it.
   */
  ghost predicate IsMerged(parts: seq<Part>, max: int, merged: seq<Part>, runs: seq<seq<Part>>) {
    && Flat(runs) == parts && |merged| == |runs|
    && (forall k :: 0 <= k < |runs| ==> runs[k] != [] && RunFits(runs[k], max) && merged[k] == LineOf(runs, k))
    && (forall k :: 0 <= k < |runs| ==> IsJoinedApart(runs[k]))
    && (forall k :: 0 <= k < |runs| - 1 ==> Breaks(runs, k, max))
  }

  lemma JoinedKeeps(run: seq<Part>)
    requires run != []
    ensures Joined(run).indent == run[0].indent && Joined(run).mergeable == run[0].mergeable
  {
    if |run| > 1 {
      JoinedKeeps(run[..|run| - 1]);
    }
  }

  /** One more part on the current line. */
  lemma RunGrows(run: seq<Part>, p: Part, max: int)
    requires run != [] && RunFits(run, max) && CanJoin(TrimPart(Joined(run)), p, max)
    ensures Joined(run + [p]) == Join(Joined(run), p) && RunFits(run + [p], max)
  {
    assert (run + [p])[..|run|] == run;
    JoinedKeeps(run);
    if |run| == 1 {
      assert run[0].mergeable;
    }
  }

  lemma FlatLast(runs: seq<seq<Part>>, p: Part)
    ensures Flat(runs + [[p]]) == Flat(runs) + [p]
    ensures runs != [] ==> var n := |runs| - 1; Flat(runs[n := runs[n] + [p]]) == Flat(runs) + [p]
  {
    assert (runs + [[p]])[..|runs|] == runs;
    if runs != [] {
      var n := |runs| - 1;
      assert runs[n := runs[n] + [p]][..n] == runs[..n];
      assert (Flat(runs[..n]) + runs[n]) + [p] == Flat(runs[..n]) + (runs[n] + [p]);
    }
  }

  /** The lines keep the content of the parts. */
  lemma {:induction false} MergedContent(parts: seq<Part>, max: int, merged: seq<Part>, runs: seq<seq<Part>>)
    requires IsMerged(parts, max, merged, runs)
    ensures PartsContent(merged) == PartsContent(parts)
  {
    LinesContent(merged, runs, |runs|);
    assert runs[..|runs|] == runs && merged[..|merged|] == merged;
  }

  lemma {:induction false} LinesContent(merged: seq<Part>, runs: seq<seq<Part>>, n: nat)
    requires n <= |runs| == |merged|
    requires forall k :: 0 <= k < |runs| ==> runs[k] != [] && merged[k] == LineOf(runs, k)
    ensures PartsContent(merged[..n]) == PartsContent(Flat(runs[..n]))
  {
    hide Dense, Joined, Trim;
    if n > 0 {
      LinesContent(merged, runs, n - 1);
      assert merged[..n][..n - 1] == merged[..n - 1] && runs[..n][..n - 1] == runs[..n - 1];
      PartsAppend(Flat(runs[..n - 1]), runs[n - 1]);
      JoinedContent(runs[n - 1]);
      DenseTrim(Joined(runs[n - 1]).str);
      assert merged[n - 1] == LineOf(runs, n - 1);
    }
  }

  /** The lines so far and the current one, `target`, while the parts up to `i` have been seen. */
  ghost predicate Merging(parts: seq<Part>, i: nat, max: int, merged: seq<Part>, target: Part, runs: seq<seq<Part>>) {
    && i <= |parts| && Flat(runs) == parts[..i] && |runs| == |merged| + 1
    && (forall k :: 0 <= k < |runs| ==> runs[k] != [] && RunFits(runs[k], max))
    && target == Joined(runs[|merged|])
    && (forall k :: 0 <= k < |merged| ==> merged[k] == TrimPart(Joined(runs[k])))
    && (forall k :: 0 <= k < |merged| ==> Breaks(runs, k, max))
  }

  lemma MergingStart(parts: seq<Part>, max: int)
    requires parts != []
    ensures Merging(parts, 1, max, [], parts[0], [[parts[0]]])
  {
    FlatLast([], parts[0]);
    assert [] + [[parts[0]]] == [[parts[0]]] && [] + [parts[0]] == parts[..1];
  }

  lemma BreaksKeep(runs: seq<seq<Part>>, k: nat, p: Part, max: int)
    requires k + 1 < |runs| && Breaks(runs, k, max)
    ensures var n := |runs| - 1; Breaks(runs[n := runs[n] + [p]], k, max)
  {
    hide Joined, CanJoin, TrimPart;
    var n := |runs| - 1;
    var more := runs[n := runs[n] + [p]];
    assert more[k] == runs[k] && more[k + 1][0] == runs[k + 1][0];
  }

  /** The next part joins the current line. */
  lemma MergingJoins(parts: seq<Part>, i: nat, max: int, merged: seq<Part>, target: Part, runs: seq<seq<Part>>)
    requires Merging(parts, i, max, merged, target, runs) && i < |parts| && CanJoin(TrimPart(target), parts[i], max)
    ensures var n := |merged|; Merging(parts, i + 1, max, merged, Join(target, parts[i]), runs[n := runs[n] + [parts[i]]])
  {
    hide Joined, Join, JoinLead, Trim, RunFits, CanJoin, Flat, TrimPart, Breaks;
    var n, p := |merged|, parts[i];
    RunGrows(runs[n], p, max);
    FlatLast(runs, p);
    var more := runs[n := runs[n] + [p]];
    assert parts[..i + 1] == parts[..i] + [p];
    forall k | 0 <= k < n ensures Breaks(more, k, max) {
      BreaksKeep(runs, k, p, max);
    }
    forall k | 0 <= k < |more| ensures more[k] != [] && RunFits(more[k], max) {
      assert more[k] == if k == n then runs[n] + [p] else runs[k];
    }
    assert forall k :: 0 <= k < n ==> more[k] == runs[k];
  }

  /** The next part starts a line of its own. */
  lemma MergingBreaks(parts: seq<Part>, i: nat, max: int, merged: seq<Part>, target: Part, runs: seq<seq<Part>>)
    requires Merging(parts, i, max, merged, target, runs) && i < |parts| && !CanJoin(TrimPart(target), parts[i], max)
    ensures Merging(parts, i + 1, max, merged + [TrimPart(target)], parts[i], runs + [[parts[i]]])
  {
    FlatLast(runs, parts[i]);
    assert parts[..i + 1] == parts[..i] + [parts[i]];
    hide Join, CanJoin, Flat, TrimPart;
    var more := runs + [[parts[i]]];
    forall k | 0 <= k <= |merged| ensures Breaks(more, k, max) {
      assert k < |merged| ==> Breaks(runs, k, max);
    }
  }

  lemma MergingEnd(parts: seq<Part>, max: int, merged: seq<Part>, target: Part, runs: seq<seq<Part>>)
    requires Merging(parts, |parts|, max, merged, target, runs)
    ensures IsMerged(parts, max, merged + [target], runs)
  {
    hide Joined, RunFits, CanJoin, Flat, TrimPart, IsJoinedApart;
    assert parts[..|parts|] == parts;
    forall k | 0 <= k < |runs| ensures IsJoinedApart(runs[k]) {
      JoinedApart(runs[k]);
    }
  }

  /** The merging of the parts of one group when its level is left. */
  method MergeParts(parts: seq<Part>, max: int) returns (merged: seq<Part>)
    requires parts != []
    ensures exists runs :: IsMerged(parts, max, merged, runs)
  {
    MergingStart(parts, max);
    hide Merging, IsMerged, Joined, Flat;
    var target := parts[0];
    merged := [];
    ghost var runs := [[parts[0]]];
    var i := 1;
    while i < |parts|
      invariant 1 <= i <= |parts| && Merging(parts, i, max, merged, target, runs)
      invariant |runs| == |merged| + 1
    {
      var part := parts[i];
      var trimmed := TrimPart(target);
      if CanJoin(trimmed, part, max) {
        MergingJoins(parts, i, max, merged, target, runs);
        runs := runs[|merged| := runs[|merged|] + [part]];
        var sep := if trimmed.str != "" && trimmed.str[|trimmed.str| - 1] != '(' then " " else "";
        target := trimmed.(str := trimmed.str + sep + part.str);
      } else {
        MergingBreaks(parts, i, max, merged, target, runs);
        runs := runs + [[part]];
        merged := merged + [trimmed];
        target := part;
      }
      i := i + 1;
    }
    MergingEnd(parts, max, merged, target, runs);
    merged := merged + [target];
  }
}
