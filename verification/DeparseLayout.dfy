/**
 The layout machine of the deparser: nesting levels, part groups and parts.

 Whatever run of operations a printer makes, and whatever the layout options are, the
 characters that come out are the keywords and strings that went in, in call order; the
 options decide only where the line breaks and spaces fall.
 */
module DeparseLayout {
  import opened Common
  import opened DeparseText
  import opened DeparseComments

  // ----- what the operations do to the current level -----

  /** `makeDeparseStatePart` */
  function MakePart(o: Options, baseIndent: int, mode: IndentMode): Part {
    Part("", baseIndent + (if mode.NO_INDENT? then 0 else o.indentSize), mode.INDENT_AND_MERGE?)
  }

  /** Every group has a part, so its first and last part can be taken. */
  predicate Filled(groups: seq<Group>) {
    forall i :: 0 <= i < |groups| ==> groups[i].parts != []
  }

  /** The level with its first group and part, `deparseGetCurrentPartGroup`. */
  function Started(o: Options, l: Level): (r: Level)
    ensures r.groups != []
  {
    if l.groups != [] then l else l.(groups := [Group(None, [MakePart(o, l.baseIndent, NO_INDENT)], NO_INDENT)])
  }

  function LastGroup(l: Level): Group
    requires l.groups != []
  {
    l.groups[|l.groups| - 1]
  }

  function WithLastGroup(l: Level, g: Group): Level
    requires l.groups != []
  {
    l.(groups := l.groups[..|l.groups| - 1] + [g])
  }

  function LastPart(g: Group): Part
    requires g.parts != []
  {
    g.parts[|g.parts| - 1]
  }

  function WithLastPart(g: Group, p: Part): Group
    requires g.parts != []
  {
    g.(parts := g.parts[..|g.parts| - 1] + [p])
  }

  /** The group after `deparseAppendPart`: an empty last part gives way when deduplicating. */
  function WithNewPart(o: Options, baseIndent: int, g: Group, deduplicate: bool): Group
    requires g.parts != []
  {
    var kept := if deduplicate && LastPart(g).str == "" then g.parts[..|g.parts| - 1] else g.parts;
    g.(parts := kept + [MakePart(o, baseIndent, g.mode)])
  }

  lemma GroupsLast(gs: seq<Group>, g: Group)
    ensures GroupsContent(gs + [g]) == GroupsContent(gs) + GroupContent(g)
  {
    assert (gs + [g])[..|gs|] == gs;
  }

  lemma PartsLast(ps: seq<Part>, p: Part)
    ensures PartsContent(ps + [p]) == PartsContent(ps) + Dense(p.str)
  {
    assert (ps + [p])[..|ps|] == ps;
  }

  /** More content in the last group is more content in the level. */
  lemma LastGroupContent(l: Level, g: Group, more: string)
    requires l.groups != [] && GroupContent(g) == GroupContent(LastGroup(l)) + more
    ensures GroupsContent(WithLastGroup(l, g).groups) == GroupsContent(l.groups) + more
  {
    hide GroupContent;
    var front := l.groups[..|l.groups| - 1];
    GroupsLast(front, g);
    var x, y := GroupsContent(front), GroupContent(LastGroup(l));
    assert x + (y + more) == (x + y) + more;
  }

  /** More content in the last part is more content in the group. */
  lemma LastPartContent(g: Group, p: Part, more: string)
    requires g.parts != [] && Dense(p.str) == Dense(LastPart(g).str) + more
    ensures GroupContent(WithLastPart(g, p)) == GroupContent(g) + more
  {
    hide Dense;
    var front := g.parts[..|g.parts| - 1];
    PartsLast(front, p);
    var k, x, y := if g.keyword.Some? then Dense(g.keyword.value) else "", PartsContent(front), Dense(LastPart(g).str);
    assert k + (x + (y + more)) == (k + (x + y)) + more;
  }

  lemma NewPartContent(o: Options, baseIndent: int, g: Group, deduplicate: bool)
    requires g.parts != []
    ensures GroupContent(WithNewPart(o, baseIndent, g, deduplicate)) == GroupContent(g) == GroupContent(g) + ""
  {
    hide Dense;
    OnlyLayout();
    var front := g.parts[..|g.parts| - 1];
    var p := MakePart(o, baseIndent, g.mode);
    PartsLast(front, p);
    PartsLast(g.parts, p);
    assert forall s: string :: s + "" == s;
  }

  lemma StartedContent(o: Options, l: Level)
    ensures GroupsContent(Started(o, l).groups) == GroupsContent(l.groups)
    ensures Filled(l.groups) ==> Filled(Started(o, l).groups)
  {
    if l.groups == [] {
      OnlyLayout();
      var p := MakePart(o, l.baseIndent, NO_INDENT);
      OnePart(p);
      assert GroupContent(Group(None, [p], NO_INDENT)) == "";
      GroupsLast([], Group(None, [p], NO_INDENT));
      assert [] + [Group(None, [p], NO_INDENT)] == [Group(None, [p], NO_INDENT)];
    }
  }

  lemma TopContent(levels: seq<Level>, l: Level, more: string)
    requires levels != [] && GroupsContent(l.groups) == GroupsContent(levels[|levels| - 1].groups) + more
    ensures LevelsContent(levels[|levels| - 1 := l]) == LevelsContent(levels) + more
  {
    var n := |levels| - 1;
    assert levels[n := l][..n] == levels[..n];
    var x, y := LevelsContent(levels[..n]), GroupsContent(levels[n].groups);
    assert x + (y + more) == (x + y) + more;
  }

  lemma LevelsLast(levels: seq<Level>, l: Level)
    ensures LevelsContent(levels + [l]) == LevelsContent(levels) + GroupsContent(l.groups)
  {
    assert (levels + [l])[..|levels|] == levels;
  }

  // ----- the state -----

  class LayoutState {
    const opts: Options
    const comments: seq<Comment>
    var emitted: set<nat>
    ghost var printed: seq<nat>
    var levels: seq<Level>
    var results: seq<Part>

    ghost predicate Valid()
      reads this`levels
    {
      && (forall i :: 0 <= i < |levels| ==> Filled(levels[i].groups))
      && (forall i :: 0 <= i < |levels| - 1 ==> levels[i].groups != [])
    }

    /** Everything laid out so far, without the layout. */
    ghost function Content(): string
      reads this`levels, this`results
    {
      PartsContent(results) + LevelsContent(levels)
    }

    /** A statement starts with no level open; sizes of 0 stand for the defaults. */
    constructor (o: Options, comments: seq<Comment>)
      ensures this.comments == comments && emitted == {} && printed == []
      ensures Valid() && levels == [] && results == [] && Content() == ""
      ensures opts == WithDefaults(o)
    {
      opts := o.(indentSize := if o.indentSize == 0 then 4 else o.indentSize,
                 maxLineLength := if o.maxLineLength == 0 then 80 else o.maxLineLength);
      this.comments := comments;
      levels, results, emitted, printed := [], [], {}, [];
    }

    /** Replaces the current level by one with `more` content. */
    method SetTop(l: Level, ghost more: string)
      requires Valid() && levels != [] && Filled(l.groups)
      requires GroupsContent(l.groups) == GroupsContent(levels[|levels| - 1].groups) + more
      modifies this`levels
      ensures Valid() && Content() == old(Content()) + more
      ensures levels == old(levels)[|old(levels)| - 1 := l]
    {
      hide GroupsContent, PartsContent, LevelsContent;
      TopContent(levels, l, more);
      ghost var x, y := PartsContent(results), LevelsContent(levels);
      assert x + (y + more) == (x + y) + more;
      levels := levels[|levels| - 1 := l];
    }

    /** `deparseGetCurrentPartGroup` */
    method CurrentPartGroup() returns (g: Group)
      requires Valid() && levels != []
      modifies this`levels
      ensures Valid() && Content() == old(Content())
      ensures levels == old(levels)[|old(levels)| - 1 := Started(opts, old(levels)[|old(levels)| - 1])]
      ensures levels[|levels| - 1].groups != [] && g == LastGroup(levels[|levels| - 1]) && g.parts != []
    {
      var l := levels[|levels| - 1];
      StartedContent(opts, l);
      hide GroupsContent, PartsContent, LevelsContent;
      assert Content() + "" == Content();
      assert GroupsContent(l.groups) + "" == GroupsContent(l.groups);
      var r := Started(opts, l);
      SetTop(r, "");
      g := LastGroup(r);
    }

    /** Replaces the current group, which exists. */
    method SetGroup(g: Group, ghost more: string)
      requires Valid() && levels != [] && levels[|levels| - 1].groups != [] && g.parts != []
      requires GroupContent(g) == GroupContent(LastGroup(levels[|levels| - 1])) + more
      modifies this`levels
      ensures Valid() && Content() == old(Content()) + more
      ensures levels == old(levels)[|old(levels)| - 1 := WithLastGroup(old(levels)[|old(levels)| - 1], g)]
    {
      var l := levels[|levels| - 1];
      LastGroupContent(l, g, more);
      hide GroupsContent, PartsContent, LevelsContent, GroupContent;
      SetTop(WithLastGroup(l, g), more);
    }

    /** `deparseAppendStringInfoString` */
    method Append(s: string)
      requires Valid() && levels != []
      modifies this`levels
      ensures Valid() && Content() == old(Content()) + Dense(s)
      ensures levels == old(levels)[|old(levels)| - 1 := Appended(opts, old(levels)[|old(levels)| - 1], s)]
    {
      var g := CurrentPartGroup();
      var p := LastPart(g);
      DenseAppend(p.str, s);
      LastPartContent(g, p.(str := p.str + s), Dense(s));
      hide Dense, GroupContent;
      SetGroup(WithLastPart(g, p.(str := p.str + s)), Dense(s));
    }

    /** `removeTrailingSpace` */
    method RemoveTrailingSpace()
      requires Valid() && levels != []
      modifies this`levels
      ensures Valid() && Content() == old(Content()) && |levels| == |old(levels)|
      ensures levels[..|levels| - 1] == old(levels)[..|levels| - 1]
      ensures levels[|levels| - 1] == Trimmed(opts, old(levels)[|levels| - 1])
      ensures levels[|levels| - 1].groups != []
    {
      hide Dense, GroupContent, GroupsContent, LevelsContent, PartsContent, LayoutState.Valid, LayoutState.Content, Trim;
      assert Content() + "" == Content();
      var g := CurrentPartGroup();
      var p := LastPart(g);
      DenseTrim(p.str);
      assert Dense(p.str) + "" == Dense(p.str);
      LastPartContent(g, TrimPart(p), "");
      SetGroup(WithLastPart(g, TrimPart(p)), "");
    }

    /** `deparseMarkCurrentPartNonMergable` */
    method MarkCurrentPartNonMergable()
      requires Valid() && levels != []
      modifies this`levels
      ensures Valid() && Content() == old(Content()) && |levels| == |old(levels)|
      ensures levels[..|levels| - 1] == old(levels)[..|levels| - 1]
      ensures levels[|levels| - 1] == Frozen(opts, old(levels)[|levels| - 1])
    {
      hide Dense, GroupContent, GroupsContent, LevelsContent, PartsContent, LayoutState.Valid, LayoutState.Content;
      assert Content() + "" == Content();
      var g := CurrentPartGroup();
      var p := LastPart(g);
      assert Dense(p.str) + "" == Dense(p.str);
      LastPartContent(g, p.(mergeable := false), "");
      SetGroup(WithLastPart(g, p.(mergeable := false)), "");
    }

    /** `deparseAppendPart` */
    method AppendPart(deduplicate: bool)
      requires Valid() && levels != []
      modifies this`levels
      ensures Valid() && Content() == old(Content()) && |levels| == |old(levels)|
      ensures levels[..|levels| - 1] == old(levels)[..|levels| - 1]
      ensures levels[|levels| - 1] == Broken(opts, old(levels)[|levels| - 1], deduplicate)
    {
      hide Dense, GroupContent, GroupsContent, LevelsContent, PartsContent, LayoutState.Valid, LayoutState.Content;
      assert Content() + "" == Content();
      var g := CurrentPartGroup();
      var base := levels[|levels| - 1].baseIndent;
      NewPartContent(opts, base, g, deduplicate);
      var kept := if deduplicate && LastPart(g).str == "" then g.parts[..|g.parts| - 1] else g.parts;
      SetGroup(g.(parts := kept + [MakePart(opts, base, g.mode)]), "");
    }

    /** `deparseAppendCommaAndPart` */
    method AppendCommaAndPart()
      requires Valid() && levels != []
      modifies this`levels
      ensures Valid() && Content() == old(Content()) + "," && |levels| == |old(levels)|
      ensures levels[..|levels| - 1] == old(levels)[..|levels| - 1]
      ensures var top := old(levels)[|levels| - 1];
              levels[|levels| - 1] == if opts.commasStartOfLine then Appended(opts, Broken(opts, top, true), ", ")
                                      else Broken(opts, Appended(opts, top, ","), true)
    {
      hide *;
      DenseComma();
      if opts.commasStartOfLine {
        AppendPart(true);
        Append(", ");
      } else {
        Append(",");
        AppendPart(true);
      }
    }

    /** `deparseAppendPartGroup` */
    method AppendPartGroup(keyword: Option<string>, mode: IndentMode)
      requires Valid() && levels != []
      modifies this`levels
      ensures Valid() && |levels| == |old(levels)|
      ensures Content() == old(Content()) + if keyword.Some? then Dense(keyword.value) else ""
      ensures levels[..|levels| - 1] == old(levels)[..|levels| - 1]
      ensures var gs := levels[|levels| - 1].groups;
              gs != [] && gs[|gs| - 1] == Group(keyword, [MakePart(opts, levels[|levels| - 1].baseIndent, mode)], mode)
    {
      hide LayoutState.Valid, LayoutState.Content, GroupContent, GroupsContent, LevelsContent, PartsContent, Dense;
      if levels[|levels| - 1].groups != [] {
        RemoveTrailingSpace();
      }
      var g := Group(keyword, [MakePart(opts, levels[|levels| - 1].baseIndent, mode)], mode);
      NewGroupContent(g);
      PushGroup(g);
    }

    method PushGroup(g: Group)
      requires Valid() && levels != [] && g.parts != []
      modifies this`levels
      ensures Valid() && Content() == old(Content()) + GroupContent(g)
      ensures var l := old(levels)[|old(levels)| - 1];
              levels == old(levels)[|old(levels)| - 1 := l.(groups := l.groups + [g])]
    {
      var l := levels[|levels| - 1];
      GroupsLast(l.groups, g);
      hide GroupContent, GroupsContent, LevelsContent, PartsContent;
      SetTop(l.(groups := l.groups + [g]), GroupContent(g));
    }

    method PushLevel(l: Level)
      requires Valid() && l.groups == [] && (levels != [] ==> levels[|levels| - 1].groups != [])
      modifies this`levels
      ensures Valid() && Content() == old(Content()) && levels == old(levels) + [l]
    {
      LevelsLast(levels, l);
      assert GroupsContent([]) == "" && LevelsContent(levels) + "" == LevelsContent(levels);
      hide LevelsContent, PartsContent, GroupsContent;
      levels := levels + [l];
    }

    /** `deparseStateIncreaseNestingLevel` */
    method IncreaseNestingLevel()
      requires Valid()
      modifies this`levels
      ensures Valid() && Content() == old(Content()) && |levels| == |old(levels)| + 1
      ensures levels[|levels| - 1].groups == []
      ensures old(levels) == [] ==> levels == [Level([], 0)]
      ensures old(levels) != [] ==>
                var p := old(levels)[|old(levels)| - 1];
                && levels[|levels| - 2] == Frozen(opts, p)
                && levels[|levels| - 1].baseIndent == p.baseIndent + opts.indentSize
                     + if LastGroup(Started(opts, p)).mode.NO_INDENT? then 0 else opts.indentSize
    {
      if levels != [] {
        FrozenStarts(opts, levels[|levels| - 1]);
      }
      hide *;
      var base := 0;
      if levels != [] {
        var g := CurrentPartGroup();
        base := levels[|levels| - 1].baseIndent + opts.indentSize + if g.mode.NO_INDENT? then 0 else opts.indentSize;
        MarkCurrentPartNonMergable();
      }
      PushLevel(Level([], base));
    }

    /** The line breaks around a comment: parts when pretty printing, newlines otherwise. */
    method AppendNewlines(count: nat)
      requires Valid() && levels != []
      modifies this`levels
      ensures Valid() && Content() == old(Content()) && |levels| == |old(levels)|
      ensures levels[..|levels| - 1] == old(levels)[..|levels| - 1]
      ensures Filled(old(levels)[|levels| - 1].groups)
      ensures levels[|levels| - 1] == Newlines(opts, old(levels)[|levels| - 1], count)
      ensures SameKeyword(opts, old(levels)[|levels| - 1], levels[|levels| - 1])
    {
      hide *;
      KeywordKept(opts, levels[|levels| - 1]);
      TopFilled(this);
      NoNewlines(opts, levels[|levels| - 1]);
      for j := 0 to count
        invariant Valid() && Content() == old(Content()) && |levels| == |old(levels)|
        invariant levels[..|levels| - 1] == old(levels)[..|levels| - 1] && Filled(old(levels)[|levels| - 1].groups)
        invariant levels[|levels| - 1] == Newlines(opts, old(levels)[|levels| - 1], j)
        invariant SameKeyword(opts, old(levels)[|levels| - 1], levels[|levels| - 1])
      {
        NextNewline(opts, old(levels)[|levels| - 1], j);
        ghost var before := levels[|levels| - 1];
        TopFilled(this);
        if opts.prettyPrint {
          AppendPart(false);
        } else {
          OnlyLayout();
          AddNothing(Content());
          Append("\n");
        }
        KeywordSteps(opts, before, false, "\n");
        KeywordChains(opts, old(levels)[|levels| - 1], before, levels[|levels| - 1]);
      }
    }

    /** The body of the loop in `deparseAppendCommentsIfNeeded`. */
    method AppendComment(i: nat)
      requires Valid() && levels != [] && i < |comments|
      modifies this
      ensures Valid() && Content() == old(Content()) + Dense(comments[i].str) && |levels| == |old(levels)|
      ensures levels[..|levels| - 1] == old(levels)[..|levels| - 1]
      ensures Filled(old(levels)[|levels| - 1].groups)
      ensures levels[|levels| - 1] == Commented(opts, old(levels)[|levels| - 1], comments[i])
      ensures SameKeyword(opts, old(levels)[|levels| - 1], levels[|levels| - 1])
      ensures emitted == old(emitted) + {i} && printed == old(printed) + [i] && results == old(results)
    {
      hide *;
      var comment := comments[i];
      ghost var before := levels[|levels| - 1];
      TopFilled(this);
      KeywordKept(opts, before);
      CommentedIs(opts, before, comment);
      var newlinesBefore := NewlinesWanted(comment);
      ghost var l1 := levels[|levels| - 1];
      AppendNewlines(newlinesBefore);
      ghost var l2 := levels[|levels| - 1];
      KeywordChains(opts, before, l1, l2);
      TopFilled(this);
      Append(comment.str);
      ghost var l3 := levels[|levels| - 1];
      KeywordSteps(opts, l2, false, comment.str);
      KeywordChains(opts, before, l2, l3);
      TopFilled(this);
      MarkCurrentPartNonMergable();
      ghost var l4 := levels[|levels| - 1];
      KeywordSteps(opts, l3, false, "");
      KeywordChains(opts, before, l3, l4);
      AppendNewlines(comment.newlinesAfter);
      KeywordChains(opts, before, l4, levels[|levels| - 1]);
      emitted, printed := emitted + {i}, printed + [i];
    }

    /** One line break less when one was written for formatting reasons. */
    method NewlinesWanted(comment: Comment) returns (n: nat)
      requires Valid() && levels != []
      modifies this`levels
      ensures Valid() && Content() == old(Content()) && |levels| == |old(levels)|
      ensures levels[..|levels| - 1] == old(levels)[..|levels| - 1]
      ensures n == NewlinesBefore(opts, old(levels)[|levels| - 1], comment)
      ensures levels[|levels| - 1] in {old(levels)[|levels| - 1], Started(opts, old(levels)[|levels| - 1])}
      ensures SameKeyword(opts, old(levels)[|levels| - 1], levels[|levels| - 1])
    {
      hide Content, Valid;
      n := comment.newlinesBefore;
      if opts.prettyPrint && n > 0 {
        var g := CurrentPartGroup();
        if g.keyword.Some? && LastPart(g).str == "" {
          n := n - 1;
        }
      }
    }

    /** The visit has dealt with the first `i` comments. */
    ghost predicate Visited(i: nat, location: int, seen: set<nat>, before: seq<nat>, said: string, first: Level)
      reads this
    {
      && Valid() && levels != [] && SameKeyword(opts, first, levels[|levels| - 1]) && i <= |comments|
      && SoFar(comments, i, location, seen, before, said, emitted, printed, Content())
      && Filled(first.groups) && InRange(Pending(comments, seen, location, i), |comments|)
      && levels[|levels| - 1] == CommentedBy(opts, first, comments, Pending(comments, seen, location, i))
    }

    method VisitNext(i: nat, location: int, ghost seen: set<nat>, ghost before: seq<nat>, ghost said: string, ghost first: Level)
      requires Visited(i, location, seen, before, said, first) && i < |comments|
      modifies this
      ensures Visited(i + 1, location, seen, before, said, first)
      ensures |levels| == |old(levels)| && results == old(results)
      ensures levels[..|levels| - 1] == old(levels)[..|levels| - 1]
    {
      assert emitted == seen + Elements(Pending(comments, seen, location, i));
      hide LayoutState.Valid, LayoutState.Content, SoFar, SameKeyword, Dense, Commented, CommentedBy, Pending;
      PendingCommented(opts, first, comments, seen, location, i);
      if i !in emitted && comments[i].matchLocation <= location {
        ghost var l := levels[|levels| - 1];
        Take(comments, i, location, seen, before, said, emitted, printed, Content());
        AppendComment(i);
        KeywordChains(opts, first, l, levels[|levels| - 1]);
      } else {
        Skip(comments, i, location, seen, before, said, emitted, printed, Content());
      }
    }

    lemma VisitStarts(location: int)
      requires Valid() && levels != []
      ensures Visited(0, location, emitted, printed, Content(), levels[|levels| - 1])
    {
      assert Pending(comments, emitted, location, 0) == [] && emitted + Elements([]) == emitted;
      assert printed + [] == printed && CommentsContent(comments, []) == "" && Content() + "" == Content();
    }

    lemma VisitEnds(location: int, seen: set<nat>, before: seq<nat>, said: string, first: Level)
      requires Visited(|comments|, location, seen, before, said, first)
      ensures Valid() && levels != [] && SameKeyword(opts, first, levels[|levels| - 1])
      ensures Content() == said + VisitContent(comments, seen, location)
      ensures var p := Pending(comments, seen, location, |comments|);
              && emitted == seen + Elements(p) && printed == before + p
              && Filled(first.groups) && InRange(p, |comments|)
              && levels[|levels| - 1] == CommentedBy(opts, first, comments, p)
    {
      hide CommentedBy;
    }

    /** `deparseAppendCommentsIfNeeded` */
    method AppendCommentsIfNeeded(location: int)
      requires Valid() && levels != []
      modifies this
      ensures Valid() && |levels| == |old(levels)| && results == old(results)
      ensures Content() == old(Content()) + VisitContent(comments, old(emitted), location)
      ensures levels[..|levels| - 1] == old(levels)[..|levels| - 1]
      ensures SameKeyword(opts, old(levels)[|levels| - 1], levels[|levels| - 1])
      ensures var p := Pending(comments, old(emitted), location, |comments|);
              && emitted == old(emitted) + Elements(p) && printed == old(printed) + p
              && Filled(old(levels)[|levels| - 1].groups) && InRange(p, |comments|)
              && levels[|levels| - 1] == CommentedBy(opts, old(levels)[|levels| - 1], comments, p)
    {
      hide *;
      ghost var first, seen, before, said := levels[|levels| - 1], emitted, printed, Content();
      VisitStarts(location);
      for i := 0 to |comments|
        invariant Visited(i, location, seen, before, said, first)
        invariant |levels| == |old(levels)| && results == old(results) && levels != []
        invariant levels[..|levels| - 1] == old(levels)[..|levels| - 1]
      {
        VisitNext(i, location, seen, before, said, first);
      }
      VisitEnds(location, seen, before, said, first);
    }

    /** `deparseRemoveTrailingEmptyPart` at the start of a statement, where no keyword follows. */
    method RemoveTrailingEmptyPart()
      requires Valid() && levels != [] && LastGroup(Started(opts, levels[|levels| - 1])).keyword.None?
      modifies this`levels
      ensures Steady() && Content() == old(Content()) && |levels| == |old(levels)|
      ensures levels[..|levels| - 1] == old(levels)[..|levels| - 1]
      ensures levels[|levels| - 1] == WithoutEmptyPart(opts, old(levels)[|levels| - 1])
    {
      hide GroupsContent, GroupContent, PartsContent, LevelsContent, Dense;
      var g := CurrentPartGroup();
      if LastPart(g).str == "" {
        var l := levels[|levels| - 1];
        var rest := g.(parts := g.parts[..|g.parts| - 1]);
        EmptyPartContent(g);
        LastGroupContent(l, rest, "");
        TopContent(levels, WithLastGroup(l, rest), "");
        AddNothing(LevelsContent(levels));
        levels := levels[|levels| - 1 := WithLastGroup(l, rest)];
      }
    }

    /** What leaving the current level needs: only a keyword's group must have a part. */
    ghost predicate Steady()
      reads this`levels
    {
      && levels != []
      && (forall i :: 0 <= i < |levels| - 1 ==> Filled(levels[i].groups) && levels[i].groups != [])
      && Closable(levels[|levels| - 1].groups)
    }

    /** The lines of the current level go behind the parent's parts, or become results. */
    method HandOver(lines: seq<Part>)
      requires Steady() && PartsContent(lines) == GroupsContent(levels[|levels| - 1].groups)
      modifies this`levels, this`results
      ensures Valid() && Content() == old(Content()) && |levels| == |old(levels)| - 1
      ensures levels == [] ==> results == old(results) + lines
      ensures levels != [] ==>
                var n := |levels| - 1;
                && results == old(results) && old(levels)[n].groups != []
                && levels == old(levels)[..n] + [WithLines(old(levels)[n], lines)]
    {
      var n := |levels| - 1;
      if n == 0 {
        ToResults(results, levels, lines);
        hide GroupsContent, PartsContent, GroupContent, LevelsContent;
        results, levels := results + lines, [];
      } else {
        var l := levels[n - 1];
        hide GroupsContent, PartsContent, GroupContent, LevelsContent;
        ToParent(levels, lines);
        LinesFill(l, lines);
        hide Filled;
        levels := levels[..n - 1] + [WithLines(l, lines)];
      }
    }

    /** `deparseStateDecreaseNestingLevel` */
    method DecreaseNestingLevel() returns (ghost lines: seq<Part>, ghost pieces: seq<seq<Part>>)
      requires Steady()
      modifies this`levels, this`results
      ensures Valid() && Content() == old(Content()) && |levels| == |old(levels)| - 1
      ensures LevelLines(opts, old(levels)[|levels|], lines, pieces)
      ensures levels == [] ==> results == old(results) + lines
      ensures levels != [] ==>
                var n := |levels| - 1;
                && results == old(results) && levels[..n] == old(levels)[..n] && old(levels)[n].groups != []
                && Filled(WithLines(old(levels)[n], lines).groups)
                && Filled(Broken(opts, WithLines(old(levels)[n], lines), true).groups)
                && levels[n] == Frozen(opts, Broken(opts, WithLines(old(levels)[n], lines), true))
    {
      hide *;
      SteadyTop(this);
      lines, pieces := LeaveLevel();
      if levels != [] {
        TopFilled(this);
        AppendPart(true);
        TopFilled(this);
        MarkCurrentPartNonMergable();
      }
    }

    /** The parts of the level and what becomes of them. */
    method LeaveLevel() returns (ghost lines: seq<Part>, ghost pieces: seq<seq<Part>>)
      requires Steady()
      modifies this`levels, this`results
      ensures Valid() && Content() == old(Content()) && |levels| == |old(levels)| - 1
      ensures LevelLines(opts, old(levels)[|levels|], lines, pieces)
      ensures levels == [] ==> results == old(results) + lines
      ensures levels != [] ==>
                var n := |levels| - 1;
                && results == old(results) && old(levels)[n].groups != []
                && levels == old(levels)[..n] + [WithLines(old(levels)[n], lines)]
    {
      hide *;
      SteadyTop(this);
      var ls;
      ls, pieces := CloseLevel(opts, levels[|levels| - 1]);
      HandOver(ls);
      lines := ls;
    }
  }

  /** The current group is still the same one, at least by its keyword and mode. */
  ghost predicate SameKeyword(o: Options, l: Level, r: Level) {
    && r.baseIndent == l.baseIndent && |Started(o, r).groups| == |Started(o, l).groups|
    && LastGroup(Started(o, r)).keyword == LastGroup(Started(o, l)).keyword
  }

  lemma KeywordKept(o: Options, l: Level)
    ensures SameKeyword(o, l, l)
  {
  }

  lemma KeywordChains(o: Options, l: Level, r: Level, s: Level)
    ensures SameKeyword(o, l, r) && SameKeyword(o, r, s) ==> SameKeyword(o, l, s)
  {
  }

  lemma KeywordSteps(o: Options, l: Level, deduplicate: bool, s: string)
    requires Filled(l.groups)
    ensures SameKeyword(o, l, Started(o, l)) && SameKeyword(o, l, Broken(o, l, deduplicate))
    ensures SameKeyword(o, l, Appended(o, l, s)) && SameKeyword(o, l, Frozen(o, l))
  {
  }

  lemma TopFilled(state: LayoutState)
    requires state.Valid() && state.levels != []
    ensures Filled(state.levels[|state.levels| - 1].groups)
  {
  }

  lemma AddNothing(s: string)
    ensures s + "" == s
  {
  }

  lemma EmptyPartContent(g: Group)
    requires g.parts != [] && LastPart(g).str == ""
    ensures GroupContent(g.(parts := g.parts[..|g.parts| - 1])) == GroupContent(g) == GroupContent(g) + ""
  {
    hide Dense;
    OnlyLayout();
    var x := PartsContent(g.parts[..|g.parts| - 1]);
    assert x + "" == x;
  }

  lemma ToResults(results: seq<Part>, levels: seq<Level>, lines: seq<Part>)
    requires |levels| == 1 && PartsContent(lines) == GroupsContent(levels[0].groups)
    ensures PartsContent(results + lines) + LevelsContent([]) == PartsContent(results) + LevelsContent(levels)
  {
    hide PartsContent, GroupsContent;
    PartsAppend(results, lines);
    assert levels[..0] == [];
    var x, z := PartsContent(results), PartsContent(lines);
    assert LevelsContent(levels) == "" + z;
    assert x + ("" + z) == x + z && (x + z) + "" == x + z;
  }

  lemma ToParent(levels: seq<Level>, lines: seq<Part>)
    requires |levels| > 1 && PartsContent(lines) == GroupsContent(levels[|levels| - 1].groups)
    requires levels[|levels| - 2].groups != []
    ensures var n, l := |levels| - 1, levels[|levels| - 2];
            LevelsContent(levels[..n - 1] + [WithLines(l, lines)]) == LevelsContent(levels)
  {
    hide GroupsContent, PartsContent, GroupContent;
    var n, l := |levels| - 1, levels[|levels| - 2];
    var g := LastGroup(l);
    AppendedLines(g, lines);
    LastGroupContent(l, g.(parts := g.parts + lines), PartsContent(lines));
    TopContent(levels[..n], WithLines(l, lines), PartsContent(lines));
    assert levels[..n][n - 1 := WithLines(l, lines)] == levels[..n - 1] + [WithLines(l, lines)];
  }

  /** The lines of a nested level go behind the parts of the parent's current group. */
  function WithLines(l: Level, lines: seq<Part>): Level
    requires l.groups != []
  {
    WithLastGroup(l, LastGroup(l).(parts := LastGroup(l).parts + lines))
  }

  lemma LinesFill(l: Level, lines: seq<Part>)
    requires l.groups != [] && Filled(l.groups)
    ensures Filled(WithLines(l, lines).groups)
  {
  }

  lemma SteadyTop(state: LayoutState)
    requires state.Steady()
    ensures state.levels != [] && Closable(state.levels[|state.levels| - 1].groups)
  {
  }

  predicate Closable(groups: seq<Group>) {
    forall i :: 0 <= i < |groups| ==> groups[i].keyword.Some? ==> groups[i].parts != []
  }

  lemma AppendedLines(g: Group, lines: seq<Part>)
    ensures GroupContent(g.(parts := g.parts + lines)) == GroupContent(g) + PartsContent(lines)
  {
    PartsAppend(g.parts, lines);
    hide PartsContent, Dense;
    var k, x, y := if g.keyword.Some? then Dense(g.keyword.value) else "", PartsContent(g.parts), PartsContent(lines);
    assert k + (x + y) == (k + x) + y;
  }

  /** The keyword goes in front; it shares its line with a single part, or in an unindented group. */
  function WithKeyword(baseIndent: int, g: Group, parts: seq<Part>): seq<Part>
    requires g.keyword.Some? ==> parts != []
  {
    if g.keyword.None? then parts
    else
      var k := g.keyword.value;
      if |parts| == 1 || g.mode.NO_INDENT?
      then [Part(k + (if parts[0].str != "" then " " + parts[0].str else ""), baseIndent, false)] + parts[1..]
      else [Part(k, baseIndent, false)] + parts
  }

  lemma KeywordContent(baseIndent: int, g: Group, parts: seq<Part>)
    requires g.keyword.Some? ==> parts != []
    requires PartsContent(parts) == PartsContent(g.parts)
    ensures PartsContent(WithKeyword(baseIndent, g, parts)) == GroupContent(g)
  {
    if g.keyword.Some? {
      hide PartsContent, Dense;
      var k := g.keyword.value;
      if |parts| == 1 || g.mode.NO_INDENT? {
        SharedLine(k, parts, baseIndent);
      } else {
        OnePart(Part(k, baseIndent, false));
        PartsAppend([Part(k, baseIndent, false)], parts);
      }
    }
  }

  lemma SharedLine(k: string, parts: seq<Part>, baseIndent: int)
    requires parts != []
    ensures var line := Part(k + (if parts[0].str != "" then " " + parts[0].str else ""), baseIndent, false);
            PartsContent([line] + parts[1..]) == Dense(k) + PartsContent(parts)
  {
    hide PartsContent, Dense;
    var first, rest := parts[0], parts[1..];
    assert parts == [first] + rest;
    PartsAppend([first], rest);
    OnePart(first);
    var line := Part(k + (if first.str != "" then " " + first.str else ""), baseIndent, false);
    KeywordLine(k, first.str);
    OnePart(line);
    PartsAppend([line], rest);
    var x, y, z := Dense(k), Dense(first.str), PartsContent(rest);
    assert (x + y) + z == x + (y + z);
  }

  lemma KeywordLine(k: string, s: string)
    ensures Dense(k + (if s != "" then " " + s else "")) == Dense(k) + Dense(s)
  {
    OnlyLayout();
    hide Dense;
    if s == "" {
      assert k + "" == k && Dense(k) + "" == Dense(k);
    } else {
      DenseAppend(k, " " + s);
      DenseAppend(" ", s);
      assert "" + Dense(s) == Dense(s);
    }
  }

  /** The parts of a group, merged where the mode asks for it. */
  ghost predicate MergedFrom(o: Options, g: Group, merged: seq<Part>, runs: seq<seq<Part>>) {
    if g.mode.INDENT_AND_MERGE? && |g.parts| > 1 then IsMerged(g.parts, o.maxLineLength, merged, runs) else merged == g.parts
  }

  /** The lines that a group becomes. */
  ghost predicate GroupLines(o: Options, baseIndent: int, g: Group, lines: seq<Part>) {
    exists merged, runs ::
      && MergedFrom(o, g, merged, runs)
      && (g.keyword.Some? ==> merged != []) && lines == WithKeyword(baseIndent, g, merged)
  }

  /** The lines of a level: those of its groups, in order. */
  ghost predicate LevelLines(o: Options, l: Level, lines: seq<Part>, pieces: seq<seq<Part>>) {
    && |pieces| == |l.groups| && lines == Flat(pieces)
    && forall i :: 0 <= i < |pieces| ==> GroupLines(o, l.baseIndent, l.groups[i], pieces[i])
  }

  /** The lines of a group: its parts, merged where the mode asks for it, behind the keyword. */
  method CloseGroup(o: Options, baseIndent: int, g: Group) returns (lines: seq<Part>)
    requires g.keyword.Some? ==> g.parts != []
    ensures GroupLines(o, baseIndent, g, lines)
    ensures PartsContent(lines) == GroupContent(g)
  {
    var parts := g.parts;
    ghost var runs: seq<seq<Part>> := [];
    hide PartsContent, GroupContent, Dense, Joined, LineOf, Breaks, RunFits;
    if g.mode.INDENT_AND_MERGE? && |g.parts| > 1 {
      parts := MergeParts(g.parts, o.maxLineLength);
      runs :| IsMerged(g.parts, o.maxLineLength, parts, runs);
      MergedContent(g.parts, o.maxLineLength, parts, runs);
      SomeLine(g.parts, runs);
    }
    ghost var merged := parts;
    assert MergedFrom(o, g, merged, runs);
    KeywordContent(baseIndent, g, parts);
    if g.keyword.Some? {
      var k := g.keyword.value;
      var target := Part(k, baseIndent, false);
      parts := [target] + parts;
      if |parts| == 2 || g.mode.NO_INDENT? {
        var part := parts[1];
        if part.str != "" {
          target := target.(str := k + " " + part.str);
        }
        assert k + (" " + part.str) == k + " " + part.str && k + "" == k;
        parts := [target] + parts[2..];
        assert ([Part(k, baseIndent, false)] + merged)[2..] == merged[1..];
      }
    }
    lines := parts;
    assert lines == WithKeyword(baseIndent, g, merged);
  }

  lemma ClosableAt(groups: seq<Group>)
    requires Closable(groups)
    ensures forall i :: 0 <= i < |groups| ==> groups[i].keyword.Some? ==> groups[i].parts != []
  {
  }

  lemma GroupsNext(gs: seq<Group>, i: nat, lines: seq<Part>, more: seq<Part>)
    requires i < |gs| && PartsContent(lines) == GroupsContent(gs[..i]) && PartsContent(more) == GroupContent(gs[i])
    ensures PartsContent(lines + more) == GroupsContent(gs[..i + 1])
  {
    hide *;
    PartsAppend(lines, more);
    GroupsLast(gs[..i], gs[i]);
    assert gs[..i + 1] == gs[..i] + [gs[i]];
  }

  lemma SomeLine(parts: seq<Part>, runs: seq<seq<Part>>)
    requires parts != [] && Flat(runs) == parts
    ensures runs != []
  {
  }

  /** The lines of a level, group after group. */
  method CloseLevel(o: Options, l: Level) returns (lines: seq<Part>, ghost pieces: seq<seq<Part>>)
    requires Closable(l.groups)
    ensures LevelLines(o, l, lines, pieces)
    ensures PartsContent(lines) == GroupsContent(l.groups)
  {
    lines, pieces := [], [];
    hide *;
    NothingClosed(o, l);
    ClosableAt(l.groups);
    for i := 0 to |l.groups|
      invariant ClosedSoFar(o, l, i, lines, pieces)
    {
      var more := CloseGroup(o, l.baseIndent, l.groups[i]);
      CloseNext(o, l, i, lines, pieces, more);
      lines, pieces := lines + more, pieces + [more];
    }
    AllClosed(o, l, lines, pieces);
  }

  /** The first `i` groups are closed. */
  ghost predicate ClosedSoFar(o: Options, l: Level, i: nat, lines: seq<Part>, pieces: seq<seq<Part>>) {
    && i <= |l.groups| && PartsContent(lines) == GroupsContent(l.groups[..i])
    && |pieces| == i && lines == Flat(pieces)
    && forall k :: 0 <= k < i ==> GroupLines(o, l.baseIndent, l.groups[k], pieces[k])
  }

  lemma NothingClosed(o: Options, l: Level)
    ensures ClosedSoFar(o, l, 0, [], [])
  {
    assert l.groups[..0] == [];
  }

  lemma CloseNext(o: Options, l: Level, i: nat, lines: seq<Part>, pieces: seq<seq<Part>>, more: seq<Part>)
    requires ClosedSoFar(o, l, i, lines, pieces) && i < |l.groups|
    requires GroupLines(o, l.baseIndent, l.groups[i], more) && PartsContent(more) == GroupContent(l.groups[i])
    ensures ClosedSoFar(o, l, i + 1, lines + more, pieces + [more])
  {
    hide PartsContent, GroupsContent, GroupContent, GroupLines, Flat;
    GroupsNext(l.groups, i, lines, more);
    FlatMore(pieces, more);
    var longer := pieces + [more];
    forall k | 0 <= k < i + 1 ensures GroupLines(o, l.baseIndent, l.groups[k], longer[k]) {
      assert longer[k] == if k < i then pieces[k] else more;
    }
  }

  lemma AllClosed(o: Options, l: Level, lines: seq<Part>, pieces: seq<seq<Part>>)
    requires ClosedSoFar(o, l, |l.groups|, lines, pieces)
    ensures LevelLines(o, l, lines, pieces) && PartsContent(lines) == GroupsContent(l.groups)
  {
    hide PartsContent, GroupsContent, GroupLines, Flat;
    assert l.groups[..|l.groups|] == l.groups;
  }

  lemma FlatMore(pieces: seq<seq<Part>>, more: seq<Part>)
    ensures Flat(pieces + [more]) == Flat(pieces) + more
  {
    assert (pieces + [more])[..|pieces|] == pieces;
  }

  lemma DenseComma()
    ensures Dense(",") == "," && Dense(", ") == ","
  {
    DenseChar("", ',');
    DenseChar(",", ' ');
    assert "" + [','] == "," && "," + [' '] == ", ";
  }

  lemma NewGroupContent(g: Group)
    requires |g.parts| == 1 && g.parts[0].str == ""
    ensures GroupContent(g) == if g.keyword.Some? then Dense(g.keyword.value) else ""
  {
    OnlyLayout();
    assert g.parts == [g.parts[0]];
    OnePart(g.parts[0]);
    assert g.keyword.Some? ==> Dense(g.keyword.value) + "" == Dense(g.keyword.value);
  }

  lemma FrozenStarts(o: Options, l: Level)
    requires Filled(l.groups)
    ensures Frozen(o, l).groups != [] && Frozen(o, l).baseIndent == l.baseIndent
    ensures Started(o, l).baseIndent == l.baseIndent && Filled(Started(o, l).groups)
    ensures LastGroup(Frozen(o, l)).mode == LastGroup(Started(o, l)).mode
    ensures Frozen(o, Started(o, l)) == Frozen(o, l)
  {
  }

  /** The level after a string has been appended. */
  function Appended(o: Options, l: Level, s: string): (r: Level)
    requires Filled(l.groups)
    ensures Filled(r.groups)
  {
    var r := Started(o, l);
    var g := LastGroup(r);
    WithLastGroup(r, WithLastPart(g, LastPart(g).(str := LastPart(g).str + s)))
  }

  /** The level after its current part has been barred from merging. */
  function Frozen(o: Options, l: Level): (r: Level)
    requires Filled(l.groups)
    ensures Filled(r.groups)
  {
    var r := Started(o, l);
    var g := LastGroup(r);
    WithLastGroup(r, WithLastPart(g, LastPart(g).(mergeable := false)))
  }

  /** The level after a new part has been opened. */
  function Broken(o: Options, l: Level, deduplicate: bool): (r: Level)
    requires Filled(l.groups)
    ensures Filled(r.groups)
  {
    var r := Started(o, l);
    WithLastGroup(r, WithNewPart(o, l.baseIndent, LastGroup(r), deduplicate))
  }

  /** The level after a trailing space of its current part has gone. */
  function Trimmed(o: Options, l: Level): Level
    requires Filled(l.groups)
  {
    var r := Started(o, l);
    var g := LastGroup(r);
    WithLastGroup(r, WithLastPart(g, TrimPart(LastPart(g))))
  }

  /** The level after its current part has gone, if that was empty. */
  function WithoutEmptyPart(o: Options, l: Level): Level
    requires Filled(l.groups)
  {
    var r := Started(o, l);
    var g := LastGroup(r);
    if LastPart(g).str == "" then WithLastGroup(r, g.(parts := g.parts[..|g.parts| - 1])) else r
  }

  /** The level after `count` line breaks. */
  function Newlines(o: Options, l: Level, count: nat): (r: Level)
    requires Filled(l.groups)
    ensures Filled(r.groups)
  {
    if count == 0 then l
    else
      var r := Newlines(o, l, count - 1);
      if o.prettyPrint then Broken(o, r, false) else Appended(o, r, "\n")
  }

  /** The line breaks in front of a comment. */
  function NewlinesBefore(o: Options, l: Level, c: Comment): nat
    requires Filled(l.groups)
  {
    var g := LastGroup(Started(o, l));
    if o.prettyPrint && c.newlinesBefore > 0 && g.keyword.Some? && LastPart(g).str == "" then c.newlinesBefore - 1
    else c.newlinesBefore
  }

  /** The level after a comment: line breaks, the text in a part that is not merged, line breaks. */
  function Commented(o: Options, l: Level, c: Comment): (r: Level)
    requires Filled(l.groups)
    ensures Filled(r.groups)
  {
    Newlines(o, Frozen(o, Appended(o, Newlines(o, l, NewlinesBefore(o, l, c)), c.str)), c.newlinesAfter)
  }

  /** The level after the comments `p`, one after the other. */
  function CommentedBy(o: Options, l: Level, comments: seq<Comment>, p: seq<nat>): (r: Level)
    requires Filled(l.groups) && InRange(p, |comments|)
    ensures Filled(r.groups)
  {
    if p == [] then l else Commented(o, CommentedBy(o, l, comments, p[..|p| - 1]), comments[p[|p| - 1]])
  }

  /** A comment that is due adds itself, another one nothing. */
  lemma PendingCommented(o: Options, l: Level, comments: seq<Comment>, seen: set<nat>, location: int, i: nat)
    requires Filled(l.groups) && i < |comments|
    ensures var p, q := Pending(comments, seen, location, i), Pending(comments, seen, location, i + 1);
            && InRange(p, |comments|) && InRange(q, |comments|)
            && CommentedBy(o, l, comments, q)
               == if i !in seen + Elements(p) && comments[i].matchLocation <= location
                  then Commented(o, CommentedBy(o, l, comments, p), comments[i]) else CommentedBy(o, l, comments, p)
  {
    var p, q := Pending(comments, seen, location, i), Pending(comments, seen, location, i + 1);
    PendingNext(comments, seen, location, i);
    PendingInRange(comments, seen, location, i);
    PendingInRange(comments, seen, location, i + 1);
    hide Pending, Commented;
    if q == p + [i] {
      assert q[..|q| - 1] == p;
    }
  }

  lemma NoNewlines(o: Options, l: Level)
    requires Filled(l.groups)
    ensures Newlines(o, l, 0) == l
  {
  }

  lemma NextNewline(o: Options, l: Level, j: nat)
    requires Filled(l.groups)
    ensures Newlines(o, l, j + 1) == if o.prettyPrint then Broken(o, Newlines(o, l, j), false) else Appended(o, Newlines(o, l, j), "\n")
  {
    hide Broken, Appended;
  }

  lemma {:induction false} NewlinesStart(o: Options, l: Level, n: nat)
    requires Filled(l.groups)
    ensures Filled(Started(o, l).groups) && Newlines(o, Started(o, l), n) in {Newlines(o, l, n), Started(o, Newlines(o, l, n))}
  {
    if n > 0 {
      NewlinesStart(o, l, n - 1);
    }
  }

  /** Whether the level is started before the line breaks makes no difference. */
  lemma CommentedIs(o: Options, l: Level, c: Comment)
    requires Filled(l.groups)
    ensures Filled(Started(o, l).groups)
    ensures var n := NewlinesBefore(o, l, c);
            && Commented(o, l, c) == Newlines(o, Frozen(o, Appended(o, Newlines(o, l, n), c.str)), c.newlinesAfter)
            && Commented(o, l, c) == Newlines(o, Frozen(o, Appended(o, Newlines(o, Started(o, l), n), c.str)), c.newlinesAfter)
  {
    NewlinesStart(o, l, NewlinesBefore(o, l, c));
    hide Newlines, Frozen, NewlinesBefore;
  }
}
