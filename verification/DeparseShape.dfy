/**
 The layout in full: what a short SELECT looks like, and where a comment goes.
 */
module DeparseShape {
  import opened Common
  import opened DeparseText
  import opened DeparseComments
  import opened DeparseLayout
  import opened DeparseEmit

  // ----- the operations on the last part -----

  lemma AppendedIs(o: Options, base: int, gs: seq<Group>, g: Group, ps: seq<Part>, p: Part, s: string)
    requires g.parts == ps + [p] && Filled(gs)
    ensures Appended(o, Level(gs + [g], base), s) == Level(gs + [g.(parts := ps + [p.(str := p.str + s)])], base)
  {
    var l := Level(gs + [g], base);
    assert l.groups[..|gs|] == gs && LastGroup(l) == g && g.parts[..|ps|] == ps && LastPart(g) == p;
  }

  lemma BrokenIs(o: Options, base: int, gs: seq<Group>, g: Group, ps: seq<Part>, p: Part, deduplicate: bool)
    requires g.parts == ps + [p] && Filled(gs)
    ensures var kept := if deduplicate && p.str == "" then ps else ps + [p];
            Broken(o, Level(gs + [g], base), deduplicate)
            == Level(gs + [g.(parts := kept + [MakePart(o, base, g.mode)])], base)
  {
    var l := Level(gs + [g], base);
    assert l.groups[..|gs|] == gs && LastGroup(l) == g && g.parts[..|ps|] == ps && LastPart(g) == p;
  }

  lemma TrimmedIs(o: Options, base: int, gs: seq<Group>, g: Group, ps: seq<Part>, p: Part)
    requires g.parts == ps + [p] && Filled(gs)
    ensures Filled(gs + [g]) && Trimmed(o, Level(gs + [g], base))
         == Level(gs + [g.(parts := ps + [p.(str := if p.str != "" && p.str[|p.str| - 1] == ' ' then p.str[..|p.str| - 1]
                                                   else p.str)])], base)
  {
    var l := Level(gs + [g], base);
    assert l.groups[..|gs|] == gs && LastGroup(l) == g && g.parts[..|ps|] == ps && LastPart(g) == p;
  }

  lemma WithoutEmptyIs(o: Options, base: int, gs: seq<Group>, g: Group, ps: seq<Part>, p: Part)
    requires g.parts == ps + [p] && Filled(gs)
    ensures Filled(gs + [g])
    ensures WithoutEmptyPart(o, Level(gs + [g], base)) == Level(gs + [g.(parts := if p.str == "" then ps else ps + [p])], base)
  {
    var l := Level(gs + [g], base);
    assert l.groups[..|gs|] == gs && LastGroup(l) == g && g.parts[..|ps|] == ps && LastPart(g) == p;
  }

  /** A level without groups starts with one that has no keyword and is not indented. */
  lemma StartedIs(o: Options, base: int, s: string)
    ensures Appended(o, Level([], base), s) == Level([Group(None, [Part(s, base, false)], NO_INDENT)], base)
  {
    var g := Group(None, [Part("", base, false)], NO_INDENT);
    AppendedIs(o, base, [], g, [], Part("", base, false), s);
    assert [] + [g] == [g] && "" + s == s && [] + [Part(s, base, false)] == [Part(s, base, false)];
    var done := Group(None, [Part(s, base, false)], NO_INDENT);
    assert [] + [done] == [done];
    assert Started(o, Level([], base)) == Started(o, Level([g], base));
  }

  /** The level after a group has been opened. */
  function Opened(o: Options, l: Level, keyword: string, mode: IndentMode): (r: Level)
    ensures Filled(l.groups) ==> Filled(r.groups)
  {
    l.(groups := l.groups + [Group(Some(keyword), [MakePart(o, l.baseIndent, mode)], mode)])
  }

  /** Parts are indented with their level, and once more in groups that are indented; only some groups merge theirs. */
  lemma PartIn(o: Options, l: Level, keyword: string, mode: IndentMode)
    ensures var part := LastPart(LastGroup(Opened(o, l, keyword, mode)));
            part.str == "" && part.indent == l.baseIndent + (if mode == NO_INDENT then 0 else o.indentSize)
            && (part.mergeable <==> mode == INDENT_AND_MERGE)
  {
  }

  // ----- a SELECT of two targets -----

  /** `SELECT a, b FROM t`, as its printer lays it out. */
  function Select(o: Options, a: string, b: string, t: string): Level {
    var l1 := Appended(o, Opened(o, Level([], 0), "SELECT", INDENT_AND_MERGE), a);
    var l2 := Appended(o, Broken(o, Appended(o, l1, ","), true), b);
    Appended(o, Opened(o, l2, "FROM", INDENT), t)
  }

  predicate IsWord(s: string) {
    s != "" && '\n' !in s && s[|s| - 1] != ' ' && s[|s| - 1] != '('
  }

  lemma PartsAre(o: Options)
    requires o.indentSize == 4
    ensures MakePart(o, 0, INDENT_AND_MERGE) == Part("", 4, true) && MakePart(o, 0, INDENT) == Part("", 4, false)
  {
  }

  function Targets(parts: seq<Part>): Group {
    Group(Some("SELECT"), parts, INDENT_AND_MERGE)
  }

  lemma TargetsAre(o: Options, a: string, b: string)
    requires o.indentSize == 4
    ensures var l1 := Appended(o, Level([Targets([Part("", 4, true)])], 0), a);
            Appended(o, Broken(o, Appended(o, l1, ","), true), b) == Level([Targets([Part(a + ",", 4, true), Part(b, 4, true)])], 0)
  {
    hide *;
    var blank, p := Part("", 4, true), Part(a + ",", 4, true);
    OneGroup(o, [], blank, a);
    OneGroup(o, [], Part(a, 4, true), ",");
    OneGroupBroken(o, p);
    OneGroup(o, [p], blank, b);
    assert "" + a == a && "" + b == b;
    assert forall x: Part :: [] + [x] == [x];
    assert [p] + [blank] == [p, blank] && [p] + [Part(b, 4, true)] == [p, Part(b, 4, true)];
  }

  lemma OneGroup(o: Options, ps: seq<Part>, p: Part, s: string)
    ensures Filled(Level([Targets(ps + [p])], 0).groups)
    ensures Appended(o, Level([Targets(ps + [p])], 0), s) == Level([Targets(ps + [p.(str := p.str + s)])], 0)
  {
    AppendedIs(o, 0, [], Targets(ps + [p]), ps, p, s);
    assert [] + [Targets(ps + [p])] == [Targets(ps + [p])];
    var t := Targets(ps + [p.(str := p.str + s)]);
    assert [] + [t] == [t];
    hide Appended;
  }

  lemma OneGroupBroken(o: Options, p: Part)
    requires o.indentSize == 4 && p.str != ""
    ensures Filled(Level([Targets([p])], 0).groups)
    ensures Broken(o, Level([Targets([p])], 0), true) == Level([Targets([p] + [Part("", 4, true)])], 0)
  {
    BrokenIs(o, 0, [], Targets([p]), [], p, true);
    hide Broken;
    var t := Targets([p] + [Part("", 4, true)]);
    assert [] + [t] == [t] && [] + [Targets([p])] == [Targets([p])] && [] + [p] == [p];
  }

  lemma SelectIs(o: Options, a: string, b: string, t: string)
    requires o.indentSize == 4
    ensures Select(o, a, b, t) == Level([Group(Some("SELECT"), [Part(a + ",", 4, true), Part(b, 4, true)], INDENT_AND_MERGE),
                                         Group(Some("FROM"), [Part(t, 4, false)], INDENT)], 0)
  {
    TargetsAre(o, a, b);
    PartsAre(o);
    var g, from := Targets([Part(a + ",", 4, true), Part(b, 4, true)]), Group(Some("FROM"), [Part("", 4, false)], INDENT);
    var start := Opened(o, Level([], 0), "SELECT", INDENT_AND_MERGE);
    assert start == Level([Targets([Part("", 4, true)])], 0);
    AppendedIs(o, 0, [g], from, [], Part("", 4, false), t);
    assert "" + t == t && [] + [Part(t, 4, false)] == [Part(t, 4, false)] && [] + [Part("", 4, false)] == [Part("", 4, false)];
    assert Opened(o, Level([g], 0), "FROM", INDENT) == Level([g] + [from], 0);
    var done := Group(Some("FROM"), [Part(t, 4, false)], INDENT);
    assert [g] + [done] == [g, done];
    hide Appended, Broken, MakePart;
  }

  // ----- its lines -----

  lemma {:induction false} FlatLength(runs: seq<seq<Part>>)
    requires forall k :: 0 <= k < |runs| ==> runs[k] != []
    ensures |Flat(runs)| >= |runs|
  {
    if runs != [] {
      FlatLength(runs[..|runs| - 1]);
    }
  }

  lemma OnePiece(x: seq<Part>)
    ensures Flat([x]) == x
  {
    assert [x][..0] == [] && Flat([]) == [] && [] + x == x;
  }

  lemma TwoPieces(x: seq<Part>, y: seq<Part>)
    ensures Flat([x, y]) == x + y
  {
    OnePiece(x);
    assert [x, y][..1] == [x];
  }

  lemma TwoRuns(runs: seq<seq<Part>>, p: Part, q: Part)
    requires Flat(runs) == [p, q] && forall k :: 0 <= k < |runs| ==> runs[k] != []
    ensures runs == [[p, q]] || runs == [[p], [q]]
  {
    hide Flat;
    FlatLength(runs);
    NoPiece();
    if |runs| == 1 {
      OnePiece(runs[0]);
      assert runs == [runs[0]];
    } else {
      TwoPieces(runs[0], runs[1]);
      assert runs == [runs[0], runs[1]];
      OneEach(runs[0], runs[1], p, q);
    }
  }

  lemma NoPiece()
    ensures Flat([]) == []
  {
  }

  lemma OneEach(x: seq<Part>, y: seq<Part>, p: Part, q: Part)
    requires x + y == [p, q] && x != [] && y != []
    ensures x == [p] && y == [q]
  {
    assert |x| == 1 && |y| == 1 && (x + y)[0] == x[0] && (x + y)[1] == y[0];
  }

  lemma JoinTwo(p: Part, q: Part)
    requires p.str != "" && p.str[|p.str| - 1] == ','
    ensures Joined([p, q]) == p.(str := p.str + " " + q.str) && Joined([p]) == p && TrimPart(p) == p && Joined([q]) == q
  {
    assert [p, q][..1] == [p];
  }

  /** Two parts that may be merged share a line exactly when it is not too long. */
  lemma MergedTwo(p: Part, q: Part, max: int, merged: seq<Part>, runs: seq<seq<Part>>)
    requires p.mergeable && q.mergeable && p.str != "" && p.str[|p.str| - 1] == ','
    requires IsMerged([p, q], max, merged, runs)
    ensures merged == if p.indent + |p.str| + 1 + |q.str| <= max then [p.(str := p.str + " " + q.str)] else [p, q]
  {
    TwoRuns(runs, p, q);
    JoinTwo(p, q);
    hide Joined, IsJoinedApart, Flat;
    if runs == [[p, q]] {
      assert RunFits(runs[0], max) && merged[0] == LineOf(runs, 0);
    } else {
      assert Breaks(runs, 0, max) && merged[0] == LineOf(runs, 0) && merged[1] == LineOf(runs, 1);
    }
  }

  lemma NoTwo(g: Group, merged: seq<Part>, runs: seq<seq<Part>>, o: Options)
    requires |g.parts| == 1 && MergedFrom(o, g, merged, runs)
    ensures merged == g.parts
  {
  }

  /** What the two groups become. */
  lemma SelectLines(o: Options, a: string, b: string, t: string, lines: seq<Part>, pieces: seq<seq<Part>>)
    requires o.indentSize == 4 && o.maxLineLength == 80 && b != "" && t != ""
    requires LevelLines(o, Select(o, a, b, t), lines, pieces)
    ensures lines == (if |a| + |b| + 6 <= 80 then [Part("SELECT " + (a + ", " + b), 0, false)]
                      else [Part("SELECT", 0, false), Part(a + ",", 4, true), Part(b, 4, true)])
                     + [Part("FROM " + t, 0, false)]
  {
    SelectIs(o, a, b, t);
    hide Select;
    var p, q := Part(a + ",", 4, true), Part(b, 4, true);
    var targets, from := Targets([p, q]), Group(Some("FROM"), [Part(t, 4, false)], INDENT);
    TargetLines(o, a, b, pieces[0]);
    FromLines(o, t, pieces[1]);
    assert pieces == [pieces[0], pieces[1]];
    TwoPieces(pieces[0], pieces[1]);
  }

  lemma FromLines(o: Options, t: string, lines: seq<Part>)
    requires t != "" && GroupLines(o, 0, Group(Some("FROM"), [Part(t, 4, false)], INDENT), lines)
    ensures lines == [Part("FROM " + t, 0, false)]
  {
    var g := Group(Some("FROM"), [Part(t, 4, false)], INDENT);
    var merged, runs :| MergedFrom(o, g, merged, runs) && (g.keyword.Some? ==> merged != []) && lines == WithKeyword(0, g, merged);
    NoTwo(g, merged, runs, o);
    assert "FROM" + (" " + t) == "FROM " + t;
    assert merged[1..] == [];
  }

  lemma TargetLines(o: Options, a: string, b: string, lines: seq<Part>)
    requires o.maxLineLength == 80 && b != ""
    requires GroupLines(o, 0, Targets([Part(a + ",", 4, true), Part(b, 4, true)]), lines)
    ensures lines == if |a| + |b| + 6 <= 80 then [Part("SELECT " + (a + ", " + b), 0, false)]
                     else [Part("SELECT", 0, false), Part(a + ",", 4, true), Part(b, 4, true)]
  {
    hide IsMerged, MergedFrom, WithKeyword;
    var g := Targets([Part(a + ",", 4, true), Part(b, 4, true)]);
    var merged, runs :| MergedFrom(o, g, merged, runs) && (g.keyword.Some? ==> merged != []) && lines == WithKeyword(0, g, merged);
    KeywordLines(o, a, b, merged, runs);
  }

  lemma KeywordLines(o: Options, a: string, b: string, merged: seq<Part>, runs: seq<seq<Part>>)
    requires o.maxLineLength == 80 && b != ""
    requires MergedFrom(o, Targets([Part(a + ",", 4, true), Part(b, 4, true)]), merged, runs)
    ensures merged != []
    ensures WithKeyword(0, Targets([Part(a + ",", 4, true), Part(b, 4, true)]), merged)
         == if |a| + |b| + 6 <= 80 then [Part("SELECT " + (a + ", " + b), 0, false)]
            else [Part("SELECT", 0, false), Part(a + ",", 4, true), Part(b, 4, true)]
  {
    hide *;
    var p, q := Part(a + ",", 4, true), Part(b, 4, true);
    var g := Targets([p, q]);
    MergedIs(o, p, q, merged, runs);
    TargetsKeyword([p, q]);
    assert p.str + " " + q.str == a + ", " + b;
    if |a| + |b| + 6 <= 80 {
      KeywordShared(0, g, merged);
      assert "SELECT" + " " + (a + ", " + b) == "SELECT " + (a + ", " + b);
    } else {
      KeywordAbove(0, g, merged);
    }
  }

  lemma TargetsKeyword(parts: seq<Part>)
    ensures Targets(parts).keyword == Some("SELECT") && !Targets(parts).mode.NO_INDENT?
  {
  }

  lemma MergedIs(o: Options, p: Part, q: Part, merged: seq<Part>, runs: seq<seq<Part>>)
    requires o.maxLineLength == 80 && MergedFrom(o, Targets([p, q]), merged, runs)
    requires p.mergeable && q.mergeable && p.str != "" && p.str[|p.str| - 1] == ','
    ensures merged == if p.indent + |p.str| + 1 + |q.str| <= 80 then [p.(str := p.str + " " + q.str)] else [p, q]
  {
    MergedTwo(p, q, 80, merged, runs);
    hide IsMerged;
  }

  /** A single part shares the line of the keyword. */
  lemma KeywordShared(base: int, g: Group, parts: seq<Part>)
    requires g.keyword.Some? && |parts| == 1 && parts[0].str != ""
    ensures WithKeyword(base, g, parts) == [Part(g.keyword.value + " " + parts[0].str, base, false)]
  {
    assert g.keyword.value + (" " + parts[0].str) == g.keyword.value + " " + parts[0].str && parts[1..] == [];
  }

  /** Several indented parts stand below it. */
  lemma KeywordAbove(base: int, g: Group, parts: seq<Part>)
    requires g.keyword.Some? && |parts| > 1 && !g.mode.NO_INDENT?
    ensures WithKeyword(base, g, parts) == [Part(g.keyword.value, base, false)] + parts
  {
  }

  lemma WordLine(part: Part)
    requires part.str != "" && part.str[|part.str| - 1] != ' ' && part.indent in {0, 4}
    ensures Line(part) == (if part.indent == 4 then "    " else "") + part.str
  {
    var n := part.indent;
    assert seq(n, _ => ' ') == if n == 4 then "    " else "";
    var line := seq(n, _ => ' ') + part.str;
    assert line[|line| - 1] == part.str[|part.str| - 1];
  }

  /**
   `SELECT a, b FROM t`, pretty printed with the sizes that are the default: the targets share the line
   of the keyword as long as they fit 80 characters, otherwise each has an indented line of its own.
   */
  lemma SelectShown(trailingNewline: bool, a: string, b: string, t: string, lines: seq<Part>, pieces: seq<seq<Part>>, below: char)
    requires IsWord(a) && IsWord(b) && IsWord(t)
    requires var o := WithDefaults(Options(true, 0, 0, trailingNewline, false)); LevelLines(o, Select(o, a, b, t), lines, pieces)
    ensures var o := WithDefaults(Options(true, 0, 0, trailingNewline, false));
            Cut(Emitted(o, "", lines, |lines|, below))
            == (if |a| + |b| + 6 <= 80 then ["SELECT " + (a + ", " + b)] else ["SELECT", "    " + (a + ","), "    " + b]) + ["FROM " + t]
  {
    hide *;
    var o := WithDefaults(Options(true, 0, 0, trailingNewline, false));
    SizesAre(trailingNewline);
    WordsSay(a, b, t);
    SelectLines(o, a, b, t, lines, pieces);
    LinesShown(a, b, t, lines);
    OneLineEach(o, lines, below);
  }

  lemma SizesAre(trailingNewline: bool)
    ensures var o := WithDefaults(Options(true, 0, 0, trailingNewline, false));
            o.prettyPrint && o.indentSize == 4 && o.maxLineLength == 80 && o.trailingNewline == trailingNewline
  {
  }

  lemma WordsSay(a: string, b: string, t: string)
    requires IsWord(a) && IsWord(b) && IsWord(t)
    ensures b != "" && t != ""
  {
  }

  lemma LinesShown(a: string, b: string, t: string, lines: seq<Part>)
    requires IsWord(a) && IsWord(b) && IsWord(t)
    requires lines == (if |a| + |b| + 6 <= 80 then [Part("SELECT " + (a + ", " + b), 0, false)]
                       else [Part("SELECT", 0, false), Part(a + ",", 4, true), Part(b, 4, true)])
                      + [Part("FROM " + t, 0, false)]
    ensures lines != [] && OneLiners(lines)
    ensures Lines(lines)
         == (if |a| + |b| + 6 <= 80 then ["SELECT " + (a + ", " + b)] else ["SELECT", "    " + (a + ","), "    " + b]) + ["FROM " + t]
  {
    hide Line, Lines;
    LinesAre(lines);
    LastOf("FROM ", t);
    WordLine(Part("FROM " + t, 0, false));
    assert "" + ("FROM " + t) == "FROM " + t;
    if |a| + |b| + 6 <= 80 {
      LastOf(a + ", ", b);
      LastOf("SELECT ", a + ", " + b);
      WordLine(Part("SELECT " + (a + ", " + b), 0, false));
      assert "" + ("SELECT " + (a + ", " + b)) == "SELECT " + (a + ", " + b);
    } else {
      WordLine(Part("SELECT", 0, false));
      assert "" + "SELECT" == "SELECT";
      LastOf(a, ",");
      WordLine(Part(a + ",", 4, true));
      WordLine(Part(b, 4, true));
    }
  }

  lemma LastOf(x: string, y: string)
    requires y != ""
    ensures (x + y)[|x + y| - 1] == y[|y| - 1]
  {
  }

  lemma LinesAre(lines: seq<Part>)
    ensures |lines| == 2 ==> Lines(lines) == [Line(lines[0]), Line(lines[1])]
    ensures |lines| == 4 ==> Lines(lines) == [Line(lines[0]), Line(lines[1]), Line(lines[2]), Line(lines[3])]
  {
    hide Line;
  }

  // ----- comments -----

  function Repeat<T>(x: T, n: nat): (xs: seq<T>)
    ensures |xs| == n && forall i :: 0 <= i < n ==> xs[i] == x
  {
    seq(n, _ => x)
  }

  lemma RepeatMore<T>(x: T, n: nat)
    ensures Repeat(x, n + 1) == Repeat(x, n) + [x] && Repeat(x, 0) == []
  {
  }

  lemma FrozenIs(o: Options, base: int, gs: seq<Group>, g: Group, ps: seq<Part>, p: Part)
    requires g.parts == ps + [p] && Filled(gs)
    ensures Frozen(o, Level(gs + [g], base)) == Level(gs + [g.(parts := ps + [p.(mergeable := false)])], base)
  {
    var l := Level(gs + [g], base);
    assert l.groups[..|gs|] == gs && LastGroup(l) == g && g.parts[..|ps|] == ps && LastPart(g) == p;
  }

  /** Line breaks are new parts in pretty printed text and newlines in the current part otherwise. */
  lemma {:induction false} NewlinesAre(o: Options, base: int, gs: seq<Group>, g: Group, ps: seq<Part>, p: Part, n: nat)
    requires g.parts == ps + [p] && Filled(gs)
    ensures Newlines(o, Level(gs + [g], base), n)
         == Level(gs + [g.(parts := if o.prettyPrint then ps + [p] + Repeat(MakePart(o, base, g.mode), n)
                                    else ps + [p.(str := p.str + Repeat('\n', n))])], base)
  {
    hide Appended, Broken, MakePart;
    var blank := MakePart(o, base, g.mode);
    if n == 0 {
      assert ps + [p] + [] == ps + [p] && p.str + [] == p.str;
    } else {
      NewlinesAre(o, base, gs, g, ps, p, n - 1);
      RepeatMore(blank, n - 1);
      RepeatMore('\n', n - 1);
      if o.prettyPrint {
        var before := ps + [p] + Repeat(blank, n - 1);
        var last := before[|before| - 1];
        assert before == before[..|before| - 1] + [last];
        BrokenIs(o, base, gs, g.(parts := before), before[..|before| - 1], last, false);
        assert before + [blank] == ps + [p] + Repeat(blank, n);
      } else {
        var q := p.(str := p.str + Repeat('\n', n - 1));
        AppendedIs(o, base, gs, g.(parts := ps + [q]), ps, q, "\n");
        assert q.str + "\n" == p.str + Repeat('\n', n);
      }
    }
  }

  /**
   A comment in pretty printed text: as many line breaks in front as were asked for, one less at the
   start of a group with a keyword, and the comment in a part that is never merged.
   */
  lemma PrettyComment(o: Options, base: int, gs: seq<Group>, g: Group, ps: seq<Part>, p: Part, c: Comment)
    requires o.prettyPrint && g.parts == ps + [p] && Filled(gs)
    ensures var n := if g.keyword.Some? && p.str == "" && c.newlinesBefore > 0 then c.newlinesBefore - 1 else c.newlinesBefore;
            var blank := MakePart(o, base, g.mode);
            Commented(o, Level(gs + [g], base), c)
            == Level(gs + [g.(parts := (if n == 0 then ps + [p.(str := p.str + c.str, mergeable := false)]
                                        else ps + [p] + Repeat(blank, n - 1) + [blank.(str := c.str, mergeable := false)])
                                       + Repeat(blank, c.newlinesAfter))], base)
  {
    var l, blank := Level(gs + [g], base), MakePart(o, base, g.mode);
    var n := if g.keyword.Some? && p.str == "" && c.newlinesBefore > 0 then c.newlinesBefore - 1 else c.newlinesBefore;
    BeforeIs(o, base, gs, g, ps, p, c);
    NewlinesAre(o, base, gs, g, ps, p, n);
    BlankIs(o, base, g.mode);
    hide Appended, Frozen, MakePart, NewlinesBefore, Newlines;
    var front := if n == 0 then ps else ps + [p] + Repeat(blank, n - 1);
    var last := if n == 0 then p else blank;
    assert ps + [p] + Repeat(blank, n) == front + [last] by {
      LastRepeat(ps + [p], blank, n);
    }
    CommentIn(o, base, gs, g, front, last, c.str);
    var done := last.(str := last.str + c.str, mergeable := false);
    assert "" + c.str == c.str;
    NewlinesAre(o, base, gs, g.(parts := front + [done]), front, done, c.newlinesAfter);
  }

  lemma BlankIs(o: Options, base: int, mode: IndentMode)
    ensures MakePart(o, base, mode).str == ""
  {
  }

  lemma LastRepeat(ps: seq<Part>, x: Part, n: nat)
    ensures ps + Repeat(x, n) == if n == 0 then ps else ps + Repeat(x, n - 1) + [x]
  {
    if n > 0 {
      RepeatMore(x, n - 1);
    } else {
      RepeatMore(x, 0);
    }
  }

  lemma BeforeIs(o: Options, base: int, gs: seq<Group>, g: Group, ps: seq<Part>, p: Part, c: Comment)
    requires g.parts == ps + [p] && Filled(gs)
    ensures NewlinesBefore(o, Level(gs + [g], base), c)
         == if o.prettyPrint && g.keyword.Some? && p.str == "" && c.newlinesBefore > 0 then c.newlinesBefore - 1 else c.newlinesBefore
  {
  }

  lemma CommentIn(o: Options, base: int, gs: seq<Group>, g: Group, ps: seq<Part>, p: Part, s: string)
    requires Filled(gs)
    ensures Filled(Level(gs + [g.(parts := ps + [p])], base).groups)
    ensures Frozen(o, Appended(o, Level(gs + [g.(parts := ps + [p])], base), s))
         == Level(gs + [g.(parts := ps + [p.(str := p.str + s, mergeable := false)])], base)
  {
    AppendedIs(o, base, gs, g.(parts := ps + [p]), ps, p, s);
    var q := p.(str := p.str + s);
    FrozenIs(o, base, gs, g.(parts := ps + [q]), ps, q);
    hide Appended, Frozen;
  }

  /** Without pretty printing the newlines and the comment go into the current part. */
  lemma FlatComment(o: Options, base: int, gs: seq<Group>, g: Group, ps: seq<Part>, p: Part, c: Comment)
    requires !o.prettyPrint && g.parts == ps + [p] && Filled(gs)
    ensures Commented(o, Level(gs + [g], base), c)
         == Level(gs + [g.(parts := ps + [p.(str := p.str + Repeat('\n', c.newlinesBefore) + c.str + Repeat('\n', c.newlinesAfter),
                                             mergeable := false)])], base)
  {
    BeforeIs(o, base, gs, g, ps, p, c);
    NewlinesAre(o, base, gs, g, ps, p, c.newlinesBefore);
    hide Appended, Frozen, MakePart, NewlinesBefore, Newlines;
    var q := p.(str := p.str + Repeat('\n', c.newlinesBefore));
    CommentIn(o, base, gs, g, ps, q, c.str);
    var done := q.(str := q.str + c.str, mergeable := false);
    NewlinesAre(o, base, gs, g.(parts := ps + [done]), ps, done, c.newlinesAfter);
  }
}
