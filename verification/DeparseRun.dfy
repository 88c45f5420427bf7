/**
 Whole runs of the deparser: a printer is any well-nested sequence of layout operations and
 visits to source locations.
 */
module DeparseRun {
  import opened Common
  import opened DeparseText
  import opened DeparseComments
  import opened DeparseLayout
  import opened DeparseEmit

  datatype Op =
    | Say(s: string)
    | TrimSpace
    | NewPart(deduplicate: bool)
    | Comma
    | NewGroup(keyword: Option<string>, mode: IndentMode)
    | Open
    | Close
    | Visit(location: int)

  /** The nesting levels open after the operations. */
  function Depth(ops: seq<Op>): int {
    if ops == [] then 0
    else
      var last := ops[|ops| - 1];
      Depth(ops[..|ops| - 1]) + if last.Open? then 1 else if last.Close? then -1 else 0
  }

  /** Levels are closed after they have been opened, and everything happens inside of one. */
  ghost predicate WellNested(ops: seq<Op>) {
    Depth(ops) == 0 && forall i :: 0 <= i < |ops| ==> ops[i].Open? || Depth(ops[..i]) > 0
  }

  /** The source locations visited. */
  function Visits(ops: seq<Op>): seq<int> {
    if ops == [] then []
    else
      var last := ops[|ops| - 1];
      Visits(ops[..|ops| - 1]) + if last.Visit? then [last.location] else []
  }

  /** The comments printed by the end, starting from `seen`. */
  function Done(comments: seq<Comment>, seen: set<nat>, visits: seq<int>): set<nat> {
    seen + Elements(Printed(comments, seen, visits))
  }

  /** What one operation contributes: its keyword or string, or the comments that are due. */
  function OpSaid(comments: seq<Comment>, emitted: set<nat>, op: Op): string {
    match op
    case Say(s) => Dense(s)
    case Comma => ","
    case NewGroup(keyword, _) => if keyword.Some? then Dense(keyword.value) else ""
    case Visit(location) => VisitContent(comments, emitted, location)
    case _ => ""
  }

  /** Everything said, in call order. It does not depend on any layout option. */
  function Said(comments: seq<Comment>, seen: set<nat>, first: seq<int>, ops: seq<Op>): string {
    if ops == [] then ""
    else
      var before := ops[..|ops| - 1];
      Said(comments, seen, first, before) + OpSaid(comments, Done(comments, seen, first + Visits(before)), ops[|ops| - 1])
  }

  /** What a statement says: the comments due at its start, then its operations. */
  function StatementSaid(comments: seq<Comment>, start: int, ops: seq<Op>): string {
    var seen := Before(comments, start);
    VisitContent(comments, seen, start) + Said(comments, seen, [start], ops)
  }

  /** One more visit prints what is still pending there. */
  lemma {:induction false} PrintedNext(comments: seq<Comment>, seen: set<nat>, visits: seq<int>, location: int)
    ensures var p := Pending(comments, Done(comments, seen, visits), location, |comments|);
            Printed(comments, seen, visits + [location]) == Printed(comments, seen, visits) + p
    decreases |visits|
  {
    hide *;
    if visits == [] {
      PrintedOne(comments, seen, location);
    } else {
      var now := Pending(comments, seen, visits[0], |comments|);
      var next := seen + Elements(now);
      PrintedFront(comments, seen, visits);
      PrintedFront(comments, seen, visits + [location]);
      assert (visits + [location])[1..] == visits[1..] + [location] && (visits + [location])[0] == visits[0];
      PrintedNext(comments, next, visits[1..], location);
      var a, b := Printed(comments, next, visits[1..]), Pending(comments, Done(comments, seen, visits), location, |comments|);
      assert now + (a + b) == (now + a) + b;
    }
  }

  lemma DoneNext(comments: seq<Comment>, seen: set<nat>, visits: seq<int>, location: int)
    ensures var p := Pending(comments, Done(comments, seen, visits), location, |comments|);
            Done(comments, seen, visits + [location]) == Done(comments, seen, visits) + Elements(p)
  {
    PrintedNext(comments, seen, visits, location);
    var a, b := Printed(comments, seen, visits), Pending(comments, Done(comments, seen, visits), location, |comments|);
    ElementsAppend(a, b);
    hide Pending, Printed, Elements;
    assert seen + (Elements(a) + Elements(b)) == (seen + Elements(a)) + Elements(b);
  }

  lemma PrintedOne(comments: seq<Comment>, seen: set<nat>, location: int)
    ensures var p := Pending(comments, Done(comments, seen, []), location, |comments|);
            Printed(comments, seen, [] + [location]) == Printed(comments, seen, []) + p
  {
    assert Done(comments, seen, []) == seen;
    var one := [] + [location];
    assert one[0] == location && one[1..] == [];
    var now := Pending(comments, seen, location, |comments|);
    assert Printed(comments, seen + Elements(now), one[1..]) == [];
    assert now + [] == now;
  }

  lemma PrintedFront(comments: seq<Comment>, seen: set<nat>, visits: seq<int>)
    requires visits != []
    ensures var now := Pending(comments, seen, visits[0], |comments|);
            && Printed(comments, seen, visits) == now + Printed(comments, seen + Elements(now), visits[1..])
            && Done(comments, seen, visits) == Done(comments, seen + Elements(now), visits[1..])
  {
    hide Pending;
    var now := Pending(comments, seen, visits[0], |comments|);
    ElementsAppend(now, Printed(comments, seen + Elements(now), visits[1..]));
  }

  lemma ElementsAppend(p: seq<nat>, q: seq<nat>)
    ensures Elements(p + q) == Elements(p) + Elements(q)
  {
  }

  // ----- performing the operations -----

  method Perform(state: LayoutState, op: Op)
    requires state.Valid() && (op.Open? || state.levels != [])
    modifies state
    ensures state.Valid()
    ensures |state.levels| == |old(state.levels)| + if op.Open? then 1 else if op.Close? then -1 else 0
    ensures state.Content() == old(state.Content()) + OpSaid(state.comments, old(state.emitted), op)
    ensures var p := if op.Visit? then Pending(state.comments, old(state.emitted), op.location, |state.comments|) else [];
            state.emitted == old(state.emitted) + Elements(p) && state.printed == old(state.printed) + p
  {
    ValidIsSteady(state);
    AddNothing(state.Content());
    NothingPrinted(state.emitted, state.printed);
    hide LayoutState.Valid, LayoutState.Steady, LayoutState.Content, Dense, Pending, Elements, VisitContent;
    hide SameKeyword, LevelLines, Filled;
    match op {
      case Say(s) => state.Append(s);
      case TrimSpace => state.RemoveTrailingSpace();
      case NewPart(deduplicate) => state.AppendPart(deduplicate);
      case Comma => state.AppendCommaAndPart();
      case NewGroup(keyword, mode) => state.AppendPartGroup(keyword, mode);
      case Open => state.IncreaseNestingLevel();
      case Close => var _, _ := state.DecreaseNestingLevel();
      case Visit(location) => state.AppendCommentsIfNeeded(location);
    }
  }

  lemma NothingPrinted(emitted: set<nat>, printed: seq<nat>)
    ensures emitted + Elements([]) == emitted && printed + [] == printed
  {
  }

  lemma ValidIsSteady(state: LayoutState)
    requires state.Valid()
    ensures state.levels != [] ==> state.Steady()
  {
  }

  /** The state after the first `i` operations. */
  ghost predicate Performed(state: LayoutState, said: string, seen: set<nat>, first: seq<int>, ops: seq<Op>, i: nat)
    reads state
  {
    && i <= |ops| && state.Valid() && |state.levels| == Depth(ops[..i])
    && state.Content() == said + Said(state.comments, seen, first, ops[..i])
    && state.emitted == Done(state.comments, seen, first + Visits(ops[..i]))
    && state.printed == Printed(state.comments, seen, first + Visits(ops[..i]))
  }

  lemma OpsNext(comments: seq<Comment>, seen: set<nat>, first: seq<int>, ops: seq<Op>, i: nat, said: string)
    requires i < |ops|
    ensures var emitted := Done(comments, seen, first + Visits(ops[..i]));
            var p := if ops[i].Visit? then Pending(comments, emitted, ops[i].location, |comments|) else [];
            && Depth(ops[..i + 1]) == Depth(ops[..i]) + (if ops[i].Open? then 1 else if ops[i].Close? then -1 else 0)
            && said + Said(comments, seen, first, ops[..i + 1])
               == (said + Said(comments, seen, first, ops[..i])) + OpSaid(comments, emitted, ops[i])
            && Done(comments, seen, first + Visits(ops[..i + 1])) == emitted + Elements(p)
            && Printed(comments, seen, first + Visits(ops[..i + 1])) == Printed(comments, seen, first + Visits(ops[..i])) + p
  {
    assert ops[..i + 1][..i] == ops[..i] && ops[..i + 1][i] == ops[i];
    var visits := first + Visits(ops[..i]);
    var emitted := Done(comments, seen, visits);
    hide OpSaid, Done, Printed, Pending, Elements;
    if ops[i].Visit? {
      PrintedNext(comments, seen, visits, ops[i].location);
      DoneNext(comments, seen, visits, ops[i].location);
      assert first + Visits(ops[..i + 1]) == visits + [ops[i].location];
    } else {
      assert first + Visits(ops[..i + 1]) == visits;
      NothingPrinted(emitted, Printed(comments, seen, visits));
    }
    var x, y := Said(comments, seen, first, ops[..i]), OpSaid(comments, emitted, ops[i]);
    assert said + (x + y) == (said + x) + y;
  }

  method PerformNext(state: LayoutState, ghost said: string, ghost seen: set<nat>, ghost first: seq<int>, ops: seq<Op>, i: nat)
    requires WellNested(ops) && i < |ops| && Performed(state, said, seen, first, ops, i)
    modifies state
    ensures Performed(state, said, seen, first, ops, i + 1)
  {
    assert ops[i].Open? || Depth(ops[..i]) > 0;
    OpsNext(state.comments, seen, first, ops, i, said);
    hide LayoutState.Valid, LayoutState.Content, Said, Done, Printed, Depth, Visits, OpSaid, WellNested, Pending, Elements;
    Perform(state, ops[i]);
  }

  /** A well-nested run: everything ends up in the results, in call order. */
  method Run(state: LayoutState, ghost said: string, ghost seen: set<nat>, ghost first: seq<int>, ops: seq<Op>)
    requires WellNested(ops) && Performed(state, said, seen, first, ops, 0)
    modifies state
    ensures Performed(state, said, seen, first, ops, |ops|) && state.levels == []
  {
    hide *;
    var i := 0;
    while i < |ops|
      invariant 0 <= i <= |ops| && Performed(state, said, seen, first, ops, i)
    {
      PerformNext(state, said, seen, first, ops, i);
      i := i + 1;
    }
    RunEnds(state, said, seen, first, ops);
  }

  lemma RunEnds(state: LayoutState, said: string, seen: set<nat>, first: seq<int>, ops: seq<Op>)
    requires WellNested(ops) && Performed(state, said, seen, first, ops, |ops|)
    ensures state.levels == [] && PartsContent(state.results) == said + Said(state.comments, seen, first, ops)
    ensures state.printed == Printed(state.comments, seen, first + Visits(ops))
  {
    assert ops[..|ops|] == ops;
    hide Said, Printed, PartsContent;
    AddNothing(PartsContent(state.results));
  }

  // ----- a whole statement -----

  /** The state in which the operations of a statement begin, whatever has been printed before them. */
  lemma RunStarts(state: LayoutState, said: string, seen: set<nat>, first: seq<int>, ops: seq<Op>)
    requires state.Valid() && state.levels == [] && state.Content() == said
    requires state.emitted == Done(state.comments, seen, first) && state.printed == Printed(state.comments, seen, first)
    ensures Performed(state, said, seen, first, ops, 0)
  {
    assert ops[..0] == [] && first + Visits([]) == first;
    AddNothing(said);
    hide Done, Printed, LayoutState.Content;
  }

  lemma StartVisit(comments: seq<Comment>, start: int)
    ensures var seen := Before(comments, start);
            var p := Pending(comments, seen, start, |comments|);
            && Done(comments, seen, [start]) == seen + Elements(p) && Printed(comments, seen, [start]) == p
            && (comments == [] ==> p == [] && Elements(p) == {} && seen == {} && VisitContent(comments, seen, start) == "")
  {
    var seen := Before(comments, start);
    PrintedOne(comments, seen, start);
    assert [] + [start] == [start] && Done(comments, seen, []) == seen;
    var p := Pending(comments, seen, start, |comments|);
    assert [] + p == p;
  }

  /** The comments at the start of the statement, on a nesting level of their own. */
  method StartStatement(state: LayoutState, start: int)
    requires state.Valid() && state.levels == [] && state.Content() == "" && state.emitted == {} && state.printed == []
    requires state.results == []
    modifies state
    ensures state.Valid() && state.levels == []
    ensures if state.comments == [] then state.results == [] else AreLines(state.opts, StartLevel(state.opts, state.comments, start), state.results)
    ensures var seen := Before(state.comments, start);
            && state.Content() == VisitContent(state.comments, seen, start)
            && state.emitted == Done(state.comments, seen, [start])
            && state.printed == Printed(state.comments, seen, [start])
  {
    hide *;
    StartVisit(state.comments, start);
    if |state.comments| > 0 {
      DiscardEarlier(state, start);
      state.IncreaseNestingLevel();
      ghost var first := state.levels[0];
      state.AppendCommentsIfNeeded(start);
      NoKeyword(state.opts, first, state.levels[0]);
      state.RemoveTrailingEmptyPart();
      StartLevelIs(state.opts, state.comments, start);
      ghost var lines, pieces := state.DecreaseNestingLevel();
      TheseLines(state.opts, StartLevel(state.opts, state.comments, start), lines, pieces);
      assert [] + lines == lines;
      assert "" + VisitContent(state.comments, Before(state.comments, start), start)
          == VisitContent(state.comments, Before(state.comments, start), start);
      assert [] + Printed(state.comments, Before(state.comments, start), [start])
          == Printed(state.comments, Before(state.comments, start), [start]);
    }
  }

  /** The level that the comments at the start of a statement are laid out on. */
  function StartLevel(o: Options, comments: seq<Comment>, start: int): Level {
    var p := Pending(comments, Before(comments, start), start, |comments|);
    PendingInRange(comments, Before(comments, start), start, |comments|);
    WithoutEmptyPart(o, CommentedBy(o, Level([], 0), comments, p))
  }

  lemma StartLevelIs(o: Options, comments: seq<Comment>, start: int)
    ensures var p := Pending(comments, Before(comments, start), start, |comments|);
            InRange(p, |comments|) && Filled(CommentedBy(o, Level([], 0), comments, p).groups)
            && StartLevel(o, comments, start) == WithoutEmptyPart(o, CommentedBy(o, Level([], 0), comments, p))
  {
    PendingInRange(comments, Before(comments, start), start, |comments|);
    hide Pending, Before, CommentedBy, WithoutEmptyPart;
  }

  /** The lines that a level leaves behind. */
  ghost predicate AreLines(o: Options, l: Level, lines: seq<Part>) {
    exists pieces :: LevelLines(o, l, lines, pieces)
  }

  lemma TheseLines(o: Options, l: Level, lines: seq<Part>, pieces: seq<seq<Part>>)
    requires LevelLines(o, l, lines, pieces)
    ensures AreLines(o, l, lines)
  {
  }

  lemma NoKeyword(o: Options, start: Level, l: Level)
    requires start.groups == [] && SameKeyword(o, start, l)
    ensures LastGroup(Started(o, l)).keyword.None?
  {
  }

  /** Comments in front of the statement count as printed. */
  method DiscardEarlier(state: LayoutState, start: int)
    requires state.emitted == {}
    modifies state`emitted
    ensures state.emitted == Before(state.comments, start)
  {
    for i := 0 to |state.comments|
      invariant forall k: nat :: k in state.emitted <==> k < i && state.comments[k].matchLocation < start
    {
      if state.comments[i].matchLocation < start {
        state.emitted := state.emitted + {i};
      }
    }
  }

  lemma StatementEnds(state: LayoutState, start: int, ops: seq<Op>)
    requires WellNested(ops)
    requires var seen := Before(state.comments, start);
             Performed(state, VisitContent(state.comments, seen, start), seen, [start], ops, |ops|)
    ensures PartsContent(state.results) == StatementSaid(state.comments, start, ops)
    ensures state.printed == PrintedByStatement(state.comments, start, Visits(ops))
    ensures state.results == [] ==> StatementSaid(state.comments, start, ops) == ""
  {
    var seen := Before(state.comments, start);
    RunEnds(state, VisitContent(state.comments, seen, start), seen, [start], ops);
    assert state.results == [] ==> PartsContent(state.results) == "";
    hide Performed, Said, Printed, VisitContent, Before;
  }

  /** `deparseRawStmtOpts`: the text of a statement behind `text`. */
  method DeparseRawStmtOpts(o: Options, comments: seq<Comment>, start: int, ops: seq<Op>, text: string, below: char)
    returns (ok: bool, out: string, ghost printed: seq<nat>)
    requires WellNested(ops)
    ensures ok ==> Dense(out) == Dense(text) + StatementSaid(comments, start, ops)
    ensures ok ==> exists parts :: IsLaidOut(WithDefaults(o), text, parts, below, out)
                                   && PartsContent(parts) == StatementSaid(comments, start, ops)
    ensures StatementSaid(comments, start, ops) != "" ==> ok
    ensures printed == PrintedByStatement(comments, start, Visits(ops))
  {
    hide *;
    var state := new LayoutState(o, comments);
    StartStatement(state, start);
    ghost var seen := Before(comments, start);
    ghost var said := VisitContent(comments, seen, start);
    RunStarts(state, said, seen, [start], ops);
    Run(state, said, seen, [start], ops);
    StatementEnds(state, start, ops);
    printed := state.printed;
    var parts;
    ok, out, parts := Emit(state.opts, state.results, text, below);
  }

  predicate IsPlain(l: Level) {
    |l.groups| == 1 && l.groups[0].keyword.None? && l.groups[0].mode.NO_INDENT? && l.groups[0].parts != []
  }

  /** The lines of a single group without keyword or merging are its parts. */
  lemma PlainLines(o: Options, l: Level, lines: seq<Part>, pieces: seq<seq<Part>>)
    requires LevelLines(o, l, lines, pieces) && IsPlain(l)
    ensures l.groups != [] && lines == l.groups[0].parts
  {
    assert GroupLines(o, l.baseIndent, l.groups[0], pieces[0]);
    assert pieces == [] + [pieces[0]] && Flat([]) == [];
    FlatMore([], pieces[0]);
  }

  lemma PlainAreLines(o: Options, l: Level, lines: seq<Part>)
    requires AreLines(o, l, lines) && IsPlain(l)
    ensures l.groups != [] && lines == l.groups[0].parts
  {
    var pieces :| LevelLines(o, l, lines, pieces);
    PlainLines(o, l, lines, pieces);
  }

  /** A comment of one space at the start of a statement is a part of its own. */
  lemma SpaceIsPart(o: Options)
    ensures var l := StartLevel(o, [Comment(0, 0, 0, " ")], 0);
            IsPlain(l) && |l.groups[0].parts| == 1 && l.groups[0].parts[0].str == " "
  {
    var comments := [Comment(0, 0, 0, " ")];
    PendingOne();
    StartLevelIs(o, comments, 0);
    assert [0][..0] == [];
    assert CommentedBy(o, Level([], 0), comments, []) == Level([], 0);
    assert "" + " " == " ";
    hide Pending, Before;
  }

  lemma PendingOne()
    ensures var comments := [Comment(0, 0, 0, " ")]; Pending(comments, Before(comments, 0), 0, 1) == [0]
  {
    var comments := [Comment(0, 0, 0, " ")];
    assert Pending(comments, Before(comments, 0), 0, 0) == [];
  }

  lemma StringIsPart(o: Options)
    ensures var l := Appended(o, Level([], 0), "x"); IsPlain(l) && |l.groups[0].parts| == 1 && l.groups[0].parts[0].str == "x"
  {
    assert "" + "x" == "x";
  }

  lemma PlainSteady(state: LayoutState)
    requires |state.levels| == 1 && IsPlain(state.levels[0])
    ensures state.Steady()
  {
  }

  lemma SpaceInFront(o: Options, parts: seq<Part>, below: char)
    requires !o.prettyPrint && |parts| > 1 && parts[0].str == " "
    ensures StartsEmpty(WithDefaults(o), "", parts) && LooksBelow(WithDefaults(o), "", parts, 0, below)
  {
    hide LooksBelow;
    assert "" + " " == " ";
    FirstLeaves(WithDefaults(o), "", parts, below);
  }

  /**
   A comment of a single space in front of a statement: the space is trimmed, and without pretty
   printing the byte before the string is looked at.
   */
  method SpaceFirst(o: Options, below: char) returns (out: string, parts: seq<Part>)
    requires !o.prettyPrint
    ensures |parts| == 2 && parts[0].str == " " && parts[1].str == "x" && IsLaidOut(WithDefaults(o), "", parts, below, out)
    ensures StartsEmpty(WithDefaults(o), "", parts) && LooksBelow(WithDefaults(o), "", parts, 0, below)
  {
    hide *;
    var comments := [Comment(0, 0, 0, " ")];
    var state := new LayoutState(o, comments);
    StartStatement(state, 0);
    SpaceIsPart(state.opts);
    PlainAreLines(state.opts, StartLevel(state.opts, comments, 0), state.results);
    state.IncreaseNestingLevel();
    state.Append("x");
    ghost var l := state.levels[0];
    StringIsPart(state.opts);
    PlainSteady(state);
    ghost var lines, pieces := state.DecreaseNestingLevel();
    PlainLines(state.opts, l, lines, pieces);
    var ok;
    ok, out, parts := Emit(state.opts, state.results, "", below);
    SpaceInFront(o, parts, below);
  }

  /** Two layouts of the same statement have the same content. */
  method SameContent(o1: Options, o2: Options, comments: seq<Comment>, start: int, ops: seq<Op>, below: char)
    returns (ok: bool, one: string, two: string)
    requires WellNested(ops)
    ensures ok ==> Dense(one) == Dense(two) == StatementSaid(comments, start, ops)
    ensures StatementSaid(comments, start, ops) != "" ==> ok
  {
    OnlyLayout();
    assert "" + StatementSaid(comments, start, ops) == StatementSaid(comments, start, ops);
    hide *;
    var ok1, ok2;
    ghost var printed;
    ok1, one, printed := DeparseRawStmtOpts(o1, comments, start, ops, "", below);
    ok2, two, printed := DeparseRawStmtOpts(o2, comments, start, ops, "", below);
    ok := ok1 && ok2;
  }
}
