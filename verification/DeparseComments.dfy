/**
 Which comments a statement prints, and that no comment is printed twice.

 Comments are matched to source locations. A statement first discards those matched before
 its own start; every location it visits prints the pending comments matched up to there.
 */
module DeparseComments {
  import opened DeparseText

  datatype Comment = Comment(matchLocation: int, newlinesBefore: nat, newlinesAfter: nat, str: string)

  /** The comments among the first `n` that a visit to `location` prints, in index order. */
  function Pending(comments: seq<Comment>, emitted: set<nat>, location: int, n: nat): (p: seq<nat>)
    requires n <= |comments|
    ensures forall i: nat :: i in p <==> i < n && i !in emitted && comments[i].matchLocation <= location
  {
    if n == 0 then []
    else Pending(comments, emitted, location, n - 1)
         + if n - 1 !in emitted && comments[n - 1].matchLocation <= location then [n - 1] else []
  }

  function Elements(p: seq<nat>): (s: set<nat>)
    ensures forall i :: i in s <==> i in p
  {
    set i | i in p
  }

  /** The comments matched before the start of a statement. */
  function Before(comments: seq<Comment>, start: int): (s: set<nat>)
    ensures forall i: nat :: i in s <==> i < |comments| && comments[i].matchLocation < start
  {
    set i: nat | i < |comments| && comments[i].matchLocation < start
  }

  /** Everything printed while the locations are visited one after the other. */
  function Printed(comments: seq<Comment>, emitted: set<nat>, visits: seq<int>): seq<nat>
    decreases |visits|
  {
    if visits == [] then []
    else
      var now := Pending(comments, emitted, visits[0], |comments|);
      now + Printed(comments, emitted + Elements(now), visits[1..])
  }

  /** A statement visits its own start before any other location. */
  function PrintedByStatement(comments: seq<Comment>, start: int, visits: seq<int>): seq<nat> {
    Printed(comments, Before(comments, start), [start] + visits)
  }

  ghost predicate Distinct(p: seq<nat>) {
    forall i, j :: 0 <= i < j < |p| ==> p[i] != p[j]
  }

  ghost predicate Reaches(visits: seq<int>, location: int) {
    exists v :: v in visits && location <= v
  }

  lemma DistinctAppend(a: seq<nat>, b: seq<nat>)
    requires Distinct(a) && Distinct(b) && forall i :: i in a ==> i !in b
    ensures Distinct(a + b)
  {
    var ab := a + b;
    forall i, j | 0 <= i < j < |ab| ensures ab[i] != ab[j] {
      if i < |a| <= j {
        assert ab[i] in a && ab[j] in b;
      }
    }
  }

  ghost predicate Ascending(p: seq<nat>) {
    forall i, j :: 0 <= i < j < |p| ==> p[i] < p[j]
  }

  lemma AscendingIsDistinct(p: seq<nat>)
    requires Ascending(p)
    ensures Distinct(p)
  {
  }

  lemma AscendingLast(p: seq<nat>, x: nat)
    requires Ascending(p) && forall i: nat :: i in p ==> i < x
    ensures Ascending(p + [x])
  {
    forall i | 0 <= i < |p| ensures p[i] < x {
      assert p[i] in p;
    }
  }

  /** The comments come in index order. */
  lemma {:induction false} PendingAscends(comments: seq<Comment>, emitted: set<nat>, location: int, n: nat)
    requires n <= |comments|
    ensures Ascending(Pending(comments, emitted, location, n))
  {
    if n > 0 {
      PendingAscends(comments, emitted, location, n - 1);
      AscendingLast(Pending(comments, emitted, location, n - 1), n - 1);
    }
  }

  lemma ReachesStep(visits: seq<int>, location: int)
    requires visits != []
    ensures Reaches(visits, location) <==> location <= visits[0] || Reaches(visits[1..], location)
  {
    if Reaches(visits, location) {
      var v :| v in visits && location <= v;
      assert v == visits[0] || v in visits[1..];
    }
    if Reaches(visits[1..], location) {
      var v :| v in visits[1..] && location <= v;
      assert v in visits;
    }
    if location <= visits[0] {
      assert visits[0] in visits;
    }
  }

  /** A run of visits prints each comment at most once, and exactly those it reaches. */
  lemma {:induction false} PrintedOnce(comments: seq<Comment>, emitted: set<nat>, visits: seq<int>)
    ensures var p := Printed(comments, emitted, visits);
            && Distinct(p)
            && forall i: nat :: i in p <==> i < |comments| && i !in emitted && Reaches(visits, comments[i].matchLocation)
    decreases |visits|
  {
    if visits != [] {
      var now := Pending(comments, emitted, visits[0], |comments|);
      var rest := Printed(comments, emitted + Elements(now), visits[1..]);
      PendingAscends(comments, emitted, visits[0], |comments|);
      AscendingIsDistinct(now);
      PrintedOnce(comments, emitted + Elements(now), visits[1..]);
      DistinctAppend(now, rest);
      forall i: nat
        ensures i in now + rest <==> i < |comments| && i !in emitted && Reaches(visits, comments[i].matchLocation)
      {
        if i < |comments| {
          ReachesStep(visits, comments[i].matchLocation);
        }
      }
    }
  }

  /** A statement prints exactly the comments from its start to the largest location it visits. */
  lemma StatementPrints(comments: seq<Comment>, start: int, visits: seq<int>)
    ensures var p := PrintedByStatement(comments, start, visits);
            && Distinct(p)
            && forall i: nat :: i in p <==>
                 i < |comments| && start <= comments[i].matchLocation && Reaches([start] + visits, comments[i].matchLocation)
  {
    PrintedOnce(comments, Before(comments, start), [start] + visits);
  }

  /** A statement's start and the locations it visits after it. */
  datatype Statement = Statement(start: int, visits: seq<int>)

  function PrintedByAll(comments: seq<Comment>, statements: seq<Statement>): seq<nat> {
    if statements == [] then []
    else
      var last := statements[|statements| - 1];
      PrintedByAll(comments, statements[..|statements| - 1]) + PrintedByStatement(comments, last.start, last.visits)
  }

  /** From its start to the largest location that it visits: where a statement prints comments. */
  ghost predicate Covers(s: Statement, location: int) {
    s.start <= location && Reaches([s.start] + s.visits, location)
  }

  /** One of the two starts where the other prints. */
  ghost predicate Overlap(a: Statement, b: Statement) {
    Covers(a, b.start) || Covers(b, a.start)
  }

  ghost predicate KeepToThemselves(statements: seq<Statement>) {
    forall k, l :: 0 <= k < l < |statements| ==> !Overlap(statements[k], statements[l])
  }

  /** The locations that a statement visits, its start included, lie below every later start. */
  ghost predicate InOrder(statements: seq<Statement>) {
    forall k, l, v :: 0 <= k < l < |statements| && v in [statements[k].start] + statements[k].visits
      ==> v < statements[l].start
  }

  ghost predicate StartsAscend(statements: seq<Statement>) {
    forall k, l :: 0 <= k < l < |statements| ==> statements[k].start <= statements[l].start
  }

  lemma OverlapShares(a: Statement, b: Statement, location: int)
    requires Covers(a, location) && Covers(b, location)
    ensures Overlap(a, b)
  {
    var v :| v in [a.start] + a.visits && location <= v;
    var w :| w in [b.start] + b.visits && location <= w;
    assert if a.start <= b.start then b.start <= v else a.start <= w;
  }

  lemma NotShared(a: Statement, b: Statement, location: int)
    requires Covers(a, location) && !Overlap(a, b)
    ensures !Covers(b, location)
  {
    hide Covers, Overlap;
    if Covers(b, location) {
      OverlapShares(a, b, location);
    }
  }

  lemma StatementInRange(comments: seq<Comment>, s: Statement)
    ensures forall i :: i in PrintedByStatement(comments, s.start, s.visits) ==> i < |comments|
  {
    StatementPrints(comments, s.start, s.visits);
  }

  lemma {:induction false} InAll(comments: seq<Comment>, statements: seq<Statement>, i: nat)
    ensures i in PrintedByAll(comments, statements) <==>
              i < |comments| && exists k :: 0 <= k < |statements| && Covers(statements[k], comments[i].matchLocation)
  {
    if statements != [] {
      var n := |statements| - 1;
      var last := statements[n];
      hide Covers, PrintedByStatement, Reaches, Before;
      InAll(comments, statements[..n], i);
      if i >= |comments| {
        StatementInRange(comments, last);
      } else {
        StatementCovers(comments, last, i);
        var at := comments[i].matchLocation;
        assert (exists k :: 0 <= k < n + 1 && Covers(statements[k], at)) <==>
               Covers(last, at) || exists k :: 0 <= k < n && Covers(statements[..n][k], at);
      }
    }
  }

  /** Statements that keep to themselves print no comment twice. */
  lemma {:induction false} NoCommentTwice(comments: seq<Comment>, statements: seq<Statement>)
    requires KeepToThemselves(statements)
    ensures Distinct(PrintedByAll(comments, statements))
  {
    if statements != [] {
      var n := |statements| - 1;
      var last := statements[n];
      var earlier := PrintedByAll(comments, statements[..n]);
      var now := PrintedByStatement(comments, last.start, last.visits);
      NoCommentTwice(comments, statements[..n]);
      StatementPrints(comments, last.start, last.visits);
      forall i | i in earlier ensures i !in now {
        InAll(comments, statements[..n], i);
        var k :| 0 <= k < n && Covers(statements[..n][k], comments[i].matchLocation);
        NotShared(statements[k], last, comments[i].matchLocation);
      }
      DistinctAppend(earlier, now);
    }
  }

  /** A comment that two statements cover is printed twice. */
  lemma {:induction false} PrintedTwice(comments: seq<Comment>, statements: seq<Statement>, k: nat, l: nat, i: nat)
    requires k < l < |statements| && i < |comments|
    requires Covers(statements[k], comments[i].matchLocation) && Covers(statements[l], comments[i].matchLocation)
    ensures !Distinct(PrintedByAll(comments, statements))
  {
    hide *;
    var n := |statements| - 1;
    var earlier := PrintedByAll(comments, statements[..n]);
    var now := PrintedByStatement(comments, statements[n].start, statements[n].visits);
    LastPrints(comments, statements);
    if l < n {
      PrintedTwice(comments, statements[..n], k, l, i);
      PrefixTwice(earlier, now);
    } else {
      assert statements[..n][k] == statements[k];
      InAll(comments, statements[..n], i);
      StatementCovers(comments, statements[n], i);
      BothHave(earlier, now, i);
    }
  }

  lemma LastPrints(comments: seq<Comment>, statements: seq<Statement>)
    requires statements != []
    ensures var n := |statements| - 1;
            PrintedByAll(comments, statements)
            == PrintedByAll(comments, statements[..n]) + PrintedByStatement(comments, statements[n].start, statements[n].visits)
  {
    hide PrintedByStatement;
  }

  lemma StatementCovers(comments: seq<Comment>, s: Statement, i: nat)
    requires i < |comments|
    ensures i in PrintedByStatement(comments, s.start, s.visits) <==> Covers(s, comments[i].matchLocation)
  {
    StatementPrints(comments, s.start, s.visits);
    hide PrintedByStatement, Reaches;
  }

  lemma PrefixTwice(a: seq<nat>, b: seq<nat>)
    requires !Distinct(a)
    ensures !Distinct(a + b)
  {
    var x, y :| 0 <= x < y < |a| && a[x] == a[y];
    assert (a + b)[x] == (a + b)[y];
  }

  lemma BothHave(a: seq<nat>, b: seq<nat>, i: nat)
    requires i in a && i in b
    ensures !Distinct(a + b)
  {
    var x :| 0 <= x < |a| && a[x] == i;
    var y :| 0 <= y < |b| && b[y] == i;
    assert (a + b)[x] == i == (a + b)[|a| + y];
  }

  /** No comment is printed twice, whatever the comments are, exactly when the statements keep to themselves. */
  lemma TwiceExactly(statements: seq<Statement>)
    ensures (forall comments: seq<Comment> :: Distinct(PrintedByAll(comments, statements))) <==> KeepToThemselves(statements)
  {
    if KeepToThemselves(statements) {
      forall comments: seq<Comment> ensures Distinct(PrintedByAll(comments, statements)) {
        NoCommentTwice(comments, statements);
      }
    } else {
      var k, l :| 0 <= k < l < |statements| && Overlap(statements[k], statements[l]);
      var at := if Covers(statements[k], statements[l].start) then statements[l].start else statements[k].start;
      var comments := [Comment(at, 0, 0, "")];
      assert statements[k].start in [statements[k].start] + statements[k].visits;
      assert statements[l].start in [statements[l].start] + statements[l].visits;
      PrintedTwice(comments, statements, k, l, 0);
      assert !Distinct(PrintedByAll(comments, statements));
    }
  }

  /** For statements in text order it is enough, and needed, that none visits a later start. */
  lemma TwiceInTextOrder(statements: seq<Statement>)
    requires StartsAscend(statements)
    ensures KeepToThemselves(statements) <==> InOrder(statements)
  {
    if InOrder(statements) {
      forall k, l | 0 <= k < l < |statements| ensures !Overlap(statements[k], statements[l]) {
        assert statements[k].start in [statements[k].start] + statements[k].visits;
        assert statements[k].start < statements[l].start;
      }
    } else {
      var k, l, v :| 0 <= k < l < |statements| && v in [statements[k].start] + statements[k].visits && v >= statements[l].start;
      assert Reaches([statements[k].start] + statements[k].visits, statements[l].start);
      assert Overlap(statements[k], statements[l]);
    }
  }

  /** Such statements: the first one visits a location behind the start of the second. */
  lemma TwiceOtherwise()
    ensures var comments := [Comment(10, 0, 0, "--")];
            PrintedByAll(comments, [Statement(0, [10]), Statement(5, [10])]) == [0, 0]
  {
    var comments := [Comment(10, 0, 0, "--")];
    var first, second := Statement(0, [10]), Statement(5, [10]);
    assert [first, second][..1] == [first] && [first][..0] == [];
    PrintsIt(comments, 0);
    PrintsIt(comments, 5);
  }

  lemma PrintsIt(comments: seq<Comment>, start: int)
    requires |comments| == 1 && start < comments[0].matchLocation == 10
    ensures PrintedByStatement(comments, start, [10]) == [0]
  {
    var none := Before(comments, start);
    assert [start] + [10] == [start, 10] && [start, 10][1..] == [10] && [10][1..] == [];
    assert Pending(comments, none, start, 1) == [];
    assert none + Elements([]) == none;
    assert Pending(comments, none, 10, 1) == [0];
    assert Printed(comments, none + Elements([0]), []) == [];
    assert Printed(comments, none, [10]) == [0];
    assert Printed(comments, none, [start, 10]) == [] + [0];
  }

  ghost predicate InRange(p: seq<nat>, n: nat) {
    forall k :: 0 <= k < |p| ==> p[k] < n
  }

  /** The text of the comments in `p`, without layout. */
  function CommentsContent(comments: seq<Comment>, p: seq<nat>): string
    requires InRange(p, |comments|)
  {
    if p == [] then ""
    else CommentsContent(comments, p[..|p| - 1]) + Dense(comments[p[|p| - 1]].str)
  }

  lemma PendingInRange(comments: seq<Comment>, emitted: set<nat>, location: int, n: nat)
    requires n <= |comments|
    ensures InRange(Pending(comments, emitted, location, n), n)
  {
    var p := Pending(comments, emitted, location, n);
    forall k | 0 <= k < |p| ensures p[k] < n {
      assert p[k] in p;
    }
  }

  /** The content of the comments that a visit prints. */
  function VisitContent(comments: seq<Comment>, emitted: set<nat>, location: int): string {
    PendingInRange(comments, emitted, location, |comments|);
    CommentsContent(comments, Pending(comments, emitted, location, |comments|))
  }

  lemma CommentNext(comments: seq<Comment>, p: seq<nat>, i: nat, said: string)
    requires i < |comments| && InRange(p, |comments|)
    ensures InRange(p + [i], |comments|)
    ensures (said + CommentsContent(comments, p)) + Dense(comments[i].str) == said + CommentsContent(comments, p + [i])
  {
    assert (p + [i])[..|p|] == p;
    hide Dense;
    var y, z := CommentsContent(comments, p), Dense(comments[i].str);
    assert (said + y) + z == said + (y + z);
  }

  /** One more comment looked at. */
  lemma PendingNext(comments: seq<Comment>, emitted: set<nat>, location: int, i: nat)
    requires i < |comments|
    ensures var p, q := Pending(comments, emitted, location, i), Pending(comments, emitted, location, i + 1);
            && (i in emitted + Elements(p) || comments[i].matchLocation > location ==> q == p)
            && (i !in emitted + Elements(p) && comments[i].matchLocation <= location ==>
                  q == p + [i] && Elements(q) == Elements(p) + {i})
  {
  }

  /** What is printed once the first `i` comments have been looked at. */
  ghost predicate SoFar(comments: seq<Comment>, i: nat, location: int, seen: set<nat>, before: seq<nat>, said: string,
                        emitted: set<nat>, printed: seq<nat>, content: string)
  {
    && i <= |comments|
    && var p := Pending(comments, seen, location, i);
    && InRange(p, |comments|) && emitted == seen + Elements(p) && printed == before + p
    && content == said + CommentsContent(comments, p)
  }

  lemma Skip(comments: seq<Comment>, i: nat, location: int, seen: set<nat>, before: seq<nat>, said: string,
             emitted: set<nat>, printed: seq<nat>, content: string)
    requires SoFar(comments, i, location, seen, before, said, emitted, printed, content) && i < |comments|
    requires i in emitted || comments[i].matchLocation > location
    ensures SoFar(comments, i + 1, location, seen, before, said, emitted, printed, content)
  {
    PendingNext(comments, seen, location, i);
    hide Pending, Elements, CommentsContent, InRange;
  }

  lemma Take(comments: seq<Comment>, i: nat, location: int, seen: set<nat>, before: seq<nat>, said: string,
             emitted: set<nat>, printed: seq<nat>, content: string)
    requires SoFar(comments, i, location, seen, before, said, emitted, printed, content) && i < |comments|
    requires i !in emitted && comments[i].matchLocation <= location
    ensures SoFar(comments, i + 1, location, seen, before, said, emitted + {i}, printed + [i], content + Dense(comments[i].str))
  {
    var p := Pending(comments, seen, location, i);
    PendingNext(comments, seen, location, i);
    hide Pending, Elements, CommentsContent, InRange, Dense;
    CommentNext(comments, p, i, said);
    Regroup(seen, Elements(p), before, p, i);
  }

  lemma Regroup(seen: set<nat>, more: set<nat>, before: seq<nat>, p: seq<nat>, i: nat)
    ensures before + (p + [i]) == (before + p) + [i]
    ensures seen + (more + {i}) == (seen + more) + {i}
  {
  }
}
