/**
 Splitting a text into statements with the scanner: `pg_query_split_with_scanner`, one pass to
 count the statements and one to fill them in.
 */
module Split {

  datatype Kind = Keyword | Open | Close | Semicolon | Other

  /** A token of the scanner; the end of the input is not one of them. */
  datatype Token = Token(kind: Kind, start: nat)

  /** `PgQuerySplitStmt` */
  datatype Range = Range(start: nat, len: nat)

  const SIZE_MAX: nat := 0xFFFF_FFFF_FFFF_FFFF

  /** `open_parens` is unsigned: it wraps around in both directions. */
  function Opened(n: nat): nat {
    if n == SIZE_MAX then 0 else n + 1
  }

  function Closed(n: nat): nat {
    if n == 0 then SIZE_MAX else n - 1
  }

  /** Tokens in text order, in front of the end of the input. */
  ghost predicate TokensOk(tokens: seq<Token>, end: nat) {
    && (forall i, j :: 0 <= i < j < |tokens| ==> tokens[i].start < tokens[j].start)
    && (forall i :: 0 <= i < |tokens| ==> tokens[i].start < end)
  }

  /** The variables of the second pass and the statements it has filled in. */
  datatype State = State(open: nat, pending: bool, start: nat, ranges: seq<Range>)

  /** From the start of the statement up to `at`. */
  function RangeTo(s: State, at: nat): Range {
    Range(s.start, if at < s.start then 0 else at - s.start)
  }

  function Ended(s: State, at: nat): State {
    s.(ranges := s.ranges + [RangeTo(s, at)], start := at + 1, pending := false)
  }

  function Step(s: State, t: Token): State {
    match t.kind
    case Keyword => s.(pending := true)
    case Open => s.(open := Opened(s.open))
    case Close => s.(open := Closed(s.open))
    case Semicolon =>
      if s.open != 0 then s else if s.pending then Ended(s, t.start) else s.(start := t.start + 1)
    case Other => s
  }

  /** The state after the first `n` tokens. */
  function After(tokens: seq<Token>, n: nat): State
    requires n <= |tokens|
  {
    if n == 0 then State(0, false, 0, []) else Step(After(tokens, n - 1), tokens[n - 1])
  }

  /** The statements, the one that the end of the input terminates included. */
  function Statements(tokens: seq<Token>, end: nat): seq<Range> {
    var s := After(tokens, |tokens|);
    if s.pending && s.open == 0 then Ended(s, end).ranges else s.ranges
  }

  // ----- what a statement is -----

  predicate Holds(r: Range, t: Token) {
    r.start <= t.start < r.start + r.len
  }

  /** A semicolon that ends a statement: the parentheses counted so far are balanced. */
  predicate IsTerminator(tokens: seq<Token>, k: nat)
    requires k < |tokens|
  {
    tokens[k].kind.Semicolon? && After(tokens, k).open == 0
  }

  /** Ranges ascend and do not overlap. */
  ghost predicate Ascending(ranges: seq<Range>) {
    forall i, j :: 0 <= i < j < |ranges| ==> ranges[i].start + ranges[i].len < ranges[j].start
  }

  ghost predicate HoldsKeyword(tokens: seq<Token>, r: Range) {
    exists k :: 0 <= k < |tokens| && tokens[k].kind.Keyword? && Holds(r, tokens[k])
  }

  ghost predicate HoldsNoTerminator(tokens: seq<Token>, r: Range) {
    forall k :: 0 <= k < |tokens| && IsTerminator(tokens, k) ==> !Holds(r, tokens[k])
  }

  ghost predicate InSome(ranges: seq<Range>, t: Token) {
    exists i :: 0 <= i < |ranges| && Holds(ranges[i], t)
  }

  ghost predicate PendingKeyword(tokens: seq<Token>, n: nat, start: nat)
    requires n <= |tokens|
  {
    exists k :: 0 <= k < n && tokens[k].kind.Keyword? && start <= tokens[k].start
  }

  /** The statements so far ascend, and the next one starts between them and the next token. */
  ghost predicate InPlace(tokens: seq<Token>, end: nat, n: nat, s: State) {
    && s.start <= end && (forall k :: n <= k < |tokens| ==> s.start <= tokens[k].start)
    && Ascending(s.ranges) && (forall i :: 0 <= i < |s.ranges| ==> s.ranges[i].start + s.ranges[i].len < s.start)
  }

  /** Every statement holds a keyword and no terminator, and no terminator is left behind. */
  ghost predicate Proper(tokens: seq<Token>, n: nat, s: State)
    requires n <= |tokens|
  {
    && (forall i :: 0 <= i < |s.ranges| ==> HoldsKeyword(tokens, s.ranges[i]) && HoldsNoTerminator(tokens, s.ranges[i]))
    && Passed(tokens, n, s.start)
  }

  /** Every keyword is in a statement, or in the one that is pending. */
  ghost predicate Covers(tokens: seq<Token>, n: nat, s: State)
    requires n <= |tokens|
  {
    && (forall k :: 0 <= k < n && tokens[k].kind.Keyword? ==>
          if tokens[k].start < s.start then InSome(s.ranges, tokens[k]) else s.pending)
    && (s.pending ==> PendingKeyword(tokens, n, s.start))
  }

  lemma InSomeMore(ranges: seq<Range>, r: Range, t: Token)
    ensures InSome(ranges + [r], t) <==> InSome(ranges, t) || Holds(r, t)
  {
    var more := ranges + [r];
    if InSome(ranges, t) {
      var i :| 0 <= i < |ranges| && Holds(ranges[i], t);
      assert Holds(more[i], t);
    }
    if Holds(r, t) {
      assert Holds(more[|ranges|], t);
    }
    if InSome(more, t) {
      var i :| 0 <= i < |more| && Holds(more[i], t);
      assert i < |ranges| ==> Holds(ranges[i], t);
    }
  }

  /** The tokens before `n` lie before `at`, the others do not. */
  ghost predicate Cuts(tokens: seq<Token>, n: nat, at: nat)
    requires n <= |tokens|
  {
    (forall k :: 0 <= k < n ==> tokens[k].start < at) && (forall k :: n <= k < |tokens| ==> at <= tokens[k].start)
  }

  /** A pending statement that ends at `at` is not empty and keeps the order. */
  lemma EndsInPlace(tokens: seq<Token>, end: nat, n: nat, s: State, at: nat)
    requires n <= |tokens| && InPlace(tokens, end, n, s) && Covers(tokens, n, s) && s.pending && Cuts(tokens, n, at)
    ensures s.start < at && RangeTo(s, at).len == at - s.start
    ensures Ascending(s.ranges + [RangeTo(s, at)])
  {
    hide IsTerminator, InSome;
    var k :| 0 <= k < n && tokens[k].kind.Keyword? && s.start <= tokens[k].start;
  }

  lemma EndsProper(tokens: seq<Token>, n: nat, s: State, at: nat)
    requires n <= |tokens| && Proper(tokens, n, s) && Covers(tokens, n, s) && s.pending && Cuts(tokens, n, at)
    ensures HoldsKeyword(tokens, RangeTo(s, at)) && HoldsNoTerminator(tokens, RangeTo(s, at))
  {
    hide InSome, After;
    var k0 :| 0 <= k0 < n && tokens[k0].kind.Keyword? && s.start <= tokens[k0].start;
    assert Holds(RangeTo(s, at), tokens[k0]);
  }

  lemma EndsCovering(tokens: seq<Token>, n: nat, s: State, at: nat)
    requires n <= |tokens| && Covers(tokens, n, s) && s.pending && Cuts(tokens, n, at)
    ensures forall k :: 0 <= k < n && tokens[k].kind.Keyword? ==> InSome(s.ranges + [RangeTo(s, at)], tokens[k])
  {
    forall k | 0 <= k < n && tokens[k].kind.Keyword? ensures InSome(s.ranges + [RangeTo(s, at)], tokens[k]) {
      InSomeMore(s.ranges, RangeTo(s, at), tokens[k]);
    }
  }

  /** What holds of the state after the first `n` tokens. */
  ghost predicate Sound(tokens: seq<Token>, end: nat, n: nat)
    requires n <= |tokens|
  {
    var s := After(tokens, n);
    InPlace(tokens, end, n, s) && Proper(tokens, n, s) && Covers(tokens, n, s)
  }

  lemma {:induction false} StaysSound(tokens: seq<Token>, end: nat, n: nat)
    requires TokensOk(tokens, end) && n <= |tokens|
    ensures Sound(tokens, end, n)
  {
    hide *;
    if n == 0 {
      StartsSound(tokens, end);
    } else {
      StaysSound(tokens, end, n - 1);
      NextSound(tokens, end, n - 1);
    }
  }

  lemma NextSound(tokens: seq<Token>, end: nat, n: nat)
    requires TokensOk(tokens, end) && n < |tokens| && Sound(tokens, end, n)
    ensures Sound(tokens, end, n + 1)
  {
    hide InPlace, Proper, Covers, After, Step, TokensOk;
    var s := After(tokens, n);
    AfterNext(tokens, n);
    NextInPlace(tokens, end, n, s);
    NextProper(tokens, end, n, s);
    NextCovers(tokens, end, n, s);
  }

  lemma StartsSound(tokens: seq<Token>, end: nat)
    ensures Sound(tokens, end, 0)
  {
  }

  lemma AfterNext(tokens: seq<Token>, n: nat)
    requires n < |tokens|
    ensures After(tokens, n + 1) == Step(After(tokens, n), tokens[n])
  {
  }

  lemma NextInPlace(tokens: seq<Token>, end: nat, n: nat, s: State)
    requires TokensOk(tokens, end) && n < |tokens| && InPlace(tokens, end, n, s) && Covers(tokens, n, s)
    ensures InPlace(tokens, end, n + 1, Step(s, tokens[n]))
  {
    if tokens[n].kind.Semicolon? && s.open == 0 && s.pending {
      CutsHere(tokens, end, n);
      EndsInPlace(tokens, end, n, s, tokens[n].start);
      hide Covers;
    }
  }

  /** No terminator is left behind. */
  ghost predicate Passed(tokens: seq<Token>, n: nat, start: nat)
    requires n <= |tokens|
  {
    forall k :: 0 <= k < n && IsTerminator(tokens, k) ==> tokens[k].start < start
  }

  lemma NextPassed(tokens: seq<Token>, n: nat, start: nat, next: nat)
    requires n < |tokens| && Passed(tokens, n, start) && start <= next && (IsTerminator(tokens, n) ==> tokens[n].start < next)
    ensures Passed(tokens, n + 1, next)
  {
    hide IsTerminator;
  }

  lemma CutsHere(tokens: seq<Token>, end: nat, n: nat)
    requires TokensOk(tokens, end) && n < |tokens|
    ensures Cuts(tokens, n, tokens[n].start)
  {
    forall k | n <= k < |tokens| ensures tokens[n].start <= tokens[k].start {
      assert k == n || tokens[n].start < tokens[k].start;
    }
  }

  lemma NextProper(tokens: seq<Token>, end: nat, n: nat, s: State)
    requires TokensOk(tokens, end) && n < |tokens| && s == After(tokens, n)
    requires InPlace(tokens, end, n, s) && Proper(tokens, n, s) && Covers(tokens, n, s)
    ensures Proper(tokens, n + 1, Step(s, tokens[n]))
  {
    assert IsTerminator(tokens, n) <==> tokens[n].kind.Semicolon? && s.open == 0;
    assert s.start <= tokens[n].start && Passed(tokens, n, s.start);
    hide IsTerminator, After, Proper, HoldsKeyword, HoldsNoTerminator, Covers, InPlace, TokensOk, Cuts, Passed;
    CutsHere(tokens, end, n);
    NextPassed(tokens, n, s.start, Step(s, tokens[n]).start);
    if tokens[n].kind.Semicolon? && s.open == 0 && s.pending {
      EndsProper(tokens, n, s, tokens[n].start);
    }
    StepProper(tokens, n, s);
  }

  lemma StepProper(tokens: seq<Token>, n: nat, s: State)
    requires n < |tokens| && Proper(tokens, n, s) && Passed(tokens, n + 1, Step(s, tokens[n]).start)
    requires tokens[n].kind.Semicolon? && s.open == 0 && s.pending ==>
               HoldsKeyword(tokens, RangeTo(s, tokens[n].start)) && HoldsNoTerminator(tokens, RangeTo(s, tokens[n].start))
    ensures Proper(tokens, n + 1, Step(s, tokens[n]))
  {
    hide HoldsKeyword, HoldsNoTerminator, Passed, RangeTo;
  }

  lemma NextCovers(tokens: seq<Token>, end: nat, n: nat, s: State)
    requires TokensOk(tokens, end) && n < |tokens| && InPlace(tokens, end, n, s) && Covers(tokens, n, s)
    ensures Covers(tokens, n + 1, Step(s, tokens[n]))
  {
    var t, u := tokens[n], Step(s, tokens[n]);
    assert s.start <= t.start;
    if t.kind.Semicolon? && s.open == 0 && s.pending {
      CutsHere(tokens, end, n);
      EndsCovering(tokens, n, s, t.start);
      hide InSome;
    } else {
      hide InSome;
      if s.pending {
        var k :| 0 <= k < n && tokens[k].kind.Keyword? && s.start <= tokens[k].start;
        assert u.start == s.start;
      }
    }
  }

  /**
   The statements: they ascend without overlap within the text, and each holds a keyword and no
   semicolon outside of the parentheses counted.
   */
  lemma SplitIsProper(tokens: seq<Token>, end: nat)
    requires TokensOk(tokens, end)
    ensures var r := Statements(tokens, end);
            && Ascending(r) && (forall i :: 0 <= i < |r| ==> r[i].start + r[i].len <= end)
            && (forall i :: 0 <= i < |r| ==> HoldsKeyword(tokens, r[i]) && HoldsNoTerminator(tokens, r[i]))
  {
    var n := |tokens|;
    StaysSound(tokens, end, n);
    var s := After(tokens, n);
    hide After;
    if s.pending && s.open == 0 {
      EndsInPlace(tokens, end, n, s, end);
      EndsProper(tokens, n, s, end);
    }
    hide HoldsKeyword, HoldsNoTerminator, Covers;
  }

  /** The keyword lies in exactly one statement. */
  ghost predicate InExactlyOne(ranges: seq<Range>, t: Token) {
    InSome(ranges, t) && forall i, j :: 0 <= i < |ranges| && 0 <= j < |ranges| && Holds(ranges[i], t) && Holds(ranges[j], t) ==> i == j
  }

  lemma AtMostOne(ranges: seq<Range>, t: Token)
    requires Ascending(ranges)
    ensures forall i, j :: 0 <= i < |ranges| && 0 <= j < |ranges| && Holds(ranges[i], t) && Holds(ranges[j], t) ==> i == j
  {
    forall i, j | 0 <= i < |ranges| && 0 <= j < |ranges| && Holds(ranges[i], t) && Holds(ranges[j], t) ensures i == j {
      OnlyOne(ranges, t, i, j);
    }
  }

  lemma OnlyOne(ranges: seq<Range>, t: Token, i: nat, j: nat)
    requires Ascending(ranges) && i < |ranges| && j < |ranges| && Holds(ranges[i], t) && Holds(ranges[j], t)
    ensures i == j
  {
  }

  /**
   Every keyword lies in exactly one statement, unless the parenthesis counter does not end at
   zero while a statement is pending; then the keywords of that statement lie in none.
   */
  lemma SplitIsComplete(tokens: seq<Token>, end: nat)
    requires TokensOk(tokens, end)
    ensures (forall k :: 0 <= k < |tokens| && tokens[k].kind.Keyword? ==> InExactlyOne(Statements(tokens, end), tokens[k]))
       <==> After(tokens, |tokens|).open == 0 || !After(tokens, |tokens|).pending
  {
    var n, r := |tokens|, Statements(tokens, end);
    StaysSound(tokens, end, n);
    SplitIsProper(tokens, end);
    var s := After(tokens, n);
    hide After, HoldsKeyword, HoldsNoTerminator;
    if s.open == 0 || !s.pending {
      if s.pending {
        EndsCovering(tokens, n, s, end);
      }
      forall k | 0 <= k < n && tokens[k].kind.Keyword? ensures InExactlyOne(r, tokens[k]) {
        AtMostOne(r, tokens[k]);
      }
    } else {
      var k :| 0 <= k < n && tokens[k].kind.Keyword? && s.start <= tokens[k].start;
      assert !InSome(r, tokens[k]);
    }
  }

  // ----- the statements, by the semicolons between them -----

  /** The parentheses opened so far less those closed. */
  function Depth(tokens: seq<Token>, n: nat): int
    requires n <= |tokens|
  {
    if n == 0 then 0
    else Depth(tokens, n - 1) + match tokens[n - 1].kind case Open => 1 case Close => -1 case _ => 0
  }

  /** The counter is the depth in 64 bits. */
  lemma {:induction false} OpenIs(tokens: seq<Token>, n: nat)
    requires n <= |tokens|
    ensures After(tokens, n).open == Depth(tokens, n) % 0x1_0000_0000_0000_0000
  {
    if n > 0 {
      OpenIs(tokens, n - 1);
    }
  }

  /** A semicolon between balanced parentheses. */
  lemma TerminatorIs(tokens: seq<Token>, k: nat)
    requires k < |tokens|
    ensures IsTerminator(tokens, k) <==> tokens[k].kind.Semicolon? && Depth(tokens, k) % 0x1_0000_0000_0000_0000 == 0
  {
    OpenIs(tokens, k);
  }

  /** `at` is the start of the text or lies right behind a terminator. */
  ghost predicate Begins(tokens: seq<Token>, at: nat) {
    at == 0 || exists k :: 0 <= k < |tokens| && IsTerminator(tokens, k) && at == tokens[k].start + 1
  }

  /** `at` is that of a terminator, or the end of the text while the parentheses are balanced. */
  ghost predicate Ends(tokens: seq<Token>, end: nat, at: nat) {
    || (at == end && Depth(tokens, |tokens|) % 0x1_0000_0000_0000_0000 == 0)
    || exists k :: 0 <= k < |tokens| && IsTerminator(tokens, k) && at == tokens[k].start
  }

  /** From one terminator to the next, with a keyword in between. */
  ghost predicate IsStatement(tokens: seq<Token>, end: nat, r: Range) {
    Begins(tokens, r.start) && Ends(tokens, end, r.start + r.len) && HoldsKeyword(tokens, r) && HoldsNoTerminator(tokens, r)
  }

  ghost predicate Delimited(tokens: seq<Token>, end: nat, s: State) {
    Begins(tokens, s.start)
    && forall i :: 0 <= i < |s.ranges| ==> Begins(tokens, s.ranges[i].start) && Ends(tokens, end, s.ranges[i].start + s.ranges[i].len)
  }

  lemma {:induction false} StaysDelimited(tokens: seq<Token>, end: nat, n: nat)
    requires TokensOk(tokens, end) && n <= |tokens|
    ensures Delimited(tokens, end, After(tokens, n))
  {
    if n > 0 {
      StaysDelimited(tokens, end, n - 1);
      StaysSound(tokens, end, n - 1);
      NextDelimited(tokens, end, n - 1, After(tokens, n - 1));
    }
  }

  lemma NextDelimited(tokens: seq<Token>, end: nat, n: nat, s: State)
    requires n < |tokens| && s == After(tokens, n) && Delimited(tokens, end, s) && InPlace(tokens, end, n, s)
    ensures Delimited(tokens, end, Step(s, tokens[n]))
  {
    hide After, Ascending;
    if tokens[n].kind.Semicolon? && s.open == 0 {
      assert IsTerminator(tokens, n);
      hide IsTerminator;
      assert Begins(tokens, tokens[n].start + 1) && Ends(tokens, end, tokens[n].start);
    }
  }

  /** Every statement found is one. */
  lemma FoundAreStatements(tokens: seq<Token>, end: nat)
    requires TokensOk(tokens, end)
    ensures forall i :: 0 <= i < |Statements(tokens, end)| ==> IsStatement(tokens, end, Statements(tokens, end)[i])
  {
    var n := |tokens|;
    SplitIsProper(tokens, end);
    StaysDelimited(tokens, end, n);
    StaysSound(tokens, end, n);
    OpenIs(tokens, n);
    hide After, HoldsKeyword, HoldsNoTerminator, Proper, Covers, Depth;
    var s := After(tokens, n);
    if s.pending && s.open == 0 {
      assert Ends(tokens, end, end);
    }
  }

  lemma {:induction false} LastStays(tokens: seq<Token>, end: nat, m: nat)
    requires m <= |tokens|
    ensures After(tokens, m).ranges <= Statements(tokens, end)
    decreases |tokens| - m
  {
    if m < |tokens| {
      LastStays(tokens, end, m + 1);
      AfterNext(tokens, m);
    }
  }

  /** A keyword that a terminator follows is in a statement. */
  lemma KeywordIsIn(tokens: seq<Token>, end: nat, k: nat, j: nat)
    requires TokensOk(tokens, end) && k < j < |tokens| && tokens[k].kind.Keyword? && IsTerminator(tokens, j)
    ensures InSome(Statements(tokens, end), tokens[k])
  {
    hide After, Statements, Sound, Step, IsTerminator;
    StaysSound(tokens, end, j + 1);
    LastStays(tokens, end, j + 1);
    StartsBehind(tokens, j);
    var s := After(tokens, j + 1);
    SoundCovers(tokens, end, j + 1);
    assert tokens[k].start < s.start;
    InPrefix(s.ranges, Statements(tokens, end), tokens[k]);
  }

  lemma StartsBehind(tokens: seq<Token>, j: nat)
    requires j < |tokens| && IsTerminator(tokens, j)
    ensures After(tokens, j + 1).start == tokens[j].start + 1
  {
    AfterNext(tokens, j);
  }

  lemma SoundCovers(tokens: seq<Token>, end: nat, n: nat)
    requires n <= |tokens| && Sound(tokens, end, n)
    ensures Covers(tokens, n, After(tokens, n))
  {
    hide After, Covers, InPlace, Proper;
  }

  lemma InPrefix(some: seq<Range>, all: seq<Range>, t: Token)
    requires some <= all && InSome(some, t)
    ensures InSome(all, t)
  {
    var i :| 0 <= i < |some| && Holds(some[i], t);
    assert all[i] == some[i];
  }

  /** Two statements with a keyword in common are the same. */
  lemma SameStatement(tokens: seq<Token>, end: nat, a: Range, b: Range, k: nat)
    requires TokensOk(tokens, end) && IsStatement(tokens, end, a) && IsStatement(tokens, end, b)
    requires k < |tokens| && Holds(a, tokens[k]) && Holds(b, tokens[k])
    requires a.start + a.len <= end && b.start + b.len <= end
    ensures a == b
  {
    hide IsTerminator, Depth, HoldsKeyword, TokensOk;
    BeginsNoLater(tokens, a, b, k);
    BeginsNoLater(tokens, b, a, k);
    EndsNoEarlier(tokens, end, a, b, k);
    EndsNoEarlier(tokens, end, b, a, k);
  }

  lemma BeginsNoLater(tokens: seq<Token>, a: Range, b: Range, k: nat)
    requires k < |tokens| && Holds(a, tokens[k]) && Holds(b, tokens[k]) && HoldsNoTerminator(tokens, a) && Begins(tokens, b.start)
    ensures b.start <= a.start
  {
    hide IsTerminator;
  }

  lemma EndsNoEarlier(tokens: seq<Token>, end: nat, a: Range, b: Range, k: nat)
    requires k < |tokens| && Holds(a, tokens[k]) && Holds(b, tokens[k]) && HoldsNoTerminator(tokens, a)
    requires Ends(tokens, end, b.start + b.len) && a.start + a.len <= end
    ensures a.start + a.len <= b.start + b.len
  {
    hide IsTerminator, Depth;
  }

  /**
   The statements found are exactly the stretches from one terminator to the next that hold a
   keyword; the last one may end with the text.
   */
  lemma SplitExactly(tokens: seq<Token>, end: nat, r: Range)
    requires TokensOk(tokens, end) && r.start + r.len <= end
    ensures r in Statements(tokens, end) <==> IsStatement(tokens, end, r)
  {
    FoundAreStatements(tokens, end);
    SplitIsProper(tokens, end);
    if IsStatement(tokens, end, r) {
      var k :| 0 <= k < |tokens| && tokens[k].kind.Keyword? && Holds(r, tokens[k]);
      HeldIsIn(tokens, end, r, k);
      var found := Statements(tokens, end);
      hide Statements, IsStatement;
      var i :| 0 <= i < |found| && Holds(found[i], tokens[k]);
      SameStatement(tokens, end, r, found[i], k);
    }
  }

  lemma HeldIsIn(tokens: seq<Token>, end: nat, r: Range, k: nat)
    requires TokensOk(tokens, end) && k < |tokens| && tokens[k].kind.Keyword? && Holds(r, tokens[k])
    requires Ends(tokens, end, r.start + r.len)
    ensures InSome(Statements(tokens, end), tokens[k])
  {
    if Depth(tokens, |tokens|) % 0x1_0000_0000_0000_0000 == 0 {
      OpenIs(tokens, |tokens|);
      SplitIsComplete(tokens, end);
      hide Statements, After, Depth;
    } else {
      hide Depth, Statements;
      var j :| 0 <= j < |tokens| && IsTerminator(tokens, j) && r.start + r.len == tokens[j].start;
      assert k < j by {
        assert tokens[k].start < tokens[j].start;
      }
      KeywordIsIn(tokens, end, k, j);
    }
  }

  // ----- the two passes -----

  /** A keyword and a parenthesis that is not closed: no statement is found. */
  lemma UnclosedIsLost()
    ensures var tokens := [Token(Keyword, 0), Token(Open, 7)];
            TokensOk(tokens, 8) && Statements(tokens, 8) == [] && !InExactlyOne(Statements(tokens, 8), tokens[0])
  {
    var tokens := [Token(Keyword, 0), Token(Open, 7)];
    assert After(tokens, 0) == State(0, false, 0, []);
    assert After(tokens, 1) == State(0, true, 0, []);
    assert After(tokens, 2) == State(1, true, 0, []);
  }

  lemma {:induction false} RangesGrow(tokens: seq<Token>, n: nat, m: nat)
    requires n <= m <= |tokens|
    ensures |After(tokens, n).ranges| <= |After(tokens, m).ranges|
  {
    if n < m {
      RangesGrow(tokens, n, m - 1);
    }
  }

  /** The first pass counts the statements. */
  method CountStatements(tokens: seq<Token>, end: nat) returns (nStmts: nat)
    ensures nStmts == |Statements(tokens, end)|
  {
    var openParens, keywordBefore := 0, false;
    nStmts := 0;
    var i := 0;
    while i < |tokens|
      invariant 0 <= i <= |tokens|
      invariant var s := After(tokens, i); openParens == s.open && keywordBefore == s.pending && nStmts == |s.ranges|
    {
      var tok := tokens[i].kind;
      if tok.Keyword? {
        keywordBefore := true;
      } else if tok.Open? {
        openParens := Opened(openParens);
      } else if tok.Close? {
        openParens := Closed(openParens);
      } else if keywordBefore && openParens == 0 && tok.Semicolon? {
        nStmts := nStmts + 1;
        keywordBefore := false;
      }
      i := i + 1;
    }
    if keywordBefore && openParens == 0 {
      nStmts := nStmts + 1;
    }
  }

  /** `pg_query_split_with_scanner`: the second pass fills exactly the statements counted. */
  method SplitWithScanner(tokens: seq<Token>, end: nat) returns (stmts: array<Range>)
    requires TokensOk(tokens, end)
    ensures stmts[..] == Statements(tokens, end)
  {
    hide *;
    var nStmts := CountStatements(tokens, end);
    stmts := new Range[nStmts](_ => Range(0, 0));
    var openParens: nat, keywordBefore, stmtStart: nat, curStmt: nat := 0, false, 0, 0;
    NothingFilled(tokens, stmts);
    var i := 0;
    while i < |tokens|
      invariant 0 <= i <= |tokens| && Filled(tokens, i, openParens, keywordBefore, stmtStart, curStmt, stmts)
    {
      openParens, keywordBefore, stmtStart, curStmt :=
        FillNext(tokens, end, i, openParens, keywordBefore, stmtStart, curStmt, stmts);
      i := i + 1;
    }
    FilledAll(tokens, end, openParens, keywordBefore, stmtStart, curStmt, stmts);
    if keywordBefore && openParens == 0 {
      stmts[curStmt] := Range(stmtStart, end - stmtStart);
      curStmt := curStmt + 1;
    }
    assert stmts[..] == stmts[..curStmt];
  }

  /** The variables of the second pass after the first `i` tokens. */
  ghost predicate Filled(tokens: seq<Token>, i: nat, openParens: nat, keywordBefore: bool, stmtStart: nat, curStmt: nat,
                         stmts: array<Range>)
    reads stmts
  {
    && i <= |tokens|
    && var s := After(tokens, i);
    && openParens == s.open && keywordBefore == s.pending && stmtStart == s.start
    && curStmt == |s.ranges| <= stmts.Length && stmts[..curStmt] == s.ranges
  }

  lemma NothingFilled(tokens: seq<Token>, stmts: array<Range>)
    ensures Filled(tokens, 0, 0, false, 0, 0, stmts)
  {
  }

  lemma FilledAll(tokens: seq<Token>, end: nat, openParens: nat, keywordBefore: bool, stmtStart: nat, curStmt: nat,
                  stmts: array<Range>)
    requires TokensOk(tokens, end) && stmts.Length == |Statements(tokens, end)|
    requires Filled(tokens, |tokens|, openParens, keywordBefore, stmtStart, curStmt, stmts)
    ensures curStmt <= stmts.Length
    ensures if keywordBefore && openParens == 0
            then curStmt + 1 == stmts.Length && stmtStart <= end
                 && Statements(tokens, end) == stmts[..curStmt] + [Range(stmtStart, end - stmtStart)]
            else curStmt == stmts.Length && Statements(tokens, end) == stmts[..curStmt]
  {
    StaysSound(tokens, end, |tokens|);
    hide After, Proper, Covers;
  }

  /** What the next token does to the statements. */
  lemma NextStatement(tokens: seq<Token>, end: nat, i: nat)
    requires TokensOk(tokens, end) && i < |tokens|
    ensures After(tokens, i + 1) == Step(After(tokens, i), tokens[i]) && After(tokens, i).start <= tokens[i].start
    ensures |After(tokens, i + 1).ranges| <= |Statements(tokens, end)|
  {
    StaysSound(tokens, end, i);
    RangesGrow(tokens, i + 1, |tokens|);
    AfterNext(tokens, i);
    hide After, Proper, Covers;
  }

  /** The body of the second loop. */
  method FillNext(tokens: seq<Token>, end: nat, i: nat, openParens: nat, keywordBefore: bool, stmtStart: nat, curStmt: nat,
                  stmts: array<Range>)
    returns (openParens': nat, keywordBefore': bool, stmtStart': nat, curStmt': nat)
    requires TokensOk(tokens, end) && stmts.Length == |Statements(tokens, end)| && i < |tokens|
    requires Filled(tokens, i, openParens, keywordBefore, stmtStart, curStmt, stmts)
    modifies stmts
    ensures Filled(tokens, i + 1, openParens', keywordBefore', stmtStart', curStmt', stmts)
  {
    NextStatement(tokens, end, i);
    hide After, Statements;
    openParens', keywordBefore', stmtStart', curStmt' := openParens, keywordBefore, stmtStart, curStmt;
    var tok, at := tokens[i].kind, tokens[i].start;
    if tok.Keyword? {
      keywordBefore' := true;
    } else if tok.Open? {
      openParens' := Opened(openParens);
    } else if tok.Close? {
      openParens' := Closed(openParens);
    } else if keywordBefore && openParens == 0 && tok.Semicolon? {
      stmts[curStmt] := Range(stmtStart, at - stmtStart);
      stmtStart' := at + 1;
      keywordBefore' := false;
      curStmt' := curStmt + 1;
    } else if openParens == 0 && tok.Semicolon? {
      stmtStart' := at + 1;
    }
  }
}
