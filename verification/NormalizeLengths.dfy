/**
 The lengths of the recorded constants: `fill_in_constant_lengths`, a merge of the sorted
 locations with the tokens of the scanner.
 */
module NormalizeLengths {
  import opened Common

  datatype Token = Token(start: nat, end: nat)

  /** An entry of `clocations`; a length of -1 marks an entry to ignore. */
  datatype Entry = Entry(location: nat, length: int, id: int)

  ghost predicate TokensOk(query: string, tokens: seq<Token>) {
    && (forall i :: 0 <= i < |tokens| ==> tokens[i].start < tokens[i].end <= |query|)
    && (forall i, j :: 0 <= i < j < |tokens| ==> tokens[i].end <= tokens[j].start)
  }

  // ----- sorting by location -----

  ghost predicate Sorted(entries: seq<Entry>) {
    forall i, j :: 0 <= i <= j < |entries| ==> entries[i].location <= entries[j].location
  }

  /** `comp_location` */
  predicate ByLocation(a: Entry, b: Entry) {
    a.location < b.location
  }

  function Sort(entries: seq<Entry>): seq<Entry> {
    SortBy(ByLocation, entries)
  }

  /** Sorting only reorders the entries. */
  lemma SortKeeps(entries: seq<Entry>)
    ensures Sorted(Sort(entries)) && multiset(Sort(entries)) == multiset(entries) && |Sort(entries)| == |entries|
  {
    SortByFacts(ByLocation, entries);
    var s := Sort(entries);
    hide Sort, SortBy;
    assert forall i, j :: 0 <= i < j < |s| ==> !ByLocation(s[j], s[i]);
  }

  // ----- the lengths of the constants -----

  /** The first token from `k` on that starts at `loc` or later. */
  function NextStart(tokens: seq<Token>, k: nat, loc: nat): (j: nat)
    requires k <= |tokens|
    ensures k <= j <= |tokens|
    ensures j < |tokens| ==> tokens[j].start >= loc
    ensures forall i :: k <= i < j ==> tokens[i].start < loc
    decreases |tokens| - k
  {
    if k == |tokens| || tokens[k].start >= loc then k else NextStart(tokens, k + 1, loc)
  }

  /** `scanner_isspace` */
  predicate IsSpace(c: char) {
    c == ' ' || c == '\t' || c == '\n' || c == '\r' || c as int == 11 || c as int == 12
  }

  /** A string with Unicode escapes: the scanner has read white space behind it, looking for UESCAPE. */
  predicate IsUnicodeString(query: string, loc: nat, length: nat)
    requires loc + length <= |query|
  {
    length > 4 && (query[loc] == 'u' || query[loc] == 'U') && query[loc + 1] == '&' && query[loc + 2] == '\''
  }

  /**
   What the constant at `loc` takes, when its last token ends at `end`: everything up to there, except
   for a string that starts with U&' the white space at the end of the token.
   */
  predicate EndsConstant(query: string, loc: nat, length: int, end: nat) {
    && 1 <= length <= end - loc && end <= |query|
    && if end - loc > 4 && query[loc] in {'u', 'U'} && query[loc + 1] == '&' && query[loc + 2] == '\''
       then query[loc + length - 1] !in {' ', '\t', '\n', '\r', '\U{b}', '\U{c}'}
            && forall i :: loc + length <= i < end ==> query[i] in {' ', '\t', '\n', '\r', '\U{b}', '\U{c}'}
       else loc + length == end
  }

  /** At most one length does. */
  lemma OneEnd(query: string, loc: nat, m: int, n: int, end: nat)
    requires EndsConstant(query, loc, m, end) && EndsConstant(query, loc, n, end)
    ensures m == n
  {
  }

  /** White space behind an empty string with Unicode escapes, and a token that is too short for one. */
  lemma EndsExamples()
    ensures EndsConstant("U&'' ", 0, 4, 5) && !EndsConstant("U&'' ", 0, 5, 5)
    ensures EndsConstant("u&'' ", 0, 4, 5) && EndsConstant("U&' ", 0, 4, 4) && !EndsConstant("U&' ", 0, 3, 4)
    ensures EndsConstant("= U&'a'\n 1", 2, 5, 9) && EndsConstant("= 123 ", 2, 3, 5)
  {
  }

  /** The token that ends the constant found by token `j`: a minus sign takes the next one too. */
  function LastToken(query: string, tokens: seq<Token>, j: nat, loc: nat): nat
    requires loc < |query|
  {
    if query[loc] == '-' then j + 1 else j
  }

  /** The search for the constant at `loc`: the tokens read, and the length if there is one. */
  method FindConstant(query: string, tokens: seq<Token>, k: nat, loc: nat) returns (k': nat, length: int)
    requires TokensOk(query, tokens) && k <= |tokens|
    ensures var j := NextStart(tokens, k, loc);
            if j < |tokens| && LastToken(query, tokens, j, loc) < |tokens|
            then
              var last := LastToken(query, tokens, j, loc);
              k' == last + 1 && EndsConstant(query, loc, length, tokens[last].end)
            else length == -1
    ensures k <= k' <= |tokens| && (length == -1 || 1 <= length <= |query| - loc)
  {
    k', length := k, -1;
    while k' < |tokens| && tokens[k'].start < loc
      invariant k <= k' <= |tokens| && NextStart(tokens, k, loc) == NextStart(tokens, k', loc)
    {
      k' := k' + 1;
    }
    if k' == |tokens| {
      return;
    }
    assert loc <= tokens[k'].start < |query|;
    if query[loc] == '-' {
      k' := k' + 1;
      if k' == |tokens| {
        return;
      }
      assert tokens[k' - 1].end <= tokens[k'].start;
    }
    length := ConstantLength(query, loc, tokens[k'].end);
    k' := k' + 1;
  }

  /** The length of the constant from `loc` to the end of its token. */
  method ConstantLength(query: string, loc: nat, end: nat) returns (length: nat)
    requires loc < end <= |query|
    ensures EndsConstant(query, loc, length, end)
  {
    length := end - loc;
    if IsUnicodeString(query, loc, length) {
      var j := length - 1;
      while j >= 0 && IsSpace(query[loc + j])
        invariant 2 <= j < length && forall i :: loc + j < i < end ==> IsSpace(query[i])
      {
        j := j - 1;
      }
      length := j + 1;
    }
  }

  /** The location is the start of a token, and a minus sign has a token behind it. */
  predicate IsConstantStart(query: string, tokens: seq<Token>, loc: nat) {
    var j := NextStart(tokens, 0, loc);
    j < |tokens| && tokens[j].start == loc < |query| && LastToken(query, tokens, j, loc) < |tokens|
  }

  /** Where the constant ends in the scanner's eyes. */
  function ConstantEnd(query: string, tokens: seq<Token>, loc: nat): nat
    requires IsConstantStart(query, tokens, loc)
  {
    tokens[LastToken(query, tokens, NextStart(tokens, 0, loc), loc)].end
  }

  /** A constant starts where a token does, and with a minus sign it takes the token behind it too. */
  lemma StartAndEnd(query: string, tokens: seq<Token>, j: nat)
    requires TokensOk(query, tokens) && j < |tokens|
    ensures var loc := tokens[j].start;
            && (IsConstantStart(query, tokens, loc) <==> (query[loc] == '-' ==> j + 1 < |tokens|))
            && (IsConstantStart(query, tokens, loc) ==>
                  ConstantEnd(query, tokens, loc) == if query[loc] == '-' then tokens[j + 1].end else tokens[j].end)
  {
    forall i | 0 <= i < j ensures tokens[i].start < tokens[j].start {
      assert tokens[i].end <= tokens[j].start;
    }
  }

  lemma StartsAtToken(query: string, tokens: seq<Token>, loc: nat)
    requires IsConstantStart(query, tokens, loc)
    ensures exists j :: 0 <= j < |tokens| && tokens[j].start == loc
  {
  }

  /** What the parser promises: locations are starts of constants that do not overlap. */
  ghost predicate Promised(query: string, tokens: seq<Token>, entries: seq<Entry>) {
    && (forall i :: 0 <= i < |entries| ==> IsConstantStart(query, tokens, entries[i].location))
    && (forall i, j :: 0 <= i < |entries| && 0 <= j < |entries| && entries[i].location < entries[j].location
          ==> ConstantEnd(query, tokens, entries[i].location) <= entries[j].location)
  }

  /** The length that entry `i` should get: the first entry of a location that of its constant, others -1. */
  ghost predicate HasLength(query: string, tokens: seq<Token>, locs: seq<Entry>, i: nat)
    requires TokensOk(query, tokens) && i < |locs|
  {
    if i > 0 && locs[i - 1].location == locs[i].location then locs[i].length == -1
    else
      var loc := locs[i].location;
      IsConstantStart(query, tokens, loc) && EndsConstant(query, loc, locs[i].length, ConstantEnd(query, tokens, loc))
  }

  lemma StartFromHere(query: string, tokens: seq<Token>, k: nat, loc: nat)
    requires TokensOk(query, tokens) && IsConstantStart(query, tokens, loc) && k <= NextStart(tokens, 0, loc)
    ensures NextStart(tokens, k, loc) == NextStart(tokens, 0, loc)
    ensures loc < ConstantEnd(query, tokens, loc) <= |query|
  {
    var j := NextStart(tokens, 0, loc);
    assert j + 1 < |tokens| ==> tokens[j].end <= tokens[j + 1].start;
  }

  lemma EndsBefore(query: string, tokens: seq<Token>, i: nat, j: nat)
    requires TokensOk(query, tokens) && i < |tokens| && j < |tokens| && tokens[i].end <= tokens[j].start
    ensures i < j
  {
  }

  /** The tokens of a constant lie before a constant that starts behind it. */
  lemma StartsBehind(query: string, tokens: seq<Token>, loc: nat, next: nat)
    requires TokensOk(query, tokens) && IsConstantStart(query, tokens, loc) && IsConstantStart(query, tokens, next)
    requires ConstantEnd(query, tokens, loc) <= next
    ensures LastToken(query, tokens, NextStart(tokens, 0, loc), loc) + 1 <= NextStart(tokens, 0, next)
  {
    var last, j := LastToken(query, tokens, NextStart(tokens, 0, loc), loc), NextStart(tokens, 0, next);
    EndsBefore(query, tokens, last, j);
  }

  // ----- `fill_in_constant_lengths` -----

  /** Locations and ids are those of the sorted entries; lengths are -1 or lie within the query. */
  ghost predicate FilledIn(query: string, sorted: seq<Entry>, locs: seq<Entry>) {
    |locs| == |sorted| && forall i :: 0 <= i < |locs| ==>
      && locs[i].location == sorted[i].location && locs[i].id == sorted[i].id
      && (locs[i].length == -1 || 1 <= locs[i].length <= |query| - locs[i].location)
  }

  /** What holds when entries from `i` on are still to be looked at. */
  ghost predicate Filling(query: string, tokens: seq<Token>, sorted: seq<Entry>, locs: seq<Entry>, i: nat, k: nat,
                          lastLoc: int, more: bool)
    requires TokensOk(query, tokens)
  {
    && i <= |locs| == |sorted| && k <= |tokens| && FilledIn(query, sorted, locs)
    && (forall j :: i <= j < |locs| ==> locs[j] == sorted[j])
    && (Promised(query, tokens, sorted) ==>
          && more && lastLoc == (if i == 0 then -1 else sorted[i - 1].location)
          && (forall j :: 0 <= j < i ==> HasLength(query, tokens, locs, j))
          && (forall j :: i <= j < |sorted| && sorted[j].location > lastLoc ==> k <= NextStart(tokens, 0, sorted[j].location)))
  }

  /** A repeated location keeps its length of -1. */
  lemma FillRepeats(query: string, tokens: seq<Token>, sorted: seq<Entry>, locs: seq<Entry>, i: nat, k: nat, lastLoc: int)
    requires TokensOk(query, tokens) && Sorted(sorted) && forall j :: 0 <= j < |sorted| ==> sorted[j].length == -1
    requires Filling(query, tokens, sorted, locs, i, k, lastLoc, true) && i < |locs| && locs[i].location <= lastLoc
    ensures Filling(query, tokens, sorted, locs, i + 1, k, lastLoc, true)
  {
    hide NextStart, IsConstantStart, ConstantEnd;
    if Promised(query, tokens, sorted) && i > 0 {
      assert sorted[i - 1].location <= sorted[i].location;
      assert locs[i - 1].location == sorted[i - 1].location && locs[i].location == sorted[i].location;
    }
  }

  /** The input ends before the constant is found, which the parser rules out. */
  lemma FillEnds(query: string, tokens: seq<Token>, sorted: seq<Entry>, locs: seq<Entry>, i: nat, k: nat, lastLoc: int)
    requires TokensOk(query, tokens) && Filling(query, tokens, sorted, locs, i, k, lastLoc, true)
    requires i < |locs| && locs[i].location > lastLoc
    requires var j := NextStart(tokens, k, locs[i].location);
             !(j < |tokens| && LastToken(query, tokens, j, locs[i].location) < |tokens|)
    ensures !Promised(query, tokens, sorted)
  {
    if Promised(query, tokens, sorted) {
      assert IsConstantStart(query, tokens, sorted[i].location);
      StartFromHere(query, tokens, k, sorted[i].location);
    }
  }

  /** The constant is found and its length filled in. */
  lemma FillFinds(query: string, tokens: seq<Token>, sorted: seq<Entry>, locs: seq<Entry>, i: nat, k: nat, lastLoc: int,
                  k': nat, length: int)
    requires TokensOk(query, tokens) && Sorted(sorted)
    requires Filling(query, tokens, sorted, locs, i, k, lastLoc, true) && i < |locs| && locs[i].location > lastLoc
    requires k <= k' <= |tokens| && 1 <= length <= |query| - locs[i].location
    requires Found(query, tokens, k, locs[i].location, k', length)
    ensures Filling(query, tokens, sorted, locs[i := locs[i].(length := length)], i + 1, k', locs[i].location, true)
  {
    var filled := locs[i := locs[i].(length := length)];
    assert FilledIn(query, sorted, filled);
    if Promised(query, tokens, sorted) {
      ThisFilled(query, tokens, sorted, locs, i, k, lastLoc, k', length);
      CursorBehind(query, tokens, sorted, i, k');
      forall j | 0 <= j < i ensures HasLength(query, tokens, filled, j) {
        SameLength(query, tokens, locs, filled, j);
      }
      hide NextStart, Promised, HasLength, Found, IsConstantStart, LastToken, FilledIn;
    }
  }

  lemma SameLength(query: string, tokens: seq<Token>, locs: seq<Entry>, more: seq<Entry>, j: nat)
    requires TokensOk(query, tokens) && j < |locs| && j < |more| && locs[..j + 1] == more[..j + 1]
    ensures HasLength(query, tokens, locs, j) <==> HasLength(query, tokens, more, j)
  {
    assert locs[..j + 1][j] == more[..j + 1][j];
    assert j > 0 ==> locs[..j + 1][j - 1] == more[..j + 1][j - 1];
    hide TokensOk, IsConstantStart, ConstantEnd, EndsConstant;
  }

  /** The constant that the search from token `k` on finds is the one that starts here. */
  lemma ThisFilled(query: string, tokens: seq<Token>, sorted: seq<Entry>, locs: seq<Entry>, i: nat, k: nat, lastLoc: int,
                   k': nat, length: int)
    requires TokensOk(query, tokens) && Sorted(sorted) && Promised(query, tokens, sorted)
    requires Filling(query, tokens, sorted, locs, i, k, lastLoc, true) && i < |locs| && locs[i].location > lastLoc
    requires Found(query, tokens, k, locs[i].location, k', length)
    ensures var loc := sorted[i].location;
            && HasLength(query, tokens, locs[i := locs[i].(length := length)], i)
            && IsConstantStart(query, tokens, loc) && k' == LastToken(query, tokens, NextStart(tokens, 0, loc), loc) + 1
  {
    var loc := sorted[i].location;
    assert IsConstantStart(query, tokens, loc);
    StartFromHere(query, tokens, k, loc);
    assert i > 0 ==> locs[i - 1].location == sorted[i - 1].location;
    hide NextStart, LastToken, EndsConstant, Promised, TokensOk;
  }

  /** The tokens read so far end before every constant still to come. */
  lemma CursorBehind(query: string, tokens: seq<Token>, sorted: seq<Entry>, i: nat, k': nat)
    requires TokensOk(query, tokens) && Promised(query, tokens, sorted) && i < |sorted|
    requires var loc := sorted[i].location;
             IsConstantStart(query, tokens, loc) && k' == LastToken(query, tokens, NextStart(tokens, 0, loc), loc) + 1
    ensures forall j :: i + 1 <= j < |sorted| && sorted[j].location > sorted[i].location
              ==> k' <= NextStart(tokens, 0, sorted[j].location)
  {
    var loc := sorted[i].location;
    forall j | i + 1 <= j < |sorted| && sorted[j].location > loc
      ensures k' <= NextStart(tokens, 0, sorted[j].location)
    {
      assert ConstantEnd(query, tokens, loc) <= sorted[j].location;
      StartsBehind(query, tokens, loc, sorted[j].location);
    }
  }

  ghost predicate Found(query: string, tokens: seq<Token>, k: nat, loc: nat, k': nat, length: int)
    requires TokensOk(query, tokens) && k <= |tokens|
  {
    var j := NextStart(tokens, k, loc);
    && j < |tokens| && loc < |query| && LastToken(query, tokens, j, loc) < |tokens|
    && var last := LastToken(query, tokens, j, loc);
       k' == last + 1 && EndsConstant(query, loc, length, tokens[last].end)
  }

  /** The body of the loop over the sorted entries. */
  method FillNext(query: string, tokens: seq<Token>, ghost sorted: seq<Entry>, locs: seq<Entry>, i: nat, k: nat, lastLoc: int)
    returns (locs': seq<Entry>, k': nat, lastLoc': int, more: bool)
    requires TokensOk(query, tokens) && Sorted(sorted) && forall j :: 0 <= j < |sorted| ==> sorted[j].length == -1
    requires Filling(query, tokens, sorted, locs, i, k, lastLoc, true) && i < |locs|
    ensures more ==> Filling(query, tokens, sorted, locs', i + 1, k', lastLoc', true) && |locs'| == |locs|
    ensures !more ==> Filling(query, tokens, sorted, locs', i, k', lastLoc', false)
  {
    locs', k', lastLoc', more := locs, k, lastLoc, true;
    var loc := locs[i].location;
    if loc <= lastLoc {
      FillRepeats(query, tokens, sorted, locs, i, k, lastLoc);
      return;
    }
    var length;
    k', length := FindConstant(query, tokens, k, loc);
    if length == -1 {
      FillEnds(query, tokens, sorted, locs, i, k, lastLoc);
      more := false;
    } else {
      FillFinds(query, tokens, sorted, locs, i, k, lastLoc, k', length);
      locs' := locs[i := locs[i].(length := length)];
      lastLoc' := loc;
    }
  }

  /** `fill_in_constant_lengths` */
  method FillInConstantLengths(query: string, tokens: seq<Token>, entries: seq<Entry>) returns (locs: seq<Entry>)
    requires TokensOk(query, tokens) && forall i :: 0 <= i < |entries| ==> entries[i].length == -1
    ensures FilledIn(query, Sort(entries), locs)
    ensures Promised(query, tokens, Sort(entries)) ==> forall i :: 0 <= i < |locs| ==> HasLength(query, tokens, locs, i)
  {
    ghost var sorted := Sort(entries);
    SortedAreBlank(entries);
    locs := Sort(entries);
    var k, i, lastLoc, more := 0, 0, -1, true;
    hide Sort, Sorted, NextStart, IsConstantStart, ConstantEnd, HasLength, LastToken, Promised;
    while more && i < |locs|
      invariant 0 <= i <= |locs| && Filling(query, tokens, sorted, locs, i, k, lastLoc, more)
      decreases more, |locs| - i
    {
      locs, k, lastLoc, more := FillNext(query, tokens, sorted, locs, i, k, lastLoc);
      if more {
        i := i + 1;
      }
    }
  }

  lemma SortedAreBlank(entries: seq<Entry>)
    requires forall i :: 0 <= i < |entries| ==> entries[i].length == -1
    ensures Sorted(Sort(entries)) && forall i :: 0 <= i < |Sort(entries)| ==> Sort(entries)[i].length == -1
  {
    SortKeeps(entries);
    var sorted := Sort(entries);
    forall i | 0 <= i < |sorted| ensures sorted[i].length == -1 {
      assert sorted[i] in multiset(sorted);
    }
  }
}
