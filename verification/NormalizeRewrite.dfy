/**
 Rewriting the query text in a bounded buffer: `generate_normalized_query`.

 The text is the query with an ascending sequence of disjoint intervals replaced by parameter
 symbols; putting the intervals back gives the query.
 */
module NormalizeRewrite {
  import opened Common
  import opened NormalizeLengths

  /** A stretch of the query that is replaced. */
  datatype Interval = Interval(off: nat, len: nat, id: int)

  const INT_MAX := 0x7FFF_FFFF

  function Decimal(n: nat): (s: string)
    ensures s != ""
  {
    (if n < 10 then "" else Decimal(n / 10)) + [(n % 10) as char + '0']
  }

  /** The number printed for an entry. */
  function ParamNumber(extern: nat, id: int): nat {
    if id < 0 then extern + (0 - id) else id
  }

  function Symbol(extern: nat, id: int): string {
    "$" + Decimal(ParamNumber(extern, id))
  }

  lemma DecimalLength(n: nat, digits: nat, limit: nat)
    requires digits >= 1 && limit == Power10(digits) && n < limit
    ensures |Decimal(n)| <= digits
    decreases digits
  {
    if n >= 10 {
      assert digits > 1 && n / 10 < Power10(digits - 1);
      DecimalLength(n / 10, digits - 1, Power10(digits - 1));
    }
  }

  function Power10(n: nat): nat {
    if n == 0 then 1 else 10 * Power10(n - 1)
  }

  /** The ids and the highest parameter are C ints. */
  predicate IdsFit(extern: nat, id: int) {
    extern <= INT_MAX && -INT_MAX <= id <= INT_MAX
  }

  /** A symbol is at most eleven bytes long. */
  lemma SymbolLength(extern: nat, id: int)
    requires IdsFit(extern, id)
    ensures 2 <= |Symbol(extern, id)| <= 11
  {
    assert Power10(5) == 100000;
    assert Power10(10) == 100000 * Power10(5);
    DecimalLength(ParamNumber(extern, id), 10, Power10(10));
  }

  predicate IsDigits(s: string) {
    forall i :: 0 <= i < |s| ==> '0' <= s[i] <= '9'
  }

  /** The number that decimal digits stand for. */
  function ReadDecimal(s: string): nat
    requires IsDigits(s)
  {
    if s == "" then 0 else 10 * ReadDecimal(s[..|s| - 1]) + (s[|s| - 1] as int - 48)
  }

  lemma {:induction false} DecimalReads(n: nat)
    ensures IsDigits(Decimal(n)) && ReadDecimal(Decimal(n)) == n && (Decimal(n)[0] == '0' ==> n == 0)
  {
    var s := Decimal(n);
    assert s[|s| - 1] as int == n % 10 + 48;
    if n < 10 {
      assert s[..0] == "";
    } else {
      DecimalReads(n / 10);
      assert s[..|s| - 1] == Decimal(n / 10);
    }
  }

  /** A symbol is a dollar sign and a number without leading zeros: of a fresh id the one that follows the highest parameter. */
  lemma SymbolReads(extern: nat, id: int)
    ensures var s := Symbol(extern, id);
            && |s| > 1 && s[0] == '$' && IsDigits(s[1..])
            && ReadDecimal(s[1..]) == (if id < 0 then extern - id else id)
            && (s[1] == '0' ==> id == 0)
  {
    DecimalReads(ParamNumber(extern, id));
    assert Symbol(extern, id)[1..] == Decimal(ParamNumber(extern, id));
  }

  // ----- which entries are replaced -----

  function End(chosen: seq<Interval>): nat {
    if chosen == [] then 0 else chosen[|chosen| - 1].off + chosen[|chosen| - 1].len
  }

  /** Entries to ignore, entries that overlap the previous one and entries outside the query are passed over. */
  predicate IsTaken(e: Entry, queryLoc: int, end: nat, n: nat) {
    var off := e.location - queryLoc;
    e.length >= 0 && off >= end && off <= n && e.length <= n - off
  }

  function Chosen(locs: seq<Entry>, queryLoc: int, n: nat): seq<Interval> {
    if locs == [] then []
    else
      var before, e := Chosen(locs[..|locs| - 1], queryLoc, n), locs[|locs| - 1];
      if IsTaken(e, queryLoc, End(before), n) then before + [Interval(e.location - queryLoc, e.length, e.id)] else before
  }

  /** Ascending, disjoint, not empty and within the query. */
  ghost predicate Disjoint(chosen: seq<Interval>, n: nat) {
    && (forall i :: 0 <= i < |chosen| ==> chosen[i].len >= 1 && chosen[i].off + chosen[i].len <= n)
    && (forall i, j :: 0 <= i < j < |chosen| ==> chosen[i].off + chosen[i].len <= chosen[j].off)
  }

  ghost predicate LengthsOk(locs: seq<Entry>) {
    forall i :: 0 <= i < |locs| ==> locs[i].length == -1 || locs[i].length >= 1
  }

  lemma DisjointMore(chosen: seq<Interval>, x: Interval, n: nat)
    requires Disjoint(chosen, n) && End(chosen) <= x.off && x.len >= 1 && x.off + x.len <= n
    ensures Disjoint(chosen + [x], n) && End(chosen + [x]) == x.off + x.len
  {
    forall i | 0 <= i < |chosen| ensures chosen[i].off + chosen[i].len <= x.off {
      assert i < |chosen| - 1 ==> chosen[i].off + chosen[i].len <= chosen[|chosen| - 1].off;
    }
  }

  lemma {:induction false} ChosenDisjoint(locs: seq<Entry>, queryLoc: int, n: nat)
    requires LengthsOk(locs)
    ensures Disjoint(Chosen(locs, queryLoc, n), n) && End(Chosen(locs, queryLoc, n)) <= n
    ensures |Chosen(locs, queryLoc, n)| <= |locs|
  {
    hide Disjoint, End;
    if locs == [] {
      NoneChosen(n);
    } else {
      var before, e := Chosen(locs[..|locs| - 1], queryLoc, n), locs[|locs| - 1];
      ChosenDisjoint(locs[..|locs| - 1], queryLoc, n);
      if IsTaken(e, queryLoc, End(before), n) {
        DisjointMore(before, Interval(e.location - queryLoc, e.length, e.id), n);
      }
    }
  }

  lemma NoneChosen(n: nat)
    ensures Disjoint([], n) && End([]) == 0
  {
  }

  // ----- replacing intervals -----

  /** The text up to the end of the first `k` intervals, `subs` in their place. */
  function FillTo(query: string, chosen: seq<Interval>, subs: seq<string>, k: nat): string
    requires k <= |chosen| == |subs| && Disjoint(chosen, |query|)
  {
    if k == 0 then ""
    else (FillTo(query, chosen, subs, k - 1) + query[End(chosen[..k - 1])..chosen[k - 1].off]) + subs[k - 1]
  }

  /** The query with `subs` in the place of the intervals. */
  function Fill(query: string, chosen: seq<Interval>, subs: seq<string>): string
    requires |chosen| == |subs| && Disjoint(chosen, |query|)
  {
    FillTo(query, chosen, subs, |chosen|) + query[End(chosen)..]
  }

  function Symbols(extern: nat, chosen: seq<Interval>): (s: seq<string>)
    ensures |s| == |chosen|
  {
    seq(|chosen|, i requires 0 <= i < |chosen| => Symbol(extern, chosen[i].id))
  }

  /** The tokens that were replaced. */
  function Originals(query: string, chosen: seq<Interval>): (s: seq<string>)
    requires Disjoint(chosen, |query|)
    ensures |s| == |chosen|
  {
    seq(|chosen|, i requires 0 <= i < |chosen| => query[chosen[i].off..chosen[i].off + chosen[i].len])
  }

  lemma EndOfFirst(chosen: seq<Interval>, k: nat, n: nat)
    requires Disjoint(chosen, n) && k < |chosen|
    ensures End(chosen[..k]) <= chosen[k].off && End(chosen[..k + 1]) == chosen[k].off + chosen[k].len <= n
  {
  }

  /** Putting the tokens back restores the query. */
  lemma {:induction false} FillRestores(query: string, chosen: seq<Interval>, k: nat)
    requires Disjoint(chosen, |query|) && k <= |chosen|
    ensures End(chosen[..k]) <= |query|
    ensures FillTo(query, chosen, Originals(query, chosen), k) == query[..End(chosen[..k])]
  {
    if k > 0 {
      FillRestores(query, chosen, k - 1);
      EndOfFirst(chosen, k - 1, |query|);
      FillToNext(query, chosen, k);
      Slices(query, End(chosen[..k - 1]), chosen[k - 1].off, End(chosen[..k]));
    }
  }

  lemma Slices(s: string, a: nat, b: nat, c: nat)
    requires a <= b <= c <= |s|
    ensures (s[..a] + s[a..b]) + s[b..c] == s[..c]
  {
  }

  lemma FillToNext(query: string, chosen: seq<Interval>, k: nat)
    requires Disjoint(chosen, |query|) && 0 < k <= |chosen|
    ensures var a, b, c := End(chosen[..k - 1]), chosen[k - 1].off, End(chosen[..k]);
            a <= b <= c <= |query|
            && FillTo(query, chosen, Originals(query, chosen), k)
               == (FillTo(query, chosen, Originals(query, chosen), k - 1) + query[a..b]) + query[b..c]
  {
    EndOfFirst(chosen, k - 1, |query|);
    hide End;
  }

  lemma Restores(query: string, chosen: seq<Interval>)
    requires Disjoint(chosen, |query|)
    ensures Fill(query, chosen, Originals(query, chosen)) == query
  {
    FillRestores(query, chosen, |chosen|);
    assert chosen[..|chosen|] == chosen;
    assert query[..End(chosen)] + query[End(chosen)..] == query;
  }

  // ----- the length of the result -----

  /** The characters that the first `k` intervals take up in the query, and in the result. */
  function Replaced(chosen: seq<Interval>, k: nat): nat
    requires k <= |chosen|
  {
    if k == 0 then 0 else Replaced(chosen, k - 1) + chosen[k - 1].len
  }

  function Inserted(subs: seq<string>, k: nat): nat
    requires k <= |subs|
  {
    if k == 0 then 0 else Inserted(subs, k - 1) + |subs[k - 1]|
  }

  lemma {:induction false} FillToLength(query: string, chosen: seq<Interval>, subs: seq<string>, k: nat)
    requires k <= |chosen| == |subs| && Disjoint(chosen, |query|)
    ensures End(chosen[..k]) <= |query|
    ensures |FillTo(query, chosen, subs, k)| == End(chosen[..k]) + Inserted(subs, k) - Replaced(chosen, k)
  {
    if k > 0 {
      FillToLength(query, chosen, subs, k - 1);
      EndOfFirst(chosen, k - 1, |query|);
      hide Disjoint, End;
    }
  }

  /** The length of the result, to the character. */
  lemma FillLength(query: string, chosen: seq<Interval>, subs: seq<string>)
    requires |chosen| == |subs| && Disjoint(chosen, |query|)
    ensures |Fill(query, chosen, subs)| == |query| + Inserted(subs, |subs|) - Replaced(chosen, |chosen|)
  {
    FillToLength(query, chosen, subs, |chosen|);
    assert chosen[..|chosen|] == chosen;
  }

  /** The result is no longer than the query exactly when the symbols are no longer than what they replace. */
  lemma NoLongerExactly(query: string, chosen: seq<Interval>, extern: nat)
    requires Disjoint(chosen, |query|)
    ensures |Fill(query, chosen, Symbols(extern, chosen))| <= |query|
       <==> Inserted(Symbols(extern, chosen), |chosen|) <= Replaced(chosen, |chosen|)
  {
    FillLength(query, chosen, Symbols(extern, chosen));
  }

  /** A constant of one character is shorter than its symbol. */
  lemma OneBecomesLonger()
    ensures var query, locs := "SELECT 1", [Entry(7, 1, -1)];
            var chosen := Chosen(locs, 0, |query|);
            Disjoint(chosen, |query|) && Fill(query, chosen, Symbols(0, chosen)) == "SELECT $1"
  {
    var query, locs := "SELECT 1", [Entry(7, 1, -1)];
    assert locs[..0] == [] && Chosen([], 0, |query|) == [];
    var chosen := [Interval(7, 1, -1)];
    assert Chosen(locs, 0, |query|) == chosen;
    assert chosen[..0] == [] && chosen[..1] == chosen;
    assert Symbols(0, []) == [] && Decimal(1) == "1" && Symbol(0, -1) == "$1";
    assert Symbols(0, chosen) == ["$1"];
    assert FillTo(query, chosen, ["$1"], 0) == "";
    assert FillTo(query, chosen, ["$1"], 1) == "" + query[0..7] + "$1";
    assert Fill(query, chosen, ["$1"]) == "SELECT $1";
  }

  /** Every interval gives at least one byte back for the at most eleven of its symbol. */
  lemma {:induction false} FillBound(query: string, chosen: seq<Interval>, extern: nat, k: nat)
    requires Disjoint(chosen, |query|) && k <= |chosen| && forall i :: 0 <= i < |chosen| ==> IdsFit(extern, chosen[i].id)
    ensures |FillTo(query, chosen, Symbols(extern, chosen), k)| <= End(chosen[..k]) + 10 * k
    ensures End(chosen[..k]) <= |query|
  {
    if k > 0 {
      FillBound(query, chosen, extern, k - 1);
      EndOfFirst(chosen, k - 1, |query|);
      SymbolLength(extern, chosen[k - 1].id);
      hide Symbol, End;
    } else {
      assert chosen[..0] == [];
    }
  }

  lemma {:induction false} FillToPrefix(query: string, chosen: seq<Interval>, x: Interval, extern: nat, k: nat)
    requires Disjoint(chosen + [x], |query|) && Disjoint(chosen, |query|) && k <= |chosen|
    ensures FillTo(query, chosen + [x], Symbols(extern, chosen + [x]), k) == FillTo(query, chosen, Symbols(extern, chosen), k)
  {
    hide Symbol;
    if k > 0 {
      FillToPrefix(query, chosen, x, extern, k - 1);
      assert (chosen + [x])[..k - 1] == chosen[..k - 1];
    }
  }

  // ----- the rewriting -----

  /** `memcpy` into the output. */
  method Write(out: array<char>, at: nat, s: string)
    requires at + |s| <= out.Length
    modifies out
    ensures out[..at] == old(out[..at]) && out[at..at + |s|] == s
  {
    var i := 0;
    while i < |s|
      invariant 0 <= i <= |s| && out[..at] == old(out[..at]) && out[at..at + i] == s[..i]
    {
      out[at + i] := s[i];
      i := i + 1;
    }
  }

  /** What has been written for the first `i` entries. */
  ghost predicate Rewritten(query: string, locs: seq<Entry>, queryLoc: int, extern: nat, i: nat,
                            text: string, querLoc: nat)
  {
    && i <= |locs|
    && var chosen := Chosen(locs[..i], queryLoc, |query|);
    && Disjoint(chosen, |query|) && querLoc == End(chosen) <= |query| && |chosen| <= i
    && text == FillTo(query, chosen, Symbols(extern, chosen), |chosen|)
    && |text| <= querLoc + 10 * i
  }

  lemma RewrittenStart(query: string, locs: seq<Entry>, queryLoc: int, extern: nat)
    ensures Rewritten(query, locs, queryLoc, extern, 0, "", 0)
  {
    assert locs[..0] == [];
  }

  lemma RewrittenSkip(query: string, locs: seq<Entry>, queryLoc: int, extern: nat, i: nat, text: string, querLoc: nat)
    requires Rewritten(query, locs, queryLoc, extern, i, text, querLoc) && i < |locs|
    requires !IsTaken(locs[i], queryLoc, querLoc, |query|)
    ensures Rewritten(query, locs, queryLoc, extern, i + 1, text, querLoc)
  {
    assert locs[..i + 1][..i] == locs[..i] && locs[..i + 1][i] == locs[i];
    hide FillTo, Disjoint, Symbols, End, IsTaken;
  }

  lemma RewrittenTake(query: string, locs: seq<Entry>, queryLoc: int, extern: nat, i: nat, text: string, querLoc: nat)
    requires LengthsOk(locs) && forall k :: 0 <= k < |locs| ==> IdsFit(extern, locs[k].id)
    requires Rewritten(query, locs, queryLoc, extern, i, text, querLoc) && i < |locs|
    requires IsTaken(locs[i], queryLoc, querLoc, |query|)
    ensures var off := locs[i].location - queryLoc;
            && querLoc <= off <= |query| && off + locs[i].length <= |query|
            && |text + query[querLoc..off] + Symbol(extern, locs[i].id)| <= off + locs[i].length + 10 * (i + 1)
            && Rewritten(query, locs, queryLoc, extern, i + 1, text + query[querLoc..off] + Symbol(extern, locs[i].id),
                         off + locs[i].length)
  {
    hide *;
    var before := Chosen(locs[..i], queryLoc, |query|);
    TakenIs(query, locs, queryLoc, extern, i, text, querLoc);
    var x := Interval(locs[i].location - queryLoc, locs[i].length, locs[i].id);
    DisjointMore(before, x, |query|);
    FillToPrefix(query, before, x, extern, |before|);
    SymbolLength(extern, x.id);
    FillToLast(query, before, x, extern);
    RewrittenIs(query, locs, queryLoc, extern, i + 1, before + [x], text + query[querLoc..x.off] + Symbol(extern, x.id), x.off + x.len);
  }

  /** The facts about a taken entry. */
  lemma TakenIs(query: string, locs: seq<Entry>, queryLoc: int, extern: nat, i: nat, text: string, querLoc: nat)
    requires LengthsOk(locs) && forall k :: 0 <= k < |locs| ==> IdsFit(extern, locs[k].id)
    requires Rewritten(query, locs, queryLoc, extern, i, text, querLoc) && i < |locs|
    requires IsTaken(locs[i], queryLoc, querLoc, |query|)
    ensures var before := Chosen(locs[..i], queryLoc, |query|);
            && querLoc == End(before) <= locs[i].location - queryLoc && locs[i].length >= 1
            && locs[i].location - queryLoc + locs[i].length <= |query| && Disjoint(before, |query|) && |before| <= i
            && text == FillTo(query, before, Symbols(extern, before), |before|) && |text| <= querLoc + 10 * i
            && Chosen(locs[..i + 1], queryLoc, |query|)
               == before + [Interval(locs[i].location - queryLoc, locs[i].length, locs[i].id)]
            && IdsFit(extern, locs[i].id)
  {
    hide FillTo, Disjoint, Symbols;
    assert locs[..i + 1][..i] == locs[..i] && locs[..i + 1][i] == locs[i];
  }

  lemma FillToLast(query: string, chosen: seq<Interval>, x: Interval, extern: nat)
    requires Disjoint(chosen, |query|) && Disjoint(chosen + [x], |query|)
    requires FillTo(query, chosen + [x], Symbols(extern, chosen + [x]), |chosen|) == FillTo(query, chosen, Symbols(extern, chosen), |chosen|)
    ensures End(chosen) <= x.off <= |query|
    ensures FillTo(query, chosen + [x], Symbols(extern, chosen + [x]), |chosen| + 1)
         == FillTo(query, chosen, Symbols(extern, chosen), |chosen|) + query[End(chosen)..x.off] + Symbol(extern, x.id)
  {
    assert (chosen + [x])[..|chosen|] == chosen && (chosen + [x])[|chosen|] == x;
    hide Symbol;
  }

  lemma RewrittenIs(query: string, locs: seq<Entry>, queryLoc: int, extern: nat, i: nat, chosen: seq<Interval>,
                    text: string, querLoc: nat)
    requires i <= |locs| && Chosen(locs[..i], queryLoc, |query|) == chosen && Disjoint(chosen, |query|)
    requires querLoc == End(chosen) <= |query| && |chosen| <= i && |text| <= querLoc + 10 * i
    requires text == FillTo(query, chosen, Symbols(extern, chosen), |chosen|)
    ensures Rewritten(query, locs, queryLoc, extern, i, text, querLoc)
  {
  }

  /** `generate_normalized_query` */
  method GenerateNormalizedQuery(query: string, locs: seq<Entry>, queryLoc: int, extern: nat)
    returns (norm: array<char>, length: nat)
    requires LengthsOk(locs) && forall k :: 0 <= k < |locs| ==> IdsFit(extern, locs[k].id)
    ensures var chosen := Chosen(locs, queryLoc, |query|);
            && Disjoint(chosen, |query|)
            && length < norm.Length && norm[..length] == Fill(query, chosen, Symbols(extern, chosen)) && norm[length] == '\0'
    ensures length <= |query| + 10 * |locs| == norm.Length - 1
  {
    hide *;
    norm := new char[|query| + 10 * |locs| + 1](_ => ' ');
    RewrittenStart(query, locs, queryLoc, extern);
    var querLoc: nat, nQuerLoc: nat, i := 0, 0, 0;
    assert norm[..0] == "";
    while i < |locs|
      invariant 0 <= i <= |locs| && nQuerLoc <= querLoc + 10 * i && querLoc <= |query| && nQuerLoc < norm.Length
      invariant Rewritten(query, locs, queryLoc, extern, i, norm[..nQuerLoc], querLoc)
    {
      querLoc, nQuerLoc := ReplaceNext(query, locs, queryLoc, extern, i, norm, querLoc, nQuerLoc);
      i := i + 1;
    }
    ghost var text := norm[..nQuerLoc];
    RewrittenEnd(query, locs, queryLoc, extern, text, querLoc);
    length := WriteBehind(norm, nQuerLoc, query[querLoc..], text);
  }

  /** Writes `s` and a zero byte behind `text`. */
  method WriteBehind(out: array<char>, at: nat, s: string, ghost text: string) returns (end: nat)
    requires at + |s| + 1 <= out.Length && out[..at] == text
    modifies out
    ensures end == at + |s| && out[..end] == text + s && out[end] == '\0'
  {
    Write(out, at, s);
    end := at + |s|;
    assert out[..end] == out[..at] + out[at..end];
    out[end] := '\0';
    assert out[..end] == text + s;
  }

  lemma RewrittenEnd(query: string, locs: seq<Entry>, queryLoc: int, extern: nat, text: string, querLoc: nat)
    requires Rewritten(query, locs, queryLoc, extern, |locs|, text, querLoc)
    ensures var chosen := Chosen(locs, queryLoc, |query|);
            Disjoint(chosen, |query|) && querLoc <= |query| && text + query[querLoc..] == Fill(query, chosen, Symbols(extern, chosen))
  {
    assert locs[..|locs|] == locs;
    hide Chosen, FillTo, Symbols, End;
  }

  /** The body of the loop: what precedes the constant, then the symbol in its place. */
  method ReplaceNext(query: string, locs: seq<Entry>, queryLoc: int, extern: nat, i: nat, norm: array<char>, querLoc: nat, nQuerLoc: nat)
    returns (querLoc': nat, nQuerLoc': nat)
    requires LengthsOk(locs) && forall k :: 0 <= k < |locs| ==> IdsFit(extern, locs[k].id)
    requires i < |locs| && norm.Length == |query| + 10 * |locs| + 1
    requires nQuerLoc <= querLoc + 10 * i && querLoc <= |query|
    requires Rewritten(query, locs, queryLoc, extern, i, norm[..nQuerLoc], querLoc)
    modifies norm
    ensures nQuerLoc' <= querLoc' + 10 * (i + 1) && querLoc' <= |query| && nQuerLoc' <= norm.Length
    ensures Rewritten(query, locs, queryLoc, extern, i + 1, norm[..nQuerLoc'], querLoc')
  {
    querLoc', nQuerLoc' := querLoc, nQuerLoc;
    hide Rewritten, Chosen, Symbol, LengthsOk;
    ghost var text := norm[..nQuerLoc];
    var off, tokLen := locs[i].location - queryLoc, locs[i].length;
    if tokLen < 0 || off < querLoc || off > |query| || tokLen > |query| - off {
      RewrittenSkip(query, locs, queryLoc, extern, i, text, querLoc);
      return;
    }
    RewrittenTake(query, locs, queryLoc, extern, i, text, querLoc);
    hide *;
    var chunk, symbol := query[querLoc..off], Symbol(extern, locs[i].id);
    Write(norm, nQuerLoc, chunk);
    nQuerLoc' := nQuerLoc + |chunk|;
    Joined(norm, nQuerLoc, nQuerLoc', text, chunk);
    nQuerLoc' := WriteBehind(norm, nQuerLoc', symbol, text + chunk);
    querLoc' := off + tokLen;
  }

  lemma Joined(out: array<char>, a: nat, b: nat, text: string, s: string)
    requires a <= b <= out.Length && out[..a] == text && out[a..b] == s
    ensures out[..b] == text + s
  {
    assert out[..b] == out[..a] + out[a..b];
  }

  // ----- constants at token starts -----

  /** The entries that have a length, as intervals. */
  function Kept(locs: seq<Entry>): seq<Interval>
    requires LengthsOk(locs)
  {
    if locs == [] then []
    else
      var e := locs[|locs| - 1];
      Kept(locs[..|locs| - 1]) + if e.length >= 0 then [Interval(e.location, e.length, e.id)] else []
  }

  /** Sorted entries whose lengths are those of constants at token starts. */
  ghost predicate AtConstants(query: string, tokens: seq<Token>, locs: seq<Entry>) {
    && TokensOk(query, tokens) && Sorted(locs) && Promised(query, tokens, locs)
    && forall i :: 0 <= i < |locs| ==> HasLength(query, tokens, locs, i)
  }

  lemma AtConstantsFront(query: string, tokens: seq<Token>, locs: seq<Entry>)
    requires AtConstants(query, tokens, locs) && locs != []
    ensures AtConstants(query, tokens, locs[..|locs| - 1])
  {
    var front := locs[..|locs| - 1];
    hide IsConstantStart, ConstantEnd, EndsConstant;
    forall i | 0 <= i < |front| ensures HasLength(query, tokens, front, i) {
      assert HasLength(query, tokens, locs, i);
    }
  }

  lemma AtConstantsLengths(query: string, tokens: seq<Token>, locs: seq<Entry>)
    requires AtConstants(query, tokens, locs)
    ensures LengthsOk(locs)
  {
    forall i | 0 <= i < |locs| ensures locs[i].length == -1 || locs[i].length >= 1 {
      assert HasLength(query, tokens, locs, i);
    }
  }

  /** The last entry repeats a location, or is a constant behind the one before. */
  lemma LastEntry(query: string, tokens: seq<Token>, locs: seq<Entry>)
    requires AtConstants(query, tokens, locs) && locs != []
    ensures var n, e := |locs| - 1, locs[|locs| - 1];
            && IsConstantStart(query, tokens, e.location)
            && (n > 0 ==> IsConstantStart(query, tokens, locs[n - 1].location))
            && (|| (e.length == -1 && n > 0 && locs[n - 1].location == e.location)
                || (e.length >= 1 && e.location + e.length <= ConstantEnd(query, tokens, e.location) <= |query|
                    && (n > 0 ==> ConstantEnd(query, tokens, locs[n - 1].location) <= e.location)))
  {
    var n, e := |locs| - 1, locs[|locs| - 1];
    assert HasLength(query, tokens, locs, n);
    assert IsConstantStart(query, tokens, e.location) && (n > 0 ==> IsConstantStart(query, tokens, locs[n - 1].location));
    assert n > 0 ==> locs[n - 1].location <= e.location;
    hide IsConstantStart, ConstantEnd, EndsConstant;
  }

  /** The guard never fires: every entry with a length is replaced. */
  lemma {:induction false} GuardNeverFires(query: string, tokens: seq<Token>, locs: seq<Entry>)
    requires AtConstants(query, tokens, locs)
    ensures LengthsOk(locs) && Chosen(locs, 0, |query|) == Kept(locs)
    ensures locs != [] ==> IsConstantStart(query, tokens, locs[|locs| - 1].location)
                           && End(Kept(locs)) <= ConstantEnd(query, tokens, locs[|locs| - 1].location)
  {
    AtConstantsLengths(query, tokens, locs);
    if locs != [] {
      AtConstantsFront(query, tokens, locs);
      LastEntry(query, tokens, locs);
      hide IsConstantStart, ConstantEnd, AtConstants;
      GuardNeverFires(query, tokens, locs[..|locs| - 1]);
    }
  }

  /** Every location is replaced. */
  lemma {:induction false} EachOnce(query: string, tokens: seq<Token>, locs: seq<Entry>, i: nat)
    requires AtConstants(query, tokens, locs) && i < |locs|
    ensures LengthsOk(locs) && ReplacedAt(Kept(locs), locs[i].location)
  {
    AtConstantsLengths(query, tokens, locs);
    var n := |locs| - 1;
    AtConstantsFront(query, tokens, locs);
    LastEntry(query, tokens, locs);
    hide AtConstants, IsConstantStart, ConstantEnd;
    var kept := Kept(locs);
    if locs[i].location == locs[n].location && locs[n].length >= 0 {
      assert kept[|kept| - 1].off == locs[i].location;
    } else {
      var j := if i < n then i else n - 1;
      EachOnce(query, tokens, locs[..n], j);
      var k :| 0 <= k < |Kept(locs[..n])| && Kept(locs[..n])[k].off == locs[j].location;
      assert kept[k] == Kept(locs[..n])[k];
    }
  }

  ghost predicate ReplacedAt(chosen: seq<Interval>, loc: nat) {
    exists k :: 0 <= k < |chosen| && chosen[k].off == loc
  }

  /** One interval starts there, and no other. */
  ghost predicate ReplacedOnce(chosen: seq<Interval>, loc: nat) {
    exists k :: 0 <= k < |chosen| && OnlyAt(chosen, k, loc)
  }

  ghost predicate OnlyAt(chosen: seq<Interval>, k: nat, loc: nat) {
    forall j :: 0 <= j < |chosen| ==> (chosen[j].off == loc <==> j == k)
  }

  lemma OnceOnly(chosen: seq<Interval>, n: nat, loc: nat)
    requires Disjoint(chosen, n) && ReplacedAt(chosen, loc)
    ensures ReplacedOnce(chosen, loc)
  {
    var k :| 0 <= k < |chosen| && chosen[k].off == loc;
    assert OnlyAt(chosen, k, loc);
  }

  predicate IsThat(e: Entry, queryLoc: int, x: Interval) {
    e.location - queryLoc == x.off && e.length == x.len && e.id == x.id
  }

  /** The interval is that of an entry with this location, length and id. */
  ghost predicate IsEntry(locs: seq<Entry>, queryLoc: int, x: Interval) {
    exists i :: 0 <= i < |locs| && IsThat(locs[i], queryLoc, x)
  }

  lemma {:induction false} ChosenAreEntries(locs: seq<Entry>, queryLoc: int, n: nat, k: nat)
    requires k < |Chosen(locs, queryLoc, n)|
    ensures IsEntry(locs, queryLoc, Chosen(locs, queryLoc, n)[k])
  {
    var front := locs[..|locs| - 1];
    var before := Chosen(front, queryLoc, n);
    if k < |before| {
      ChosenAreEntries(front, queryLoc, n, k);
      var i :| 0 <= i < |front| && IsThat(front[i], queryLoc, before[k]);
      assert IsThat(locs[i], queryLoc, before[k]);
    } else {
      assert IsThat(locs[|locs| - 1], queryLoc, Chosen(locs, queryLoc, n)[k]);
    }
  }

  /** Some entry was recorded at this interval's place, with its id. */
  ghost predicate WasRecorded(entries: seq<Entry>, x: Interval) {
    exists i :: 0 <= i < |entries| && entries[i].location == x.off && entries[i].id == x.id
  }

  /** The interval is the constant at its place, from its first token to its last. */
  ghost predicate IsWholeConstant(query: string, tokens: seq<Token>, x: Interval)
    requires TokensOk(query, tokens)
  {
    IsConstantStart(query, tokens, x.off) && EndsConstant(query, x.off, x.len, ConstantEnd(query, tokens, x.off))
  }

  lemma IntervalFacts(query: string, tokens: seq<Token>, entries: seq<Entry>, locs: seq<Entry>, x: Interval)
    requires TokensOk(query, tokens) && multiset(Sort(entries)) == multiset(entries) && FilledIn(query, Sort(entries), locs)
    requires IsEntry(locs, 0, x)
    ensures WasRecorded(entries, x)
    ensures AtConstants(query, tokens, locs) ==> IsWholeConstant(query, tokens, x)
  {
    var i :| 0 <= i < |locs| && IsThat(locs[i], 0, x);
    var e := Sort(entries)[i];
    assert e in multiset(Sort(entries));
    assert e in entries;
    assert AtConstants(query, tokens, locs) ==> HasLength(query, tokens, locs, i);
  }

  /**
   The whole rewriting. Every interval was recorded, with the id that is printed in its place, and
   putting the tokens back restores the query. When the locations are starts of constants, each
   of them is replaced once and as a whole, and the guard passes over repetitions only.
   */
  method Normalize(query: string, tokens: seq<Token>, entries: seq<Entry>, extern: nat)
    returns (norm: array<char>, length: nat, ghost chosen: seq<Interval>)
    requires TokensOk(query, tokens)
    requires forall i :: 0 <= i < |entries| ==> entries[i].length == -1 && IdsFit(extern, entries[i].id)
    ensures Disjoint(chosen, |query|) && length < norm.Length && length <= |query| + 10 * |entries|
    ensures norm[..length] == Fill(query, chosen, Symbols(extern, chosen))
    ensures query == Fill(query, chosen, Originals(query, chosen))
    ensures forall k :: 0 <= k < |chosen| ==> WasRecorded(entries, chosen[k])
    ensures |Sort(entries)| == |entries|
    ensures Promised(query, tokens, Sort(entries)) ==>
              && (forall i :: 0 <= i < |entries| ==> ReplacedOnce(chosen, Sort(entries)[i].location))
              && (forall k :: 0 <= k < |chosen| ==> IsWholeConstant(query, tokens, chosen[k]))
  {
    SortedAreBlank(entries);
    SortKeeps(entries);
    ghost var sorted := Sort(entries);
    forall i | 0 <= i < |sorted| ensures IdsFit(extern, sorted[i].id) {
      assert sorted[i] in multiset(sorted);
    }
    var locs := FillInConstantLengths(query, tokens, entries);
    FilledFacts(query, tokens, sorted, locs, extern);
    chosen := Chosen(locs, 0, |query|);
    hide *;
    norm, length := GenerateNormalizedQuery(query, locs, 0, extern);
    Restores(query, chosen);
    forall k | 0 <= k < |chosen|
      ensures WasRecorded(entries, chosen[k])
      ensures AtConstants(query, tokens, locs) ==> IsWholeConstant(query, tokens, chosen[k])
    {
      ChosenAreEntries(locs, 0, |query|, k);
      IntervalFacts(query, tokens, entries, locs, chosen[k]);
    }
    if Promised(query, tokens, Sort(entries)) {
      GuardNeverFires(query, tokens, locs);
      forall i | 0 <= i < |entries| ensures ReplacedOnce(chosen, Sort(entries)[i].location) {
        EachOnce(query, tokens, locs, i);
        OnceOnly(chosen, |query|, locs[i].location);
      }
    }
  }

  lemma FilledFacts(query: string, tokens: seq<Token>, sorted: seq<Entry>, locs: seq<Entry>, extern: nat)
    requires TokensOk(query, tokens) && Sorted(sorted) && FilledIn(query, sorted, locs)
    requires forall i :: 0 <= i < |sorted| ==> IdsFit(extern, sorted[i].id)
    requires Promised(query, tokens, sorted) ==> forall i :: 0 <= i < |locs| ==> HasLength(query, tokens, locs, i)
    ensures LengthsOk(locs) && |locs| == |sorted| && forall i :: 0 <= i < |locs| ==> IdsFit(extern, locs[i].id)
    ensures forall i :: 0 <= i < |locs| ==> locs[i].location == sorted[i].location
    ensures Promised(query, tokens, sorted) ==> AtConstants(query, tokens, locs)
  {
    hide IsConstantStart, ConstantEnd, HasLength;
  }
}
