/**
 Writing the laid out parts into the output string: `deparseEmit`.
 */
module DeparseEmit {
  import opened DeparseText

  function Spaces(n: int): (s: string)
    ensures forall i :: 0 <= i < |s| ==> s[i] == ' '
  {
    if n <= 0 then "" else Spaces(n - 1) + " "
  }

  /** The text right before the characters of `part`. */
  function Lead(o: Options, text: string, part: Part): string {
    var closes := part.str != "" && (part.str[0] == ')' || part.str[0] == ';');
    (if !o.prettyPrint && closes then Trim(text) else text)
    + if o.prettyPrint then Spaces(part.indent) else ""
  }

  /**
   The text after `part` and, unless it is the last one, the separator behind it. `below` is
   the byte that lies before the string, which the code looks at when the string is empty.
   */
  function Written(o: Options, text: string, part: Part, last: bool, below: char): string {
    var t := Trim(Lead(o, text, part) + part.str);
    if last then t
    else if o.prettyPrint then t + "\n"
    else if (if t == "" then below else t[|t| - 1]) != '(' then t + " "
    else t
  }

  /** The text after the first `n` parts. */
  function Emitted(o: Options, text: string, parts: seq<Part>, n: nat, below: char): string
    requires n <= |parts|
  {
    if n == 0 then text
    else Written(o, Emitted(o, text, parts, n - 1, below), parts[n - 1], n == |parts|, below)
  }

  lemma {:induction false} DenseSpaces(n: int)
    ensures Dense(Spaces(n)) == ""
    decreases if n < 0 then 0 else n
  {
    if n > 0 {
      DenseSpaces(n - 1);
      DenseChar(Spaces(n - 1), ' ');
      assert Spaces(n - 1) + [' '] == Spaces(n - 1) + " ";
    }
  }

  lemma LeadContent(o: Options, text: string, part: Part)
    ensures Dense(Lead(o, text, part)) == Dense(text)
  {
    DenseTrim(text);
    DenseSpaces(part.indent);
    OnlyLayout();
    hide Dense, Trim, Spaces;
    var t := if !o.prettyPrint && part.str != "" && (part.str[0] == ')' || part.str[0] == ';') then Trim(text) else text;
    DenseAppend(t, if o.prettyPrint then Spaces(part.indent) else "");
    assert Dense(text) + "" == Dense(text);
  }

  lemma WrittenContent(o: Options, text: string, part: Part, last: bool, below: char)
    ensures Dense(Written(o, text, part, last, below)) == Dense(text) + Dense(part.str)
  {
    hide Dense, Lead, Trim;
    var lead := Lead(o, text, part);
    var t := Trim(lead + part.str);
    LeadContent(o, text, part);
    DenseAppend(lead, part.str);
    DenseTrim(lead + part.str);
    DenseAppend(t, "\n");
    DenseAppend(t, " ");
    OnlyLayout();
    assert Dense(t) + "" == Dense(t);
  }

  /** Emitting adds the content of the parts, whatever the options are. */
  lemma {:induction false} EmittedContent(o: Options, text: string, parts: seq<Part>, n: nat, below: char)
    requires n <= |parts|
    ensures Dense(Emitted(o, text, parts, n, below)) == Dense(text) + PartsContent(parts[..n])
  {
    hide Dense, Written;
    if n == 0 {
      assert Dense(text) + "" == Dense(text) && parts[..0] == [];
    } else {
      EmittedContent(o, text, parts, n - 1, below);
      EmittedNext(o, text, parts, n, below);
    }
  }

  lemma EmittedNext(o: Options, text: string, parts: seq<Part>, n: nat, below: char)
    requires 0 < n <= |parts|
    requires Dense(Emitted(o, text, parts, n - 1, below)) == Dense(text) + PartsContent(parts[..n - 1])
    ensures Dense(Emitted(o, text, parts, n, below)) == Dense(text) + PartsContent(parts[..n])
  {
    hide *;
    WrittenContent(o, Emitted(o, text, parts, n - 1, below), parts[n - 1], n == |parts|, below);
    EmittedLast(o, text, parts, n, below);
    var x, y, z := Dense(text), PartsContent(parts[..n - 1]), Dense(parts[n - 1].str);
    assert (x + y) + z == x + (y + z);
  }

  lemma EmittedLast(o: Options, text: string, parts: seq<Part>, n: nat, below: char)
    requires 0 < n <= |parts|
    ensures Emitted(o, text, parts, n, below) == Written(o, Emitted(o, text, parts, n - 1, below), parts[n - 1], n == |parts|, below)
    ensures PartsContent(parts[..n]) == PartsContent(parts[..n - 1]) + Dense(parts[n - 1].str)
  {
    hide Written, Dense;
    assert parts[..n][..n - 1] == parts[..n - 1] && parts[..n][n - 1] == parts[n - 1];
  }

  // ----- the byte below the string -----

  /** The text after part `k`, without the separator that may follow. */
  function Unseparated(o: Options, text: string, parts: seq<Part>, k: nat, below: char): string
    requires k < |parts|
  {
    Trim(Lead(o, Emitted(o, text, parts, k, below), parts[k]) + parts[k].str)
  }

  /** Behind part `k` the code looks at the byte before the string. */
  predicate LooksBelow(o: Options, text: string, parts: seq<Part>, k: nat, below: char) {
    k + 1 < |parts| && !o.prettyPrint && Unseparated(o, text, parts, k, below) == ""
  }

  /** The first part leaves nothing in the string. */
  predicate StartsEmpty(o: Options, text: string, parts: seq<Part>) {
    |parts| > 1 && !o.prettyPrint && (text + parts[0].str == "" || text + parts[0].str == " ")
  }

  lemma FirstLeaves(o: Options, text: string, parts: seq<Part>, below: char)
    requires parts != []
    ensures LooksBelow(o, text, parts, 0, below) <==> StartsEmpty(o, text, parts)
  {
    assert !o.prettyPrint ==> Lead(o, text, parts[0]) == text || (parts[0].str != "" && parts[0].str[0] != ' ');
    assert text + "" == text;
  }

  /** Text that is there stays there. */
  lemma WrittenStays(o: Options, text: string, part: Part, last: bool, below: char)
    requires !o.prettyPrint
    requires text != "" && (text[|text| - 1] == ' ' ==> |text| > 1)
    ensures var t := Trim(Lead(o, text, part) + part.str); t != "" && Written(o, text, part, last, below) == Written(o, text, part, last, 'x')
    ensures var w := Written(o, text, part, false, below); w != "" && (w[|w| - 1] == ' ' ==> |w| > 1)
  {
    hide Lead, Trim, Written;
    LeadStays(o, text, part);
    var lead := Lead(o, text, part);
    assert lead <= lead + part.str && lead[0] == (lead + part.str)[0];
    TrimStays(lead + part.str);
    WrittenIs(o, text, part, last, below);
    WrittenIs(o, text, part, last, 'x');
    WrittenIs(o, text, part, false, below);
  }

  lemma LeadStays(o: Options, text: string, part: Part)
    requires !o.prettyPrint && text != "" && (text[|text| - 1] == ' ' ==> |text| > 1)
    ensures var l := Lead(o, text, part); l != "" && (|l + part.str| == 1 ==> (l + part.str)[0] != ' ')
  {
    assert text + "" == text;
  }

  lemma TrimStays(s: string)
    requires s != "" && (|s| == 1 ==> s[0] != ' ')
    ensures Trim(s) != ""
  {
  }

  lemma WrittenIs(o: Options, text: string, part: Part, last: bool, below: char)
    requires !o.prettyPrint && Trim(Lead(o, text, part) + part.str) != ""
    ensures var t := Trim(Lead(o, text, part) + part.str);
            Written(o, text, part, last, below) == if !last && t[|t| - 1] != '(' then t + " " else t
  {
    hide Lead, Trim;
  }

  /** Once the first part has left something, the byte is of no account. */
  lemma {:induction false} StaysWritten(o: Options, text: string, parts: seq<Part>, n: nat, below: char)
    requires !o.prettyPrint && 0 < n < |parts| && !StartsEmpty(o, text, parts)
    ensures var w := Emitted(o, text, parts, n, below);
            w != "" && (w[|w| - 1] == ' ' ==> |w| > 1) && w == Emitted(o, text, parts, n, 'x')
    ensures !LooksBelow(o, text, parts, n, below)
  {
    hide Lead, Trim, Written;
    if n == 1 {
      FirstLeaves(o, text, parts, below);
      FirstLeaves(o, text, parts, 'x');
      FirstWritten(o, text, parts, below);
      FirstWritten(o, text, parts, 'x');
    } else {
      StaysWritten(o, text, parts, n - 1, below);
      WrittenStays(o, Emitted(o, text, parts, n - 1, below), parts[n - 1], false, below);
    }
    WrittenStays(o, Emitted(o, text, parts, n, below), parts[n], false, below);
  }

  lemma FirstWritten(o: Options, text: string, parts: seq<Part>, below: char)
    requires |parts| > 1 && !o.prettyPrint && !StartsEmpty(o, text, parts)
    ensures var w := Emitted(o, text, parts, 1, below);
            w != "" && (w[|w| - 1] == ' ' ==> |w| > 1) && w == Written(o, text, parts[0], false, 'x')
  {
    FirstLeaves(o, text, parts, below);
    assert Emitted(o, text, parts, 0, below) == text;
  }

  /**
   The byte before the string is looked at exactly when the first of several parts leaves the
   string empty; otherwise the text does not depend on that byte.
   */
  lemma ByteBelow(o: Options, text: string, parts: seq<Part>, below: char)
    requires parts != []
    ensures (exists k: nat :: LooksBelow(o, text, parts, k, below)) <==> StartsEmpty(o, text, parts)
    ensures !StartsEmpty(o, text, parts) ==> Emitted(o, text, parts, |parts|, below) == Emitted(o, text, parts, |parts|, 'x')
  {
    FirstLeaves(o, text, parts, below);
    if !StartsEmpty(o, text, parts) {
      if !o.prettyPrint {
        forall k: nat ensures !LooksBelow(o, text, parts, k, below) {
          if 0 < k < |parts| {
            StaysWritten(o, text, parts, k, below);
          }
        }
      }
      EmittedAlike(o, text, parts, below);
    }
  }

  lemma EmittedAlike(o: Options, text: string, parts: seq<Part>, below: char)
    requires parts != [] && !StartsEmpty(o, text, parts)
    ensures Emitted(o, text, parts, |parts|, below) == Emitted(o, text, parts, |parts|, 'x')
  {
    hide Lead, Trim;
    var n := |parts| - 1;
    if o.prettyPrint {
      PrettyAlike(o, text, parts, n, below);
    } else if n > 0 {
      StaysWritten(o, text, parts, n, below);
    }
  }

  lemma {:induction false} PrettyAlike(o: Options, text: string, parts: seq<Part>, n: nat, below: char)
    requires o.prettyPrint && n <= |parts|
    ensures Emitted(o, text, parts, n, below) == Emitted(o, text, parts, n, 'x')
  {
    hide Lead, Trim;
    if n > 0 {
      PrettyAlike(o, text, parts, n - 1, below);
    }
  }

  // ----- parts that touch -----

  /**
   Part `n` touches the one before it without white space only behind an opening parenthesis
   or in front of a closing one or a semicolon.
   */
  predicate KeepsApart(o: Options, text: string, parts: seq<Part>, n: nat, below: char)
    requires 0 < n < |parts|
  {
    parts[n].str != "" ==>
      var lead := Lead(o, Emitted(o, text, parts, n, below), parts[n]);
      EndsOpen(lead) || parts[n].str[0] == ')' || parts[n].str[0] == ';'
      || (lead == "" && below == '(' && StartsEmpty(o, text, parts))
  }

  ghost predicate AllApart(o: Options, text: string, parts: seq<Part>, below: char) {
    forall n :: 0 < n < |parts| ==> KeepsApart(o, text, parts, n, below)
  }

  // ----- the lines of the output -----

  /** `s` cut at its newlines. */
  function Cut(s: string): (lines: seq<string>)
    ensures lines != []
  {
    if s == "" then [""]
    else
      var lines, n := Cut(s[..|s| - 1]), |s| - 1;
      if s[n] == '\n' then lines + [""] else lines[|lines| - 1 := lines[|lines| - 1] + [s[n]]]
  }

  /** The line of a part: its indentation and its text, of which a space at the end is dropped. */
  function Line(part: Part): string {
    var line := seq(if part.indent < 0 then 0 else part.indent, _ => ' ') + part.str;
    if line != "" && line[|line| - 1] == ' ' then line[..|line| - 1] else line
  }

  function Lines(parts: seq<Part>): (lines: seq<string>)
    ensures |lines| == |parts| && forall k :: 0 <= k < |parts| ==> lines[k] == Line(parts[k])
  {
    seq(|parts|, k requires 0 <= k < |parts| => Line(parts[k]))
  }

  ghost predicate OneLiners(parts: seq<Part>) {
    forall k :: 0 <= k < |parts| ==> '\n' !in parts[k].str
  }

  lemma CutNewline(s: string)
    ensures Cut(s + "\n") == Cut(s) + [""]
  {
    assert (s + "\n")[..|s|] == s;
  }

  lemma {:induction false} CutMore(s: string, t: string)
    requires '\n' !in t
    ensures var lines := Cut(s); Cut(s + t) == lines[|lines| - 1 := lines[|lines| - 1] + t]
  {
    var lines := Cut(s);
    if t == "" {
      assert s + t == s && lines[|lines| - 1] + t == lines[|lines| - 1];
    } else {
      var n := |t| - 1;
      CutMore(s, t[..n]);
      assert (s + t)[..|s + t| - 1] == s + t[..n] && (s + t)[|s + t| - 1] == t[n];
      assert lines[|lines| - 1] + t[..n] + [t[n]] == lines[|lines| - 1] + t;
    }
  }

  lemma {:induction false} SpacesAre(n: int)
    ensures Spaces(n) == seq(if n < 0 then 0 else n, _ => ' ')
    decreases if n < 0 then 0 else n
  {
    if n > 0 {
      SpacesAre(n - 1);
    }
  }

  lemma TrimBehind(text: string, line: string)
    requires text == "" || text[|text| - 1] != ' '
    ensures Trim(text + line) == text + Trim(line)
  {
    if line == "" {
      assert text + line == text;
    } else {
      assert (text + line)[|text + line| - 1] == line[|line| - 1];
      assert (text + line)[..|text + line| - 1] == text + line[..|line| - 1];
    }
  }

  lemma WrittenPretty(o: Options, text: string, part: Part, last: bool, below: char)
    requires o.prettyPrint
    ensures Written(o, text, part, last, below) == Trim(text + Spaces(part.indent) + part.str) + if last then "" else "\n"
  {
    hide Spaces, Trim;
    var t := Trim(text + Spaces(part.indent) + part.str);
    assert t + "" == t;
  }

  lemma LineIs(part: Part)
    ensures Line(part) == Trim(Spaces(part.indent) + part.str)
  {
    SpacesAre(part.indent);
  }

  /** Behind a newline, or at the start, a part is written as its line. */
  lemma PrettyPart(o: Options, text: string, part: Part, last: bool, below: char)
    requires o.prettyPrint && (text == "" || text[|text| - 1] == '\n')
    ensures Written(o, text, part, last, below) == text + Line(part) + if last then "" else "\n"
  {
    hide *;
    WrittenPretty(o, text, part, last, below);
    LineIs(part);
    TrimBehind(text, Spaces(part.indent) + part.str);
    assert text + Spaces(part.indent) + part.str == text + (Spaces(part.indent) + part.str);
  }

  ghost predicate StartsLine(text: string) {
    text == "" || text[|text| - 1] == '\n'
  }

  lemma LineStarts(s: string)
    ensures StartsLine(s + "\n")
  {
  }

  lemma NextLine(text: string, line: string)
    requires '\n' !in line
    ensures var lines := Cut(text); Cut(text + line) == lines[|lines| - 1 := lines[|lines| - 1] + line]
    ensures var lines := Cut(text); Cut(text + line + "\n") == lines[|lines| - 1 := lines[|lines| - 1] + line] + [""]
  {
    hide Cut;
    CutMore(text, line);
    CutNewline(text + line);
  }

  lemma EmittedStep(o: Options, text: string, parts: seq<Part>, n: nat, below: char)
    requires 0 < n <= |parts|
    ensures Emitted(o, text, parts, n, below) == Written(o, Emitted(o, text, parts, n - 1, below), parts[n - 1], n == |parts|, below)
  {
    hide Written;
  }

  lemma {:induction false} LinesSoFar(o: Options, parts: seq<Part>, n: nat, below: char)
    requires o.prettyPrint && n < |parts| && OneLiners(parts)
    ensures StartsLine(Emitted(o, "", parts, n, below))
    ensures Cut(Emitted(o, "", parts, n, below)) == Lines(parts[..n]) + [""]
  {
    hide Written, Line, Cut;
    if n == 0 {
      assert Cut("") == [""] by { CutNothing(); }
    } else {
      hide Emitted;
      LinesSoFar(o, parts, n - 1, below);
      NextLineIs(o, parts, n - 1, below, false);
    }
  }

  lemma CutNothing()
    ensures Cut("") == [""]
  {
  }

  /** One line more. */
  lemma NextLineIs(o: Options, parts: seq<Part>, n: nat, below: char, last: bool)
    requires o.prettyPrint && n < |parts| && OneLiners(parts) && last == (n + 1 == |parts|)
    requires StartsLine(Emitted(o, "", parts, n, below)) && Cut(Emitted(o, "", parts, n, below)) == Lines(parts[..n]) + [""]
    ensures Cut(Emitted(o, "", parts, n + 1, below)) == Lines(parts[..n + 1]) + if last then [] else [""]
    ensures !last ==> StartsLine(Emitted(o, "", parts, n + 1, below))
  {
    hide Written, Line, Cut, Emitted, Lines;
    var text, line := Emitted(o, "", parts, n, below), Line(parts[n]);
    EmittedStep(o, "", parts, n + 1, below);
    PrettyPart(o, text, parts[n], last, below);
    LineIsShort(parts[n]);
    NextLine(text, line);
    LineStarts(text + line);
    LinesNext(parts, n);
    assert text + line + "" == text + line;
    assert "" + line == line;
  }

  lemma LinesNext(parts: seq<Part>, n: nat)
    requires n < |parts|
    ensures Lines(parts[..n + 1]) == Lines(parts[..n]) + [Line(parts[n])]
  {
    hide Line;
  }

  lemma LineIsShort(part: Part)
    ensures '\n' !in part.str ==> '\n' !in Line(part)
  {
  }

  /** Pretty printed parts without newlines have a line each. */
  lemma OneLineEach(o: Options, parts: seq<Part>, below: char)
    requires o.prettyPrint && OneLiners(parts) && parts != []
    ensures Cut(Emitted(o, "", parts, |parts|, below)) == Lines(parts)
  {
    hide Written, Line, Cut, Emitted, Lines, StartsLine;
    var n := |parts| - 1;
    LinesSoFar(o, parts, n, below);
    NextLineIs(o, parts, n, below, true);
    assert parts[..n + 1] == parts;
  }

  // ----- without pretty printing -----

  lemma WrittenFlat(o: Options, text: string, part: Part, last: bool, below: char)
    requires !o.prettyPrint && '\n' !in text && '\n' !in part.str
    ensures '\n' !in Written(o, text, part, last, below)
  {
    var lead := Lead(o, text, part);
    assert '\n' !in Trim(text) && '\n' !in lead;
    assert '\n' !in lead + part.str;
    hide Lead;
  }

  /** No newline is added. */
  lemma {:induction false} NoNewline(o: Options, text: string, parts: seq<Part>, n: nat, below: char)
    requires !o.prettyPrint && n <= |parts| && '\n' !in text && OneLiners(parts)
    ensures '\n' !in Emitted(o, text, parts, n, below)
  {
    hide Written;
    if n > 0 {
      NoNewline(o, text, parts, n - 1, below);
      WrittenFlat(o, Emitted(o, text, parts, n - 1, below), parts[n - 1], n == |parts|, below);
    }
  }

  /** The first part is written without a space at its end. */
  lemma FirstPart(o: Options, part: Part, below: char)
    requires !o.prettyPrint
    ensures Emitted(o, "", [part], 1, below)
         == if part.str != "" && part.str[|part.str| - 1] == ' ' then part.str[..|part.str| - 1] else part.str
  {
    assert Emitted(o, "", [part], 0, below) == "";
    assert Lead(o, "", part) + part.str == part.str;
  }

  /**
   One part more than what has been written: a space comes first, but not behind an opening
   parenthesis and not in front of a closing one or a semicolon. An empty part changes nothing.
   */
  lemma FlatPart(o: Options, text: string, parts: seq<Part>, part: Part, below: char)
    requires !o.prettyPrint && parts != [] && Emitted(o, text, parts, |parts|, below) != ""
    ensures var before, s := Emitted(o, text, parts, |parts|, below), part.str;
            Emitted(o, text, parts + [part], |parts| + 1, below)
            == if s == "" then before
               else before + (if before[|before| - 1] == '(' || s[0] in {')', ';'} then "" else " ")
                    + if s[|s| - 1] == ' ' then s[..|s| - 1] else s
  {
    var n := |parts| - 1;
    var more := parts + [part];
    EmittedPrefix(o, text, parts, part, n, below);
    EmittedStep(o, text, parts, n + 1, below);
    EmittedStep(o, text, more, n + 1, below);
    EmittedStep(o, text, more, n + 2, below);
    assert more[n] == parts[n] && more[n + 1] == part;
    hide *;
    FlatStep(o, Emitted(o, text, parts, n, below), parts[n], part, below);
  }

  lemma {:induction false} EmittedPrefix(o: Options, text: string, parts: seq<Part>, part: Part, n: nat, below: char)
    requires n < |parts|
    ensures Emitted(o, text, parts + [part], n, below) == Emitted(o, text, parts, n, below)
  {
    hide Written;
    if n > 0 {
      EmittedPrefix(o, text, parts, part, n - 1, below);
    }
  }

  lemma FlatStep(o: Options, text: string, part: Part, next: Part, below: char)
    requires !o.prettyPrint && Written(o, text, part, true, below) != ""
    ensures var before, s := Written(o, text, part, true, below), next.str;
            Written(o, Written(o, text, part, false, below), next, true, below)
            == if s == "" then before
               else before + (if before[|before| - 1] == '(' || s[0] in {')', ';'} then "" else " ")
                    + if s[|s| - 1] == ' ' then s[..|s| - 1] else s
  {
    var t := Trim(Lead(o, text, part) + part.str);
    var open := t[|t| - 1] == '(';
    var u := if open then t else t + " ";
    assert Written(o, text, part, false, below) == u && Written(o, text, part, true, below) == t;
    var s := next.str;
    assert u + "" == u && (t + " ")[..|t|] == t;
    if s != "" {
      var lead := Lead(o, u, next);
      assert lead == if s[0] in {')', ';'} then t else u;
      assert (lead + s)[|lead + s| - 1] == s[|s| - 1] && (lead + s)[..|lead + s| - 1] == lead + s[..|s| - 1];
      assert t + "" == t;
    }
  }

  /** The output is what emitting these parts gives, on lines of their own or kept apart by spaces. */
  ghost predicate IsLaidOut(o: Options, text: string, parts: seq<Part>, below: char, out: string) {
    && out == Emitted(o, text, parts, |parts|, below) + (if o.prettyPrint && o.trailingNewline then "\n" else "")
    && AllApart(o, text, parts, below)
    && (o.prettyPrint && OneLiners(parts) && parts != [] && text == "" ==>
          Cut(out) == Lines(parts) + if o.trailingNewline then [""] else [])
    && (!o.prettyPrint && OneLiners(parts) && '\n' !in text ==> '\n' !in out)
  }

  lemma Apart(o: Options, text: string, parts: seq<Part>, n: nat, below: char)
    requires 0 < n < |parts|
    ensures KeepsApart(o, text, parts, n, below)
  {
    var before, here := Emitted(o, text, parts, n - 1, below), Emitted(o, text, parts, n, below);
    assert here == Written(o, before, parts[n - 1], false, below);
    SeparatorEnds(o, before, parts[n - 1], below);
    if !o.prettyPrint && !StartsEmpty(o, text, parts) {
      StaysWritten(o, text, parts, n, below);
    }
    hide Lead, Emitted, Trim, Written, StartsEmpty;
    LeadEnds(o, here, parts[n]);
  }

  lemma SeparatorEnds(o: Options, text: string, part: Part, below: char)
    ensures var w := Written(o, text, part, false, below); EndsOpen(w) || (w == "" && below == '(' && !o.prettyPrint)
  {
    hide Lead, Trim;
  }

  lemma LeadEnds(o: Options, text: string, part: Part)
    ensures var lead := Lead(o, text, part);
            o.prettyPrint && text != "" ==> lead != "" && (lead[|lead| - 1] == ' ' || lead == text)
    ensures !o.prettyPrint && !(part.str != "" && (part.str[0] == ')' || part.str[0] == ';')) ==> Lead(o, text, part) == text
  {
    var s := Spaces(part.indent);
    if s == "" {
      assert text + s == text;
    } else {
      assert (text + s)[|text + s| - 1] == s[|s| - 1];
    }
    assert text + "" == text;
  }

  /** `deparseEmit` over the collected parts; there is nothing to emit without any. */
  method Emit(o: Options, results: seq<Part>, text: string, below: char) returns (ok: bool, out: string, parts: seq<Part>)
    ensures ok == (results != [])
    ensures ok ==> parts == if results[|results| - 1].str == "" then results[..|results| - 1] else results
    ensures ok ==> IsLaidOut(o, text, parts, below, out)
    ensures ok ==> Dense(out) == Dense(text) + PartsContent(results) && PartsContent(parts) == PartsContent(results)
  {
    ok, out, parts := results != [], text, results;
    if !ok {
      return;
    }
    var n := |results| - 1;
    if results[n].str == "" {
      parts := results[..n];
    }
    DroppedContent(results, parts);
    hide *;
    out := EmitParts(o, parts, text, below);
    EmittedContent(o, text, parts, |parts|, below);
    assert parts[..|parts|] == parts;
    OnlyLayout();
    var end := if o.prettyPrint && o.trailingNewline then "\n" else "";
    DenseAppend(out, end);
    assert Dense(out) + "" == Dense(out);
    out := out + end;
    LaidOut(o, text, parts, below, out);
  }

  lemma PrettyOutput(o: Options, parts: seq<Part>, below: char)
    requires o.prettyPrint && OneLiners(parts) && parts != []
    ensures Cut(Emitted(o, "", parts, |parts|, below) + if o.trailingNewline then "\n" else "")
         == Lines(parts) + if o.trailingNewline then [""] else []
  {
    hide Emitted, Cut, Lines, OneLiners;
    var emitted := Emitted(o, "", parts, |parts|, below);
    OneLineEach(o, parts, below);
    CutNewline(emitted);
    assert emitted + "" == emitted && Lines(parts) + [] == Lines(parts);
  }

  lemma AreApart(o: Options, text: string, parts: seq<Part>, below: char)
    ensures AllApart(o, text, parts, below)
  {
    forall k | 0 < k < |parts| ensures KeepsApart(o, text, parts, k, below) {
      Apart(o, text, parts, k, below);
    }
    hide KeepsApart;
  }

  lemma LaidOut(o: Options, text: string, parts: seq<Part>, below: char, out: string)
    requires out == Emitted(o, text, parts, |parts|, below) + if o.prettyPrint && o.trailingNewline then "\n" else ""
    ensures IsLaidOut(o, text, parts, below, out)
  {
    hide Emitted, Cut, Lines, OneLiners, AllApart;
    AreApart(o, text, parts, below);
    if o.prettyPrint && OneLiners(parts) && parts != [] && text == "" {
      PrettyOutput(o, parts, below);
    }
    if !o.prettyPrint && OneLiners(parts) && '\n' !in text {
      NoNewline(o, text, parts, |parts|, below);
    }
  }

  /** The loop over the parts. */
  method EmitParts(o: Options, parts: seq<Part>, text: string, below: char) returns (out: string)
    ensures out == Emitted(o, text, parts, |parts|, below)
  {
    hide Written;
    out := text;
    var i := 0;
    while i < |parts|
      invariant 0 <= i <= |parts| && out == Emitted(o, text, parts, i, below)
    {
      out := WritePart(o, out, parts[i], i == |parts| - 1, below);
      i := i + 1;
    }
  }

  lemma DroppedContent(results: seq<Part>, parts: seq<Part>)
    requires results != []
    requires parts == if results[|results| - 1].str == "" then results[..|results| - 1] else results
    ensures PartsContent(parts) == PartsContent(results)
  {
    OnlyLayout();
    hide Dense;
    var n := |results| - 1;
    var x := PartsContent(results[..n]);
    assert x + "" == x;
  }

  /** The body of the loop over the parts. */
  method WritePart(o: Options, text: string, part: Part, last: bool, below: char) returns (out: string)
    ensures out == Written(o, text, part, last, below)
  {
    hide Trim;
    out := text;
    if !o.prettyPrint && part.str != "" && (part.str[0] == ')' || part.str[0] == ';') {
      out := Trim(out);
    }
    if o.prettyPrint {
      var start, i := out, 0;
      assert out + Spaces(0) == out;
      while i < part.indent
        invariant 0 <= i && (i <= part.indent || part.indent < 0 == i) && out == start + Spaces(i)
      {
        assert start + Spaces(i) + " " == start + Spaces(i + 1);
        out := out + " ";
        i := i + 1;
      }
      assert Spaces(i) == Spaces(part.indent);
    } else {
      assert out + "" == out;
    }
    out := Trim(out + part.str);
    if !last {
      if o.prettyPrint {
        out := out + "\n";
      } else if (if out == "" then below else out[|out| - 1]) != '(' {
        out := out + " ";
      }
    }
  }
}
