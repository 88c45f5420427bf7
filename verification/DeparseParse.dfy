/**
 The other way round: whatever expression is parsed, printing and parsing it again gives the same
 tree, and the prefix operators take the operands that the precedence rules give them.
 */
module DeparseParse {
  import opened Common
  import opened DeparseGrammar
  import opened DeparseExpr

  // ----- whatever is parsed -----

  /** A name of an operator, as the scanner finds it. */
  predicate IsSymbol(s: string) {
    s != "" && s != "!=" && s != "=>"
    && forall i :: 0 <= i < |s| ==>
         s[i] in {'~', '!', '@', '#', '^', '&', '|', '`', '?', '+', '-', '*', '/', '%', '<', '>', '='}
  }

  ghost predicate IsScanned(ts: seq<Token>) {
    forall i :: 0 <= i < |ts| && ts[i].TSym? ==> IsSymbol(ts[i].s)
  }

  lemma SymbolsAreOps(s: string)
    ensures IsSymbol(s) <==> OpOk(Plain(s))
  {
    forall i | 0 <= i < |s|
      ensures s[i] in OP_CHARS <==>
              s[i] in {'~', '!', '@', '#', '^', '&', '|', '`', '?', '+', '-', '*', '/', '%', '<', '>', '='}
    {
      CharsAreOps(s[i]);
    }
  }

  lemma CharsAreOps(c: char)
    ensures c in OP_CHARS <==> c in {'~', '!', '@', '#', '^', '&', '|', '`', '?', '+', '-', '*', '/', '%', '<', '>', '='}
  {
    var s := OP_CHARS;
    assert s[0] == '~' && s[1] == '!' && s[2] == '@' && s[3] == '#' && s[4] == '^' && s[5] == '&' && s[6] == '|' && s[7] == '`';
    assert s[8] == '?' && s[9] == '+' && s[10] == '-' && s[11] == '*' && s[12] == '/' && s[13] == '%' && s[14] == '<';
    assert s[15] == '>' && s[16] == '=' && |s| == 17;
  }

  /** A derivation of a tree of the fragment. */
  predicate IsDerived(d: Derivation) {
    match d
    case Leaf(e) => e.Column? || e.Param? || (e.Const? && e.n >= 0)
    case Group(i) => IsDerived(i)
    case Sign(op, a) => OpOk(op) && PrefixOk(op) && IsDerived(a)
    case Binary(op, l, r) => OpOk(op) && IsDerived(l) && IsDerived(r)
    case Junction(b, l, r) => b != NOT && IsDerived(l) && IsDerived(r)
    case Negation(a) => IsDerived(a)
    case Tested(a, _) => IsDerived(a)
  }

  lemma ReadOk(ts: seq<Token>)
    requires IsScanned(ts) && ReadOp(ts).Some?
    ensures OpOk(ReadOp(ts).value.0)
  {
    if ts[0].TSym? {
      SymbolsAreOps(ts[0].s);
    } else {
      SymbolsAreOps(ts[4].s);
    }
  }

  lemma Scanned(ts: seq<Token>, n: nat)
    requires IsScanned(ts) && n <= |ts|
    ensures IsScanned(ts[n..])
  {
    forall i | 0 <= i < |ts[n..]| && ts[n..][i].TSym? ensures IsSymbol(ts[n..][i].s) {
      assert ts[n..][i] == ts[n + i];
    }
  }

  lemma {:induction false} ParsedIsDerived(ts: seq<Token>, min: nat)
    requires IsScanned(ts) && Parse(ts, min).Some?
    ensures IsDerived(Parse(ts, min).value.0) && IsScanned(Parse(ts, min).value.1)
    decreases |ts|, 1
  {
    hide IsScanned, OpOk, PrefixOk, ReadOp, NextLevel;
    Scanned(ts, 1);
    if ts[0].TName? {
      ContinuedIsDerived(Leaf(Column(ts[0].s)), ts[1..], min);
    } else if ts[0].TParam? {
      ContinuedIsDerived(Leaf(Param(ts[0].n)), ts[1..], min);
    } else if ts[0].TNumber? {
      ContinuedIsDerived(Leaf(Const(ts[0].n)), ts[1..], min);
    } else if ts[0] == TLeft {
      ParsedIsDerived(ts[1..], 0);
      var (d, rest) := Parse(ts[1..], 0).value;
      Scanned(rest, 1);
      ContinuedIsDerived(Group(d), rest[1..], min);
    } else if ts[0] == TNot {
      ParsedIsDerived(ts[1..], NOT_LEVEL);
      var (d, rest) := Parse(ts[1..], NOT_LEVEL).value;
      ContinuedIsDerived(Negation(d), rest, min);
    } else {
      var (op, used) := ReadOp(ts).value;
      ReadOk(ts);
      Scanned(ts, used);
      ParsedIsDerived(ts[used..], OperandLevel(op));
      var (d, rest) := Parse(ts[used..], OperandLevel(op)).value;
      ContinuedIsDerived(Sign(op, d), rest, min);
    }
  }

  lemma {:induction false} ContinuedIsDerived(left: Derivation, ts: seq<Token>, min: nat)
    requires IsScanned(ts) && IsDerived(left) && Continue(left, ts, min).Some?
    ensures IsDerived(Continue(left, ts, min).value.0) && IsScanned(Continue(left, ts, min).value.1)
    decreases |ts|, 0
  {
    hide IsScanned, OpOk, PrefixOk, Parse, ReadTest, Level;
    var level := NextLevel(ts);
    if level != 0 && level >= min {
      Scanned(ts, 1);
      if level == OR_LEVEL || level == AND_LEVEL {
        ParsedIsDerived(ts[1..], level + 1);
        var (d, rest) := Parse(ts[1..], level + 1).value;
        ContinuedIsDerived(Junction(if level == OR_LEVEL then OR else AND, left, d), rest, min);
      } else if level == IS_LEVEL {
        var (kind, used) := ReadTest(ts).value;
        Scanned(ts, used);
        ContinuedIsDerived(Tested(left, kind), ts[used..], min);
      } else {
        var (op, used) := ReadOp(ts).value;
        ReadOk(ts);
        Scanned(ts, used);
        ParsedIsDerived(ts[used..], level + 1);
        var (d, rest) := Parse(ts[used..], level + 1).value;
        ContinuedIsDerived(Binary(op, left, d), rest, min);
      }
    }
  }

  lemma {:induction false} ReferenceIsWf(d: Derivation)
    requires IsDerived(d)
    ensures Wf(Reference(d)) && (d.Junction? ==> Reference(d).Bool? && Reference(d).boolop == d.boolop && |Reference(d).args| >= 2)
  {
    match d {
      case Leaf(_) =>
      case Group(i) => ReferenceIsWf(i);
      case Sign(_, a) => ReferenceIsWf(a);
      case Binary(_, l, r) =>
        ReferenceIsWf(l);
        ReferenceIsWf(r);
      case Junction(_, l, r) =>
        ReferenceIsWf(l);
        ReferenceIsWf(r);
      case Negation(a) => ReferenceIsWf(a);
      case Tested(a, _) => ReferenceIsWf(a);
    }
  }

  /** Parsing, printing and parsing again gives the same tree, whatever tokens were parsed. */
  lemma ParsePrintParse(ts: seq<Token>)
    requires IsScanned(ts) && ParseAll(ts).Some?
    ensures var e := Reference(ParseAll(ts).value);
            && Wf(e) && ParseAll(Print(e)).Some? && Reference(ParseAll(Print(e)).value) == e
  {
    ParsedIsDerived(ts, 0);
    ReferenceIsWf(ParseAll(ts).value);
    hide *;
    PrintThenParse(Reference(ParseAll(ts).value));
  }

  // ----- what prefix operators take -----

  lemma PrefixFacts(p: string)
    requires p in ["+", "-"] || Level(Plain(p)) == Level(Plain("||"))
    ensures PrefixOk(Plain(p))
    ensures if p in ["+", "-"] then forall q: string :: Level(Plain(q)) < OperandLevel(Plain(p))
            else OperandLevel(Plain(p)) == Level(Plain("||")) + 1
  {
  }

  lemma ReadPrefix(p: string, tail: seq<Token>, min: nat)
    requires PrefixOk(Plain(p))
    ensures Parse([TSym(p)] + tail, min)
         == match Parse(tail, OperandLevel(Plain(p)))
            case None => None
            case Some((d, rest)) => Continue(Sign(Plain(p), d), rest, min)
  {
    ReadOperator(Leaf(Column("")), p, tail);
    hide Continue, PrefixOk, OperandLevel, ReadOp;
  }

  /** A sign takes the next operand alone, any other prefix operator also what binds tighter than `||`. */
  lemma PrefixTakes(p: string, a: string, q: string, b: string)
    requires p in ["+", "-"] || Level(Plain(p)) == Level(Plain("||"))
    ensures ParseAll([TSym(p), TName(a), TSym(q), TName(b)])
         == var (x, y) := (Leaf(Column(a)), Leaf(Column(b)));
            if p in ["+", "-"] || Level(Plain(q)) <= Level(Plain("||")) then Some(Binary(Plain(q), Sign(Plain(p), x), y))
            else Some(Sign(Plain(p), Binary(Plain(q), x, y)))
  {
    hide *;
    var x, y, behind := Leaf(Column(a)), Leaf(Column(b)), [TSym(q), TName(b)];
    PrefixFacts(p);
    var min := OperandLevel(Plain(p));
    assert p in ["+", "-"] ==> Level(Plain(q)) < min;
    ReadAtom(a, behind, min);
    OneOperator(x, q, b, min);
    ReadPrefix(p, [TName(a)] + behind, 0);
    OneOperator(Sign(Plain(p), x), q, b, 0);
    NoMore(Sign(Plain(p), Binary(Plain(q), x, y)));
    assert [TSym(p)] + ([TName(a)] + behind) == [TSym(p), TName(a), TSym(q), TName(b)];
    AllOf([TSym(p), TName(a), TSym(q), TName(b)]);
  }

  lemma ReadNegation(tail: seq<Token>, min: nat)
    ensures Parse([TNot] + tail, min)
         == match Parse(tail, NOT_LEVEL)
            case None => None
            case Some((d, rest)) => Continue(Negation(d), rest, min)
  {
    assert ([TNot] + tail)[1..] == tail;
    hide Continue;
  }

  lemma OneKeyword(left: Derivation, b: BoolOp, c: string, min: nat)
    requires b != NOT
    ensures var ts := [BoolToken(b), TName(c)];
            Continue(left, ts, min)
            == if NextLevel([BoolToken(b)]) < min then Some((left, ts)) else Some((Junction(b, left, Leaf(Column(c))), []))
  {
    KeywordLevel(b, [TName(c)]);
    KeywordLevel(b, []);
    assert [BoolToken(b)] + [TName(c)] == [BoolToken(b), TName(c)] && [BoolToken(b)] + [] == [BoolToken(b)];
    ReadLast(c, (if b.AND? then AND_LEVEL else OR_LEVEL) + 1);
    assert NextLevel([]) == 0;
    hide BoolToken, ReadOp, NextLevel;
  }

  /** NOT takes operators, but neither AND nor OR; AND binds tighter than OR. */
  lemma NotTakes(a: string, q: string, b: BoolOp, c: string)
    requires b != NOT
    ensures ParseAll([TNot, TName(a), TSym(q), TName(c)]) == Some(Negation(Binary(Plain(q), Leaf(Column(a)), Leaf(Column(c)))))
    ensures ParseAll([TNot, TName(a), BoolToken(b), TName(c)]) == Some(Junction(b, Negation(Leaf(Column(a))), Leaf(Column(c))))
  {
    hide *;
    var x, y := Leaf(Column(a)), Leaf(Column(c));
    NotFacts(b, q);
    ReadAtom(a, [TSym(q), TName(c)], NOT_LEVEL);
    OneOperator(x, q, c, NOT_LEVEL);
    ReadNegation([TName(a)] + [TSym(q), TName(c)], 0);
    NoMore(Negation(Binary(Plain(q), x, y)));
    assert [TNot] + ([TName(a)] + [TSym(q), TName(c)]) == [TNot, TName(a), TSym(q), TName(c)];
    AllOf([TNot, TName(a), TSym(q), TName(c)]);
    ReadAtom(a, [BoolToken(b), TName(c)], NOT_LEVEL);
    OneKeyword(x, b, c, NOT_LEVEL);
    ReadNegation([TName(a)] + [BoolToken(b), TName(c)], 0);
    OneKeyword(Negation(x), b, c, 0);
    assert [TNot] + ([TName(a)] + [BoolToken(b), TName(c)]) == [TNot, TName(a), BoolToken(b), TName(c)];
    AllOf([TNot, TName(a), BoolToken(b), TName(c)]);
  }

  lemma NotFacts(b: BoolOp, q: string)
    requires b != NOT
    ensures NextLevel([BoolToken(b)]) < NOT_LEVEL <= Level(Plain(q)) && 0 <= NOT_LEVEL
  {
  }
}
