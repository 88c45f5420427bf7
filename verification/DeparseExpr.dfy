/**
 The expression deparser and its parentheses: `needsParensAsBExpr`, `deparseAExpr` for
 AEXPR_OP, `deparseBoolExpr` and `deparseBooleanTest`. Whatever tree of the fragment is
 printed, the reference parser gets exactly that tree back.
 */
module DeparseExpr {
  import opened Common
  import opened DeparseGrammar

  // ----- what is printed -----

  /** `needsParensAsBExpr`: the node is handled by the "a_expr" rule. */
  predicate NeedsParensAsBExpr(e: Expr) {
    e.Bool? || e.Test? || e.Prefix? || e.Infix?
  }

  /** An AND or OR node inside a boolean expression. */
  predicate NeedsParensInBool(e: Expr) {
    e.Bool? && e.boolop != NOT
  }

  function OpTokens(op: Operator): seq<Token> {
    match op
    case Plain(s) => [TSym(s)]
    case Qualified(schema, s) => [TOperator, TLeft, TName(schema), TDot, TSym(s), TRight]
  }

  function TestTokens(k: TestKind): seq<Token> {
    [TIs] + (if k.negated then [TNot] else [])
    + [match k.truth case TRUE => TTrue case FALSE => TFalse case UNKNOWN => TUnknown]
  }

  function BoolToken(b: BoolOp): Token {
    match b case AND => TAnd case OR => TOr case NOT => TNot
  }

  /** The printed expression, in parentheses when asked for. */
  function InParens(parens: bool, s: seq<Token>): seq<Token> {
    if parens then [TLeft] + s + [TRight] else s
  }

  /** The tokens printed for an expression. */
  function Print(e: Expr): seq<Token>
    decreases e, 0
  {
    match e
    case Column(s) => [TName(s)]
    case Param(n) => [TParam(n)]
    case Const(n) => if n < 0 then [TSym("-"), TNumber(-n)] else [TNumber(n)]
    case Prefix(op, arg) => OpTokens(op) + InParens(NeedsParensAsBExpr(arg), Print(arg))
    case Infix(op, l, r) =>
      InParens(NeedsParensAsBExpr(l), Print(l)) + OpTokens(op) + InParens(NeedsParensAsBExpr(r), Print(r))
    case Bool(b, args) =>
      if b.NOT? then [TNot] + (if args == [] then [] else PrintArg(args[0])) else PrintArgs(b, args)
    case Test(t, k) => InParens(t.Bool?, Print(t)) + TestTokens(k)
  }

  function PrintArg(e: Expr): seq<Token>
    decreases e, 1
  {
    InParens(NeedsParensInBool(e), Print(e))
  }

  /** The arguments of an AND or OR with the keyword between them. */
  function PrintArgs(b: BoolOp, args: seq<Expr>): seq<Token>
    decreases args, 2
  {
    if args == [] then []
    else if |args| == 1 then PrintArg(args[0])
    else PrintArgs(b, args[..|args| - 1]) + [BoolToken(b)] + PrintArg(args[|args| - 1])
  }

  // ----- the derivation of what is printed -----

  function Grouped(parens: bool, d: Derivation): Derivation {
    if parens then Group(d) else d
  }

  /** The derivation that the precedence rules should find in the printed tokens. */
  function Derive(e: Expr): Derivation
    decreases e, 0
  {
    match e
    case Column(_) => Leaf(e)
    case Param(_) => Leaf(e)
    case Const(_) => Leaf(e)
    case Prefix(op, arg) => Sign(op, Grouped(NeedsParensAsBExpr(arg), Derive(arg)))
    case Infix(op, l, r) =>
      Binary(op, Grouped(NeedsParensAsBExpr(l), Derive(l)), Grouped(NeedsParensAsBExpr(r), Derive(r)))
    case Bool(b, args) =>
      if args == [] then Leaf(e) else if b.NOT? then Negation(DeriveArg(args[0])) else DeriveArgs(b, args)
    case Test(t, k) => Tested(Grouped(t.Bool?, Derive(t)), k)
  }

  function DeriveArg(e: Expr): Derivation
    decreases e, 1
  {
    Grouped(NeedsParensInBool(e), Derive(e))
  }

  function DeriveArgs(b: BoolOp, args: seq<Expr>): Derivation
    requires args != []
    decreases args, 2
  {
    if |args| == 1 then DeriveArg(args[0])
    else Junction(b, DeriveArgs(b, args[..|args| - 1]), DeriveArg(args[|args| - 1]))
  }

  // ----- the parser finds it -----

  /** The level of the outermost construct of a printed expression. */
  function Outer(e: Expr): nat {
    match e
    case Prefix(op, _) => PrefixLevel(op)
    case Infix(op, _, _) => Level(op)
    case Bool(b, _) => (match b case AND => AND_LEVEL case OR => OR_LEVEL case NOT => NOT_LEVEL)
    case Test(_, _) => IS_LEVEL
    case _ => ATOM_LEVEL
  }

  /** What follows must continue below this level, or it would be drawn into the expression. */
  function Bound(e: Expr): nat {
    match e
    case Infix(op, _, _) => if Level(op) == COMPARISON_LEVEL then COMPARISON_LEVEL else Level(op) + 1
    case Prefix(op, _) => OperandLevel(op)
    case Bool(b, _) => (match b case AND => AND_LEVEL + 1 case OR => OR_LEVEL + 1 case NOT => NOT_LEVEL)
    case _ => ATOM_LEVEL
  }

  lemma ReadOpTokens(op: Operator, rest: seq<Token>)
    ensures ReadOp(OpTokens(op) + rest) == Some((op, |OpTokens(op)|))
    ensures (OpTokens(op) + rest)[|OpTokens(op)|..] == rest
    ensures NextLevel(OpTokens(op) + rest) == Level(op)
  {
    var ts := OpTokens(op) + rest;
    if op.Qualified? {
      assert ts[..6] == OpTokens(op);
    } else {
      assert ts[0] == TSym(op.sym);
    }
  }

  lemma ReadTestTokens(k: TestKind, rest: seq<Token>)
    ensures ReadTest(TestTokens(k) + rest) == Some((k, |TestTokens(k)|))
    ensures (TestTokens(k) + rest)[|TestTokens(k)|..] == rest
    ensures NextLevel(TestTokens(k) + rest) == IS_LEVEL
  {
    var ts := TestTokens(k) + rest;
    assert ts[0] == TIs;
    if k.negated {
      assert ts[1] == TNot && ts[..3] == TestTokens(k);
    } else {
      assert ts[..2] == TestTokens(k);
    }
  }

  /** Nothing to take in: the parse stops. */
  lemma Stops(d: Derivation, rest: seq<Token>, min: nat)
    requires NextLevel(rest) < min || NextLevel(rest) == 0
    ensures Continue(d, rest, min) == Some((d, rest))
  {
  }

  lemma AfterTest(d: Derivation, k: TestKind, rest: seq<Token>, min: nat)
    requires min <= IS_LEVEL
    ensures Continue(d, TestTokens(k) + rest, min) == Continue(Tested(d, k), rest, min)
  {
    ReadTestTokens(k, rest);
    hide TestTokens, ReadTest, NextLevel;
  }

  lemma ParseParen(ts: seq<Token>, min: nat)
    requires ts != [] && ts[0] == TLeft
    ensures Parse(ts, min) == match Parse(ts[1..], 0)
                              case None => None
                              case Some((d, rest)) =>
                                if rest == [] || rest[0] != TRight then None else Continue(Group(d), rest[1..], min)
  {
    hide Continue, ReadOp, NextLevel, PrefixOk, OperandLevel, Level;
  }

  lemma ReadGroup(s: seq<Token>, d: Derivation, rest: seq<Token>, min: nat)
    requires Parse(s + ([TRight] + rest), 0) == Some((d, [TRight] + rest))
    ensures Parse(InParens(true, s) + rest, min) == Continue(Group(d), rest, min)
  {
    hide Parse, Continue;
    var ts, close := InParens(true, s) + rest, [TRight] + rest;
    assert ts[1..] == s + close && close[1..] == rest;
    assert ts[0] == TLeft && close[0] == TRight;
    ParseParen(ts, min);
  }

  lemma ReadSign(op: Operator, tail: seq<Token>, d: Derivation, rest: seq<Token>, min: nat)
    requires PrefixOk(op) && Parse(tail, OperandLevel(op)) == Some((d, rest))
    ensures Parse(OpTokens(op) + tail, min) == Continue(Sign(op, d), rest, min)
  {
    ReadOpTokens(op, tail);
    var ts := OpTokens(op) + tail;
    assert ts[0] == if op.Plain? then TSym(op.sym) else TOperator;
    hide Continue, ReadOp, OpTokens, PrefixOk, OperandLevel, NextLevel, InParens;
  }

  lemma ReadNot(tail: seq<Token>, d: Derivation, rest: seq<Token>, min: nat)
    requires Parse(tail, NOT_LEVEL) == Some((d, rest))
    ensures Parse([TNot] + tail, min) == Continue(Negation(d), rest, min)
  {
    assert ([TNot] + tail)[1..] == tail;
    hide Continue, ReadOp;
  }

  /** A parenthesised expression is read as one atom. */
  lemma ParseGroup(e: Expr, rest: seq<Token>, min: nat)
    requires Wf(e)
    ensures Parse(InParens(true, Print(e)) + rest, min) == Continue(Group(Derive(e)), rest, min)
    decreases e, 10
  {
    assert NextLevel([TRight] + rest) == 0 && Bound(e) > 0;
    hide Parse, Continue, Print, Derive, Wf, Bound, NextLevel, Outer;
    ParsePrinted(e, [TRight] + rest, 0);
    Stops(Derive(e), [TRight] + rest, 0);
    ReadGroup(Print(e), Derive(e), rest, min);
  }

  /** An operand, in parentheses or not. */
  lemma ParseOperand(e: Expr, parens: bool, rest: seq<Token>, min: nat)
    requires Wf(e) && (!parens ==> min <= Outer(e) && NextLevel(rest) < Bound(e))
    ensures Parse(InParens(parens, Print(e)) + rest, min) == Continue(Grouped(parens, Derive(e)), rest, min)
    decreases e, 11
  {
    if parens {
      ParseGroup(e, rest, min);
    } else {
      ParsePrinted(e, rest, min);
    }
  }

  /** An operand without parentheses binds tightly enough on both sides. */
  lemma PrefixOperand(e: Expr, rest: seq<Token>)
    requires e.Prefix? && Wf(e) && NextLevel(rest) < Bound(e)
    ensures !NeedsParensAsBExpr(e.arg) ==> OperandLevel(e.op) <= Outer(e.arg) && NextLevel(rest) < Bound(e.arg)
  {
    hide NextLevel;
  }

  lemma ParsePrefix(e: Expr, rest: seq<Token>, min: nat)
    requires e.Prefix? && Wf(e) && min <= Outer(e) && NextLevel(rest) < Bound(e)
    ensures Parse(Print(e) + rest, min) == Continue(Derive(e), rest, min)
    decreases e, 8
  {
    var op, parens := e.op, NeedsParensAsBExpr(e.arg);
    var s := InParens(parens, Print(e.arg));
    PrefixOperand(e, rest);
    hide Parse, Continue, NextLevel, InParens, OpTokens, NeedsParensAsBExpr, Outer, Bound, OperandLevel;
    assert Print(e) + rest == OpTokens(op) + (s + rest);
    ParseOperand(e.arg, parens, rest, OperandLevel(op));
    Stops(Grouped(parens, Derive(e.arg)), rest, OperandLevel(op));
    ReadSign(op, s + rest, Grouped(parens, Derive(e.arg)), rest, min);
  }

  lemma AfterOp(l: Derivation, op: Operator, tail: seq<Token>, r: Derivation, rest: seq<Token>, min: nat)
    requires min <= Level(op) && Parse(tail, Level(op) + 1) == Some((r, rest))
    requires Level(op) == COMPARISON_LEVEL ==> NextLevel(rest) != COMPARISON_LEVEL
    ensures Continue(l, OpTokens(op) + tail, min) == Continue(Binary(op, l, r), rest, min)
  {
    ReadOpTokens(op, tail);
    hide ReadOp, NextLevel, OpTokens;
  }

  lemma OperandFacts(e: Expr, rest: seq<Token>, min: nat)
    requires e.Infix? && Wf(e) && min <= Outer(e) && NextLevel(rest) < Bound(e)
    ensures Wf(e.left) && !NeedsParensAsBExpr(e.left) ==> min <= Outer(e.left) && Level(e.op) < Bound(e.left)
    ensures Wf(e.right) && !NeedsParensAsBExpr(e.right) ==> Level(e.op) + 1 <= Outer(e.right) && NextLevel(rest) < Bound(e.right)
    ensures Wf(e.left) && Wf(e.right) && min <= Level(e.op) && NextLevel(rest) < Level(e.op) + 1
    ensures Level(e.op) == COMPARISON_LEVEL ==> NextLevel(rest) != COMPARISON_LEVEL
  {
  }

  lemma ParseInfix(e: Expr, rest: seq<Token>, min: nat)
    requires e.Infix? && Wf(e) && min <= Outer(e) && NextLevel(rest) < Bound(e)
    ensures Parse(Print(e) + rest, min) == Continue(Derive(e), rest, min)
    decreases e, 8
  {
    hide *;
    var pl, pr, level := NeedsParensAsBExpr(e.left), NeedsParensAsBExpr(e.right), Level(e.op);
    var tail := InParens(pr, Print(e.right)) + rest;
    OperandFacts(e, rest, min);
    InfixTokens(e, rest);
    ReadOpTokens(e.op, tail);
    ParseOperand(e.left, pl, OpTokens(e.op) + tail, min);
    ParseOperand(e.right, pr, rest, level + 1);
    var dl, dr := Grouped(pl, Derive(e.left)), Grouped(pr, Derive(e.right));
    Stops(dr, rest, level + 1);
    AfterOp(dl, e.op, tail, dr, rest, min);
    DeriveInfix(e);
  }

  lemma DeriveInfix(e: Expr)
    requires e.Infix?
    ensures Derive(e) == Binary(e.op, Grouped(NeedsParensAsBExpr(e.left), Derive(e.left)),
                                Grouped(NeedsParensAsBExpr(e.right), Derive(e.right)))
  {
  }

  lemma InfixTokens(e: Expr, rest: seq<Token>)
    requires e.Infix?
    ensures Print(e) + rest == InParens(NeedsParensAsBExpr(e.left), Print(e.left))
                             + (OpTokens(e.op) + (InParens(NeedsParensAsBExpr(e.right), Print(e.right)) + rest))
  {
    hide InParens, OpTokens;
  }

  lemma ParseNot(e: Expr, rest: seq<Token>, min: nat)
    requires e.Bool? && e.boolop.NOT? && Wf(e) && min <= Outer(e) && NextLevel(rest) < Bound(e)
    ensures Parse(Print(e) + rest, min) == Continue(Derive(e), rest, min)
    decreases e, 8
  {
    var a := e.args[0];
    assert !NeedsParensInBool(a) ==> NOT_LEVEL <= Outer(a) && NextLevel(rest) < Bound(a);
    hide Parse, Continue, NextLevel, InParens;
    assert Print(e) + rest == [TNot] + (PrintArg(a) + rest);
    ParseOperand(a, NeedsParensInBool(a), rest, NOT_LEVEL);
    Stops(DeriveArg(a), rest, NOT_LEVEL);
    ReadNot(PrintArg(a) + rest, DeriveArg(a), rest, min);
  }

  lemma AfterKeyword(l: Derivation, b: BoolOp, tail: seq<Token>, r: Derivation, rest: seq<Token>, min: nat)
    requires !b.NOT?
    requires var level := if b.AND? then AND_LEVEL else OR_LEVEL;
             min <= level && Parse(tail, level + 1) == Some((r, rest))
    ensures Continue(l, [BoolToken(b)] + tail, min) == Continue(Junction(b, l, r), rest, min)
  {
    hide Parse, ReadOp, ReadTest, NextLevel;
    KeywordLevel(b, tail);
  }

  lemma KeywordLevel(b: BoolOp, tail: seq<Token>)
    requires !b.NOT?
    ensures ([BoolToken(b)] + tail)[1..] == tail
    ensures NextLevel([BoolToken(b)] + tail) == if b.AND? then AND_LEVEL else OR_LEVEL
  {
  }

  lemma ArgsTokens(b: BoolOp, args: seq<Expr>, rest: seq<Token>)
    requires |args| > 1
    ensures var n := |args| - 1;
            PrintArgs(b, args) + rest == PrintArgs(b, args[..n]) + ([BoolToken(b)] + (PrintArg(args[n]) + rest))
  {
    hide PrintArg, BoolToken;
  }

  /** One more argument behind those already read. */
  lemma JoinArg(b: BoolOp, args: seq<Expr>, rest: seq<Token>, min: nat)
    requires !b.NOT? && |args| > 1
    requires var n, level := |args| - 1, if b.AND? then AND_LEVEL else OR_LEVEL;
             var tail := PrintArg(args[n]) + rest;
             && min <= level && Parse(tail, level + 1) == Some((DeriveArg(args[n]), rest))
             && Parse(PrintArgs(b, args[..n]) + ([BoolToken(b)] + tail), min)
                == Continue(DeriveArgs(b, args[..n]), [BoolToken(b)] + tail, min)
    ensures Parse(PrintArgs(b, args) + rest, min) == Continue(DeriveArgs(b, args), rest, min)
  {
    hide Parse, Continue, PrintArg, PrintArgs, DeriveArg;
    var n := |args| - 1;
    ArgsTokens(b, args, rest);
    AfterKeyword(DeriveArgs(b, args[..n]), b, PrintArg(args[n]) + rest, DeriveArg(args[n]), rest, min);
  }

  /** An argument, read at a level that takes in no AND or OR. */
  lemma ParseArg(e: Expr, rest: seq<Token>, min: nat)
    requires Wf(e) && min <= NOT_LEVEL && NextLevel(rest) < NOT_LEVEL
    ensures Parse(PrintArg(e) + rest, min) == Continue(DeriveArg(e), rest, min)
    decreases e, 12
  {
    assert !NeedsParensInBool(e) ==> NOT_LEVEL <= Outer(e) && NOT_LEVEL <= Bound(e);
    hide Parse, Continue, InParens, Print, Derive, Wf;
    ParseOperand(e, NeedsParensInBool(e), rest, min);
  }

  lemma ArgsFacts(e: Expr, n: nat, rest: seq<Token>, min: nat)
    requires e.Bool? && !e.boolop.NOT? && Wf(e) && 0 < n <= |e.args|
    requires min <= Outer(e) && NextLevel(rest) < Bound(e)
    ensures Wf(e.args[n - 1]) && Outer(e) == (if e.boolop.AND? then AND_LEVEL else OR_LEVEL)
    ensures min <= Outer(e) < NOT_LEVEL && NextLevel(rest) < Outer(e) + 1 == Bound(e)
    ensures NextLevel([BoolToken(e.boolop)] + (PrintArg(e.args[n - 1]) + rest)) == Outer(e)
  {
    hide PrintArg;
  }

  lemma OneArg(b: BoolOp, a: Expr, args: seq<Expr>)
    requires args == [a]
    ensures PrintArgs(b, args) == PrintArg(a) && DeriveArgs(b, args) == DeriveArg(a)
  {
    hide PrintArg, DeriveArg;
  }

  /** The first `n` arguments of an AND or OR. */
  lemma {:induction false} ParseArgs(e: Expr, n: nat, rest: seq<Token>, min: nat)
    requires e.Bool? && !e.boolop.NOT? && Wf(e) && 0 < n <= |e.args|
    requires min <= Outer(e) && NextLevel(rest) < Bound(e)
    ensures Parse(PrintArgs(e.boolop, e.args[..n]) + rest, min) == Continue(DeriveArgs(e.boolop, e.args[..n]), rest, min)
    decreases e, 8, n
  {
    hide *;
    var b, some, level, a := e.boolop, e.args[..n], Outer(e), e.args[n - 1];
    ArgsFacts(e, n, rest, min);
    if n == 1 {
      assert some == [a];
      OneArg(b, a, some);
      ParseArg(a, rest, min);
    } else {
      assert some[..n - 1] == e.args[..n - 1] && some[n - 1] == a;
      ParseArgs(e, n - 1, [BoolToken(b)] + (PrintArg(a) + rest), min);
      ParseArg(a, rest, level + 1);
      Stops(DeriveArg(a), rest, level + 1);
      JoinArg(b, some, rest, min);
    }
  }

  lemma ParseTest(e: Expr, rest: seq<Token>, min: nat)
    requires e.Test? && Wf(e) && min <= Outer(e)
    ensures Parse(Print(e) + rest, min) == Continue(Derive(e), rest, min)
    decreases e, 8
  {
    var t := e.tested;
    ReadTestTokens(e.kind, rest);
    assert Print(e) + rest == InParens(t.Bool?, Print(t)) + (TestTokens(e.kind) + rest);
    ParseOperand(t, t.Bool?, TestTokens(e.kind) + rest, min);
    AfterTest(Grouped(t.Bool?, Derive(t)), e.kind, rest, min);
  }

  /** Printed tokens are read as the derivation, and parsing goes on behind them. */
  lemma {:induction false} ParsePrinted(e: Expr, rest: seq<Token>, min: nat)
    requires Wf(e) && min <= Outer(e) && NextLevel(rest) < Bound(e)
    ensures Parse(Print(e) + rest, min) == Continue(Derive(e), rest, min)
    decreases e, 9
  {
    match e {
      case Column(s) => assert ([TName(s)] + rest)[1..] == rest;
      case Param(n) => assert ([TParam(n)] + rest)[1..] == rest;
      case Const(n) => assert ([TNumber(n)] + rest)[1..] == rest;
      case Prefix(_, _) => ParsePrefix(e, rest, min);
      case Infix(_, _, _) => ParseInfix(e, rest, min);
      case Test(_, _) => ParseTest(e, rest, min);
      case Bool(b, args) =>
        if b.NOT? {
          ParseNot(e, rest, min);
        } else {
          ParseArgs(e, |args|, rest, min);
          assert args[..|args|] == args;
        }
    }
  }

  /** The parser reads a printed expression as its derivation. */
  lemma ParseAllPrinted(e: Expr)
    requires Wf(e)
    ensures ParseAll(Print(e)) == Some(Derive(e))
  {
    assert Print(e) + [] == Print(e);
    ParsePrinted(e, [], 0);
    Stops(Derive(e), [], 0);
  }

  // ----- the tree that comes back -----

  /** Read by the reference grammar, a derivation gives back the printed tree. */
  lemma {:induction false} ReferenceOf(e: Expr)
    requires Wf(e)
    ensures Reference(Derive(e)) == e
  {
    match e {
      case Prefix(_, arg) => ReferenceOf(arg);
      case Infix(_, l, r) =>
        ReferenceOf(l);
        ReferenceOf(r);
      case Test(t, _) => ReferenceOf(t);
      case Bool(b, args) =>
        assert Wf(args[0]);
        ReferenceOf(args[0]);
        if !b.NOT? {
          ReferenceOfArgs(e, |args|);
          assert args[..|args|] == args;
        }
      case _ =>
    }
  }

  lemma ArgIsNoJunction(e: Expr)
    ensures !DeriveArg(e).Junction?
  {
  }

  lemma {:induction false} ReferenceOfArgs(e: Expr, n: nat)
    requires Wf(e) && e.Bool? && !e.boolop.NOT? && 2 <= n <= |e.args|
    ensures var d := DeriveArgs(e.boolop, e.args[..n]); d.Junction? && d.boolop == e.boolop
    ensures Reference(DeriveArgs(e.boolop, e.args[..n])) == Bool(e.boolop, e.args[..n])
    decreases e, n
  {
    hide *;
    var some, front, a := e.args[..n], e.args[..n - 1], e.args[n - 1];
    assert some[..n - 1] == front && some == front + [a] && some[n - 1] == a;
    WfArg(e, n - 1);
    WfArg(e, 0);
    ReferenceOf(a);
    ReferenceOfArg(a);
    LastJunction(e.boolop, some);
    if n == 2 {
      assert front == [e.args[0]];
      OneArg(e.boolop, e.args[0], front);
      ReferenceOf(e.args[0]);
      ReferenceOfArg(e.args[0]);
      ArgIsNoJunction(e.args[0]);
      assert [e.args[0]] + [a] == [e.args[0], a];
    } else {
      ReferenceOfArgs(e, n - 1);
    }
    ReferenceOfJunction(e.boolop, DeriveArgs(e.boolop, front), DeriveArg(a));
  }

  lemma WfArg(e: Expr, i: nat)
    requires Wf(e) && e.Bool? && i < |e.args|
    ensures Wf(e.args[i])
  {
  }

  lemma ReferenceOfArg(e: Expr)
    ensures Reference(DeriveArg(e)) == Reference(Derive(e))
  {
    hide Derive;
  }

  lemma LastJunction(b: BoolOp, args: seq<Expr>)
    requires |args| >= 2
    ensures var n := |args| - 1; DeriveArgs(b, args) == Junction(b, DeriveArgs(b, args[..n]), DeriveArg(args[n]))
  {
    hide DeriveArg;
  }

  lemma ReferenceOfJunction(b: BoolOp, l: Derivation, r: Derivation)
    ensures var first := Reference(l);
            Reference(Junction(b, l, r))
            == if l.Junction? && l.boolop == b && first.Bool? then Bool(b, first.args + [Reference(r)])
               else Bool(b, [first, Reference(r)])
  {
  }

  /**
   The trees that the actions of the grammar rebuild: no minus sign in front of a numeric
   constant, which they fold into the constant, and no AND in the first place of an AND or OR
   in the first place of an OR, which they flatten in spite of its parentheses.
   */
  predicate Rebuilt(e: Expr) {
    match e
    case Prefix(op, arg) => !(op == Plain("-") && arg.Const?) && Rebuilt(arg)
    case Infix(_, l, r) => Rebuilt(l) && Rebuilt(r)
    case Test(t, _) => Rebuilt(t)
    case Bool(b, args) =>
      && (b.NOT? || args == [] || !(args[0].Bool? && args[0].boolop == b))
      && forall i :: 0 <= i < |args| ==> Rebuilt(args[i])
    case _ => true
  }

  /** An AND or OR that the grammar builds has at least two arguments. */
  predicate Grown(e: Expr) {
    e.Bool? && !e.boolop.NOT? ==> |e.args| >= 2
  }

  /** What the grammar makes of the first `n` arguments. */
  ghost predicate SameArgs(e: Expr, g: Expr, n: nat)
    requires e.Bool? && 2 <= n <= |e.args|
  {
    && g.Bool? && g.boolop == e.boolop && |g.args| >= n
    && (g.args == e.args[..n] <==>
          Rebuilt(e.args[0]) && !(e.args[0].Bool? && e.args[0].boolop == e.boolop)
          && forall i :: 1 <= i < n ==> Rebuilt(e.args[i]))
  }

  /** The grammar rebuilds exactly the trees without those two shapes. */
  lemma {:induction false} GrammarOf(e: Expr)
    requires Wf(e)
    ensures Grammar(Derive(e)) == e <==> Rebuilt(e)
    ensures Grown(Grammar(Derive(e)))
  {
    match e {
      case Prefix(_, arg) => GrammarOf(arg);
      case Infix(_, l, r) =>
        GrammarOf(l);
        GrammarOf(r);
      case Test(t, _) => GrammarOf(t);
      case Bool(b, args) =>
        assert Wf(args[0]);
        GrammarOf(args[0]);
        if !b.NOT? {
          GrammarOfArgs(e, |args|);
          assert args[..|args|] == args;
        }
      case _ =>
    }
  }

  lemma AppendSame(s: seq<Expr>, x: Expr, t: seq<Expr>, y: Expr)
    ensures s + [x] == t + [y] <==> s == t && x == y
  {
    if s + [x] == t + [y] {
      assert (s + [x])[|s|] == x && (t + [y])[|t|] == y;
      assert (s + [x])[..|s|] == s && (t + [y])[..|t|] == t;
    }
  }

  lemma GrammarOfPair(e: Expr)
    requires e.Bool? && !e.boolop.NOT? && |e.args| >= 2
    requires Grammar(DeriveArg(e.args[0])) == e.args[0] <==> Rebuilt(e.args[0])
    requires Grammar(DeriveArg(e.args[1])) == e.args[1] <==> Rebuilt(e.args[1])
    requires Grown(Grammar(DeriveArg(e.args[0])))
    ensures SameArgs(e, Grammar(DeriveArgs(e.boolop, e.args[..2])), 2)
  {
    var x, y := Grammar(DeriveArg(e.args[0])), Grammar(DeriveArg(e.args[1]));
    assert e.args[..2] == [e.args[0]] + [e.args[1]] && e.args[..2][..1] == [e.args[0]];
    hide DeriveArg, Rebuilt;
    assert Grammar(DeriveArgs(e.boolop, e.args[..2])) == MakeJunction(e.boolop, x, y);
    AppendSame([x], y, [e.args[0]], e.args[1]);
  }

  lemma GrammarOfNext(e: Expr, n: nat)
    requires e.Bool? && !e.boolop.NOT? && 2 < n <= |e.args|
    requires Grammar(DeriveArg(e.args[n - 1])) == e.args[n - 1] <==> Rebuilt(e.args[n - 1])
    requires SameArgs(e, Grammar(DeriveArgs(e.boolop, e.args[..n - 1])), n - 1)
    ensures SameArgs(e, Grammar(DeriveArgs(e.boolop, e.args[..n])), n)
  {
    var some, front, a := e.args[..n], e.args[..n - 1], e.args[n - 1];
    assert some[..n - 1] == front && some == front + [a];
    var g, x := Grammar(DeriveArgs(e.boolop, front)), Grammar(DeriveArg(a));
    assert Grammar(DeriveArgs(e.boolop, some)) == MakeJunction(e.boolop, g, x);
    AppendSame(g.args, x, front, a);
    hide Rebuilt, Grammar, DeriveArgs, DeriveArg;
  }

  lemma {:induction false} GrammarOfArgs(e: Expr, n: nat)
    requires Wf(e) && e.Bool? && !e.boolop.NOT? && 2 <= n <= |e.args|
    ensures SameArgs(e, Grammar(DeriveArgs(e.boolop, e.args[..n])), n)
    decreases e, n
  {
    assert Wf(e.args[n - 1]) && Wf(e.args[0]);
    hide Wf, Rebuilt, Derive, SameArgs, NeedsParensInBool;
    GrammarOf(e.args[n - 1]);
    if n == 2 {
      GrammarOf(e.args[0]);
      GrammarOfPair(e);
    } else {
      GrammarOfArgs(e, n - 1);
      GrammarOfNext(e, n);
    }
  }

  /** Printing then parsing is the identity: the parentheses are enough. */
  lemma PrintThenParse(e: Expr)
    requires Wf(e)
    ensures ParseAll(Print(e)).Some? && Reference(ParseAll(Print(e)).value) == e
  {
    ParseAllPrinted(e);
    ReferenceOf(e);
  }

  /** Under the actions of the grammar it is the identity on exactly the `Rebuilt` trees. */
  lemma PrintThenGrammar(e: Expr)
    requires Wf(e)
    ensures ParseAll(Print(e)).Some?
    ensures Grammar(ParseAll(Print(e)).value) == e <==> Rebuilt(e)
  {
    ParseAllPrinted(e);
    GrammarOf(e);
  }

  // ----- no more parentheses than that -----

  /** A group that encloses something other than an atom. */
  predicate IsEnclosed(d: Derivation) {
    d.Group? && !d.inner.Leaf? && !d.inner.Group?
  }

  /**
   Where the parentheses of a derivation are: around every operand of an operator but an atom, around
   an AND or OR inside a boolean expression, around any boolean expression that is tested, and nowhere
   else. An AND or OR without parentheses is in the first place of a chain of the same keyword.
   */
  predicate IsSparing(d: Derivation) {
    match d
    case Leaf(e) => e.Column? || e.Param? || e.Const?
    case Group(inner) => IsEnclosed(d) && IsSparing(inner)
    case Sign(_, a) => (a.Leaf? || IsEnclosed(a)) && IsSparing(a)
    case Binary(_, l, r) => (l.Leaf? || IsEnclosed(l)) && (r.Leaf? || IsEnclosed(r)) && IsSparing(l) && IsSparing(r)
    case Negation(a) => !a.Junction? && (a.Group? ==> a.inner.Junction?) && IsSparing(a)
    case Tested(a, _) => !a.Junction? && !a.Negation? && (a.Group? ==> a.inner.Junction? || a.inner.Negation?) && IsSparing(a)
    case Junction(b, l, r) =>
      && (l.Junction? ==> l.boolop == b) && !r.Junction?
      && (l.Group? ==> l.inner.Junction?) && (r.Group? ==> r.inner.Junction?)
      && IsSparing(l) && IsSparing(r)
  }

  /** What kind of derivation a tree is printed as. */
  lemma KindOf(e: Expr)
    requires Wf(e)
    ensures var d := Derive(e);
            && !d.Group? && (d.Leaf? <==> e.Column? || e.Param? || e.Const?)
            && (d.Junction? <==> e.Bool? && !e.boolop.NOT?) && (d.Negation? <==> e.Bool? && e.boolop.NOT?)
            && (d.Junction? ==> d.boolop == e.boolop)
  {
    hide DeriveArg, Grouped;
    if e.Bool? && !e.boolop.NOT? {
      assert Derive(e) == DeriveArgs(e.boolop, e.args);
    }
  }

  lemma {:induction false} SparingArg(e: Expr)
    requires Wf(e)
    ensures var d := DeriveArg(e); IsSparing(d) && !d.Junction? && (d.Group? ==> d.inner.Junction?)
    decreases e, 1
  {
    Sparing(e);
    KindOf(e);
  }

  lemma {:induction false} SparingArgs(b: BoolOp, args: seq<Expr>)
    requires args != [] && forall i :: 0 <= i < |args| ==> Wf(args[i])
    ensures var d := DeriveArgs(b, args);
            && IsSparing(d) && (d.Group? ==> d.inner.Junction?)
            && (d.Junction? ==> d.boolop == b)
    decreases args, 2
  {
    var n := |args| - 1;
    SparingArg(args[n]);
    if n > 0 {
      SparingArgs(b, args[..n]);
    }
    hide DeriveArg, Wf;
  }

  /** Of a printed tree. */
  lemma {:induction false} Sparing(e: Expr)
    requires Wf(e)
    ensures IsSparing(Derive(e))
    decreases e, 0
  {
    match e {
      case Prefix(_, arg) =>
        Sparing(arg);
        KindOf(arg);
      case Infix(_, l, r) =>
        Sparing(l);
        Sparing(r);
        KindOf(l);
        KindOf(r);
      case Test(t, _) =>
        Sparing(t);
        KindOf(t);
      case Bool(b, args) =>
        if b.NOT? {
          SparingArg(args[0]);
        } else {
          SparingArgs(b, args);
        }
      case _ =>
    }
  }

  /** Parentheses are printed where they are needed only, none around the whole and none around an atom. */
  lemma NoNeedlessParens(e: Expr)
    requires Wf(e)
    ensures ParseAll(Print(e)).Some? && !ParseAll(Print(e)).value.Group? && IsSparing(ParseAll(Print(e)).value)
  {
    ParseAllPrinted(e);
    KindOf(e);
    Sparing(e);
  }

  /** An operand of an operator: a bare token for an atom, parentheses around anything else. */
  function Operand(e: Expr): seq<Token> {
    match e
    case Column(s) => [TName(s)]
    case Param(n) => [TParam(n)]
    case Const(n) => if n < 0 then [TSym("-"), TNumber(-n)] else [TNumber(n)]
    case _ => [TLeft] + Print(e) + [TRight]
  }

  lemma OperandIs(e: Expr)
    ensures Operand(e) == InParens(NeedsParensAsBExpr(e), Print(e))
  {
  }

  /** How operators are printed. */
  lemma OperandsPrinted(op: Operator, l: Expr, r: Expr)
    ensures Print(Infix(op, l, r)) == Operand(l) + OpTokens(op) + Operand(r)
    ensures Print(Prefix(op, r)) == OpTokens(op) + Operand(r)
  {
    hide OpTokens;
  }

  /** The keywords of boolean expressions and tests. */
  lemma KeywordsPrinted(x: string, y: string, truth: Truth)
    ensures Print(Bool(AND, [Column(x), Column(y)])) == [TName(x), TAnd, TName(y)]
    ensures Print(Bool(OR, [Column(x), Column(y)])) == [TName(x), TOr, TName(y)]
    ensures Print(Bool(NOT, [Column(x)])) == [TNot, TName(x)]
    ensures var t := match truth case TRUE => TTrue case FALSE => TFalse case UNKNOWN => TUnknown;
            && Print(Test(Column(x), TestKind(false, truth))) == [TName(x), TIs, t]
            && Print(Test(Column(x), TestKind(true, truth))) == [TName(x), TIs, TNot, t]
    ensures OpTokens(Plain(x)) == [TSym(x)]
    ensures OpTokens(Qualified(y, x)) == [TOperator, TLeft, TName(y), TDot, TSym(x), TRight]
  {
    TwoPrinted(AND, x, y);
    TwoPrinted(OR, x, y);
    assert PrintArg(Column(x)) == [TName(x)];
    hide PrintArgs, PrintArg;
  }

  lemma TwoPrinted(b: BoolOp, x: string, y: string)
    ensures PrintArgs(b, [Column(x), Column(y)]) == [TName(x), BoolToken(b), TName(y)]
  {
    var args := [Column(x), Column(y)];
    assert PrintArg(Column(x)) == [TName(x)] && PrintArg(Column(y)) == [TName(y)];
    hide PrintArg, BoolToken;
    assert args[..1] == [Column(x)] && PrintArgs(b, [Column(x)]) == [TName(x)];
  }

  // ----- the printer -----

  /** A minus sign in front of a constant comes back as a negative constant. */
  lemma MinusIsFolded()
    ensures var e := Prefix(Plain("-"), Const(1));
            && Wf(e) && !Rebuilt(e) && ParseAll(Print(e)).Some? && Grammar(ParseAll(Print(e)).value) == Const(-1)
  {
    var e := Prefix(Plain("-"), Const(1));
    assert IsOp("-");
    ParseAllPrinted(e);
    assert Derive(e) == Sign(Plain("-"), Leaf(Const(1)));
  }

  /** An AND in parentheses in the first place of an AND comes back as one AND of three. */
  lemma AndIsFlattened()
    ensures var a := Column("a");
            var e := Bool(AND, [Bool(AND, [a, a]), a]);
            && Wf(e) && !Rebuilt(e) && ParseAll(Print(e)).Some? && Grammar(ParseAll(Print(e)).value) == Bool(AND, [a, a, a])
  {
    var a := Column("a");
    var inner := Bool(AND, [a, a]);
    var e := Bool(AND, [inner, a]);
    ParseAllPrinted(e);
    DeriveTwo(AND, a, a);
    DeriveTwo(AND, inner, a);
    var both := Junction(AND, Leaf(a), Leaf(a));
    assert DeriveArg(a) == Leaf(a) && DeriveArg(inner) == Group(both);
    assert Derive(e) == Junction(AND, Group(both), Leaf(a));
    assert Grammar(both) == Bool(AND, [a, a]) && [a, a] + [a] == [a, a, a];
  }

  lemma DeriveTwo(b: BoolOp, x: Expr, y: Expr)
    ensures DeriveArgs(b, [x, y]) == Junction(b, DeriveArg(x), DeriveArg(y))
  {
    assert [x, y][..1] == [x];
    hide DeriveArg;
  }

  /** Where the expression printer puts its tokens. */
  class Sink {
    var tokens: seq<Token>

    constructor ()
      ensures tokens == []
    {
      tokens := [];
    }

    method Append(t: Token)
      modifies this
      ensures tokens == old(tokens) + [t]
    {
      tokens := tokens + [t];
    }

    /** `deparseQualOp` */
    method DeparseQualOp(op: Operator)
      modifies this
      ensures tokens == old(tokens) + OpTokens(op)
    {
      if op.Plain? {
        Append(TSym(op.sym));
      } else {
        Append(TOperator);
        Append(TLeft);
        DeparseAnyOperator(op);
        Append(TRight);
      }
    }

    /** `deparseAnyOperator` */
    method DeparseAnyOperator(op: Operator)
      modifies this
      ensures tokens == old(tokens) + if op.Plain? then [TSym(op.sym)] else [TName(op.schema), TDot, TSym(op.sym)]
    {
      if op.Qualified? {
        Append(TName(op.schema));
        Append(TDot);
      }
      Append(TSym(op.sym));
    }

    /** `deparseExpr` on the fragment. */
    method DeparseExpr(e: Expr)
      modifies this
      ensures tokens == old(tokens) + Print(e)
      decreases e, 1
    {
      match e
      case Column(s) => Append(TName(s));
      case Param(n) => Append(TParam(n));
      case Const(n) =>
        if n < 0 {
          Append(TSym("-"));
        }
        Append(TNumber(if n < 0 then -n else n));
      case Prefix(_, _) => DeparseAExpr(e);
      case Infix(_, _, _) => DeparseAExpr(e);
      case Bool(_, _) => DeparseBoolExpr(e);
      case Test(_, _) => DeparseBooleanTest(e);
    }

    /** An expression between parentheses when `parens` asks for them. */
    method DeparseInParens(parens: bool, e: Expr)
      modifies this
      ensures tokens == old(tokens) + InParens(parens, Print(e))
      decreases e, 2
    {
      hide Print;
      if parens {
        Append(TLeft);
      }
      DeparseExpr(e);
      if parens {
        Append(TRight);
      }
    }

    /** `deparseAExpr`, kind AEXPR_OP; a prefix operator has no left operand. */
    method DeparseAExpr(e: Expr)
      requires e.Prefix? || e.Infix?
      modifies this
      ensures tokens == old(tokens) + Print(e)
      ensures e.Prefix? ==> tokens == old(tokens) + (OpTokens(e.op) + Operand(e.arg))
      ensures e.Infix? ==> tokens == old(tokens) + (Operand(e.left) + OpTokens(e.op) + Operand(e.right))
      decreases e, 0
    {
      hide *;
      ghost var before := tokens;
      var right := if e.Infix? then e.right else e.arg;
      ghost var left := if e.Infix? then e.left else right;
      OperandsPrinted(e.op, left, right);
      OperandIs(left);
      OperandIs(right);
      if e.Infix? {
        DeparseInParens(NeedsParensAsBExpr(e.left), e.left);
      }
      DeparseQualOp(e.op);
      DeparseInParens(NeedsParensAsBExpr(right), right);
      if e.Infix? {
        assert tokens == before + (Operand(left) + OpTokens(e.op) + Operand(right));
        assert e == Infix(e.op, left, right);
      } else {
        assert tokens == before + (OpTokens(e.op) + Operand(right));
        assert e == Prefix(e.op, right);
      }
    }

    /** `deparseBoolExpr` */
    method DeparseBoolExpr(e: Expr)
      requires e.Bool?
      modifies this
      ensures tokens == old(tokens) + Print(e)
      decreases e, 0
    {
      hide InParens;
      if e.boolop.NOT? {
        Append(TNot);
        if e.args != [] {
          DeparseInParens(NeedsParensInBool(e.args[0]), e.args[0]);
        }
        return;
      }
      ghost var start := tokens;
      var i := 0;
      while i < |e.args|
        invariant 0 <= i <= |e.args|
        invariant tokens == start + PrintArgs(e.boolop, e.args[..i]) + if 0 < i < |e.args| then [BoolToken(e.boolop)] else []
      {
        var a := e.args[i];
        assert e.args[..i + 1][..i] == e.args[..i];
        DeparseInParens(NeedsParensInBool(a), a);
        if i + 1 < |e.args| {
          Append(BoolToken(e.boolop));
        }
        i := i + 1;
      }
      assert e.args[..i] == e.args;
    }

    /** `deparseBooleanTest` */
    method DeparseBooleanTest(e: Expr)
      requires e.Test?
      modifies this
      ensures tokens == old(tokens) + Print(e)
      decreases e, 0
    {
      DeparseInParens(e.tested.Bool?, e.tested);
      Append(TIs);
      if e.kind.negated {
        Append(TNot);
      }
      match e.kind.truth
      case TRUE => Append(TTrue);
      case FALSE => Append(TFalse);
      case UNKNOWN => Append(TUnknown);
    }
  }

  /** Deparsing a tree and parsing the tokens again. */
  method DeparseThenParse(e: Expr) returns (d: Derivation)
    requires Wf(e)
    ensures Reference(d) == e && IsSparing(d) && !d.Group?
    ensures Grammar(d) == e <==> Rebuilt(e)
  {
    var out := new Sink();
    out.DeparseExpr(e);
    assert [] + Print(e) == Print(e);
    PrintThenParse(e);
    PrintThenGrammar(e);
    NoNeedlessParens(e);
    d := ParseAll(out.tokens).value;
  }
}
