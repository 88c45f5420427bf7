/**
 Boolean and operator expressions: the trees, their tokens, and a reference parser.

 The parser follows the operator precedence table of the PostgreSQL documentation
 (section 4.1.6, "Operator Precedence"). It yields derivations that still show which groups
 were parenthesised; two readings turn a derivation into a tree: `Reference`, where a
 parenthesised group is a node of its own, and `Grammar`, which applies the actions of the
 real grammar, flattening and folding included.
 */
module DeparseGrammar {
  import opened Common

  /** An operator by its symbol, or by schema and symbol. */
  datatype Operator = Plain(sym: string) | Qualified(schema: string, sym: string)

  datatype BoolOp = AND | OR | NOT

  datatype TestKind = TestKind(negated: bool, truth: Truth)
  datatype Truth = TRUE | FALSE | UNKNOWN

  /** The fragment: columns, parameters, integer constants, `AEXPR_OP`, BoolExpr, BooleanTest. */
  datatype Expr =
    | Column(name: string)
    | Param(number: nat)
    | Const(n: int)
    | Prefix(op: Operator, arg: Expr)
    | Infix(op: Operator, left: Expr, right: Expr)
    | Bool(boolop: BoolOp, args: seq<Expr>)
    | Test(tested: Expr, kind: TestKind)

  datatype Token =
    | TName(s: string) | TParam(n: nat) | TNumber(n: nat) | TSym(s: string)
    | TLeft | TRight | TDot | TOperator
    | TAnd | TOr | TNot | TIs | TTrue | TFalse | TUnknown

  // ----- operators -----

  const OP_CHARS := "~!@#^&|`?+-*/%<>="

  /** `isOp` */
  predicate IsOp(s: string) {
    s != [] && forall i :: 0 <= i < |s| ==> s[i] in OP_CHARS
  }

  const OR_LEVEL := 1
  const AND_LEVEL := 2
  const NOT_LEVEL := 3
  const IS_LEVEL := 4
  const COMPARISON_LEVEL := 5
  const OTHER_LEVEL := 6
  const ADD_LEVEL := 7
  const MULTIPLY_LEVEL := 8
  const POWER_LEVEL := 9
  const SIGN_LEVEL := 10
  const ATOM_LEVEL := 11

  function Level(op: Operator): (l: nat)
    ensures COMPARISON_LEVEL <= l <= POWER_LEVEL
  {
    if op.Qualified? then OTHER_LEVEL
    else if op.sym in ["<", ">", "=", "<=", ">=", "<>"] then COMPARISON_LEVEL
    else if op.sym in ["+", "-"] then ADD_LEVEL
    else if op.sym in ["*", "/", "%"] then MULTIPLY_LEVEL
    else if op.sym == "^" then POWER_LEVEL
    else OTHER_LEVEL
  }

  /** A sign binds tightest; any other operator keeps its level in front of its operand. */
  function PrefixLevel(op: Operator): (l: nat) {
    if op == Plain("+") || op == Plain("-") then SIGN_LEVEL else Level(op)
  }

  /** Operators that the grammar allows in front of an operand. */
  predicate PrefixOk(op: Operator) {
    PrefixLevel(op) == SIGN_LEVEL || PrefixLevel(op) == OTHER_LEVEL
  }

  /** The level that the operand of a prefix operator has at least. */
  function OperandLevel(op: Operator): nat {
    if PrefixLevel(op) == SIGN_LEVEL then SIGN_LEVEL else OTHER_LEVEL + 1
  }

  /** A name the scanner gives back unchanged; it reads `!=` as `<>` and `=>` as punctuation. */
  predicate OpOk(op: Operator) {
    IsOp(op.sym) && op.sym != "!=" && op.sym != "=>"
  }

  /** Trees of the fragment. */
  predicate Wf(e: Expr) {
    match e
    case Column(_) => true
    case Param(_) => true
    case Const(n) => n >= 0
    case Prefix(op, arg) => OpOk(op) && PrefixOk(op) && Wf(arg)
    case Infix(op, l, r) => OpOk(op) && Wf(l) && Wf(r)
    case Bool(b, args) => (if b.NOT? then |args| == 1 else |args| >= 2) && forall i :: 0 <= i < |args| ==> Wf(args[i])
    case Test(t, _) => Wf(t)
  }

  // ----- the reference parser -----

  /** Derivations. `Junction` is one binary AND or OR step, `Group` a parenthesised expression. */
  datatype Derivation =
    | Leaf(e: Expr)
    | Group(inner: Derivation)
    | Sign(op: Operator, arg: Derivation)
    | Binary(op: Operator, left: Derivation, right: Derivation)
    | Junction(boolop: BoolOp, left: Derivation, right: Derivation)
    | Negation(arg: Derivation)
    | Tested(arg: Derivation, kind: TestKind)

  type Parsed = Option<(Derivation, seq<Token>)>

  /** An operator at the front of the tokens, and how many tokens it takes. */
  function ReadOp(ts: seq<Token>): (r: Option<(Operator, nat)>)
    ensures r.Some? ==> 0 < r.value.1 <= |ts|
  {
    if ts == [] then None
    else if ts[0].TSym? then Some((Plain(ts[0].s), 1))
    else if |ts| >= 6 && ts[0] == TOperator && ts[1] == TLeft && ts[2].TName? && ts[3] == TDot && ts[4].TSym? && ts[5] == TRight
    then Some((Qualified(ts[2].s, ts[4].s), 6))
    else None
  }

  /** A boolean test at the front of the tokens. */
  function ReadTest(ts: seq<Token>): (r: Option<(TestKind, nat)>)
    ensures r.Some? ==> 0 < r.value.1 <= |ts|
  {
    if |ts| < 2 || ts[0] != TIs then None
    else if ts[1] == TNot then
      if |ts| < 3 then None
      else match ts[2]
        case TTrue => Some((TestKind(true, TRUE), 3))
        case TFalse => Some((TestKind(true, FALSE), 3))
        case TUnknown => Some((TestKind(true, UNKNOWN), 3))
        case _ => None
    else match ts[1]
      case TTrue => Some((TestKind(false, TRUE), 2))
      case TFalse => Some((TestKind(false, FALSE), 2))
      case TUnknown => Some((TestKind(false, UNKNOWN), 2))
      case _ => None
  }

  /** The level at which the tokens would continue an expression, 0 when they do not. */
  function NextLevel(ts: seq<Token>): (l: nat)
    ensures l <= POWER_LEVEL
  {
    if ts == [] then 0
    else if ts[0] == TOr then OR_LEVEL
    else if ts[0] == TAnd then AND_LEVEL
    else if ts[0] == TIs then IS_LEVEL
    else match ReadOp(ts)
      case Some((op, _)) => Level(op)
      case None => 0
  }

  /** An expression whose outermost operator has at least level `min`. */
  function Parse(ts: seq<Token>, min: nat): (r: Parsed)
    ensures r.Some? ==> |r.value.1| < |ts|
    decreases |ts|, 1
  {
    if ts == [] then None
    else if ts[0].TName? then Continue(Leaf(Column(ts[0].s)), ts[1..], min)
    else if ts[0].TParam? then Continue(Leaf(Param(ts[0].n)), ts[1..], min)
    else if ts[0].TNumber? then Continue(Leaf(Const(ts[0].n)), ts[1..], min)
    else if ts[0] == TLeft then
      match Parse(ts[1..], 0)
      case None => None
      case Some((d, rest)) =>
        if rest == [] || rest[0] != TRight then None else Continue(Group(d), rest[1..], min)
    else if ts[0] == TNot then
      match Parse(ts[1..], NOT_LEVEL)
      case None => None
      case Some((d, rest)) => Continue(Negation(d), rest, min)
    else if ReadOp(ts).None? then None
    else
      var (op, used) := ReadOp(ts).value;
      if !PrefixOk(op) then None
      else match Parse(ts[used..], OperandLevel(op))
        case None => None
        case Some((d, rest)) => Continue(Sign(op, d), rest, min)
  }

  /** Takes in the operators behind `left` as long as they have at least level `min`. */
  function Continue(left: Derivation, ts: seq<Token>, min: nat): (r: Parsed)
    ensures r.Some? ==> |r.value.1| <= |ts|
    decreases |ts|, 0
  {
    var level := NextLevel(ts);
    if level == 0 || level < min then Some((left, ts))
    else if level == OR_LEVEL || level == AND_LEVEL then
      match Parse(ts[1..], level + 1)
      case None => None
      case Some((d, rest)) => Continue(Junction(if level == OR_LEVEL then OR else AND, left, d), rest, min)
    else if level == IS_LEVEL then
      match ReadTest(ts)
      case None => None
      case Some((kind, used)) => Continue(Tested(left, kind), ts[used..], min)
    else
      var (op, used) := ReadOp(ts).value;
      match Parse(ts[used..], level + 1)
      case None => None
      case Some((d, rest)) =>
        // comparisons do not associate
        if level == COMPARISON_LEVEL && NextLevel(rest) == COMPARISON_LEVEL then None
        else Continue(Binary(op, left, d), rest, min)
  }

  /** A whole expression. */
  function ParseAll(ts: seq<Token>): Option<Derivation> {
    match Parse(ts, 0)
    case Some((d, rest)) => if rest == [] then Some(d) else None
    case None => None
  }

  // ----- what the parser reads -----

  /** The precedence table, from the tightest operators to the loosest; all that are not in it bind like `||`. */
  lemma PrecedenceTable(schema: string, sym: string)
    ensures Level(Plain("^")) > Level(Plain("*")) == Level(Plain("/")) == Level(Plain("%"))
    ensures Level(Plain("*")) > Level(Plain("+")) == Level(Plain("-")) > Level(Plain("||")) == Level(Qualified(schema, sym))
    ensures sym !in ["<", ">", "=", "<=", ">=", "<>", "+", "-", "*", "/", "%", "^"] ==> Level(Plain(sym)) == Level(Plain("||"))
    ensures Level(Plain("||")) > Level(Plain("=")) == Level(Plain("<")) == Level(Plain(">"))
    ensures Level(Plain("=")) == Level(Plain("<=")) == Level(Plain(">=")) == Level(Plain("<>")) > NextLevel([TIs])
    ensures NextLevel([TIs]) > NextLevel([TAnd]) > NextLevel([TOr]) > 0
  {
    KeywordLevels();
    hide NextLevel;
  }

  lemma KeywordLevels()
    ensures COMPARISON_LEVEL > NextLevel([TIs]) > NextLevel([TAnd]) > NextLevel([TOr]) > 0
  {
    hide Level;
  }

  lemma ReadLast(c: string, min: nat)
    ensures Parse([TName(c)], min) == Some((Leaf(Column(c)), []))
  {
    assert Continue(Leaf(Column(c)), [], min) == Some((Leaf(Column(c)), []));
  }

  lemma ReadOperator(left: Derivation, q: string, rest: seq<Token>)
    ensures NextLevel([TSym(q)] + rest) == Level(Plain(q)) && ReadOp([TSym(q)] + rest) == Some((Plain(q), 1))
    ensures ([TSym(q)] + rest)[1..] == rest
  {
  }

  lemma OneOperator(left: Derivation, q: string, c: string, min: nat)
    ensures var ts := [TSym(q), TName(c)];
            Continue(left, ts, min)
            == if Level(Plain(q)) < min then Some((left, ts)) else Some((Binary(Plain(q), left, Leaf(Column(c))), []))
  {
    ReadOperator(left, q, [TName(c)]);
    assert [TSym(q)] + [TName(c)] == [TSym(q), TName(c)];
    ReadLast(c, Level(Plain(q)) + 1);
    assert NextLevel([]) == 0;
    hide Level, ReadOp, NextLevel;
  }

  /** Of two operators the tighter one takes the operand between them, of two equally tight ones the first; comparisons do not chain. */
  lemma OperandGoesTo(a: string, p: string, b: string, q: string, c: string)
    ensures ParseAll([TName(a), TSym(p), TName(b), TSym(q), TName(c)])
         == var (x, y, z) := (Leaf(Column(a)), Leaf(Column(b)), Leaf(Column(c)));
            if Level(Plain(p)) < Level(Plain(q)) then Some(Binary(Plain(p), x, Binary(Plain(q), y, z)))
            else if Level(Plain(p)) == Level(Plain("=")) then None
            else Some(Binary(Plain(q), Binary(Plain(p), x, y), z))
  {
    hide *;
    var x, y, z := Leaf(Column(a)), Leaf(Column(b)), Leaf(Column(c));
    var behind := [TSym(q), TName(c)];
    var level, tail := Level(Plain(p)), [TName(b)] + behind;
    Facts(p, q, c);
    ReadAtom(b, behind, level + 1);
    OneOperator(y, q, c, level + 1);
    OneOperator(Binary(Plain(p), x, y), q, c, 0);
    ReadAtom(a, [TSym(p)] + tail, 0);
    assert [TName(a)] + ([TSym(p)] + tail) == [TName(a), TSym(p), TName(b), TSym(q), TName(c)];
    if level < Level(Plain(q)) {
      AfterFirst(x, p, tail, Binary(Plain(q), y, z), []);
      NoMore(Binary(Plain(p), x, Binary(Plain(q), y, z)));
    } else {
      AfterFirst(x, p, tail, y, behind);
    }
    AllOf([TName(a), TSym(p), TName(b), TSym(q), TName(c)]);
  }

  lemma Facts(p: string, q: string, c: string)
    ensures Level(Plain("=")) == COMPARISON_LEVEL && Level(Plain(q)) >= COMPARISON_LEVEL && Level(Plain(p)) >= COMPARISON_LEVEL > 0
    ensures NextLevel([TSym(q), TName(c)]) == Level(Plain(q)) && NextLevel([]) == 0
  {
  }

  lemma ReadAtom(s: string, rest: seq<Token>, min: nat)
    ensures Parse([TName(s)] + rest, min) == Continue(Leaf(Column(s)), rest, min)
  {
    assert ([TName(s)] + rest)[1..] == rest;
    hide Continue;
  }

  lemma NoMore(d: Derivation)
    ensures Continue(d, [], 0) == Some((d, []))
  {
  }

  lemma AllOf(ts: seq<Token>)
    ensures ParseAll(ts) == match Parse(ts, 0)
                            case Some((d, rest)) => if rest == [] then Some(d) else None
                            case None => None
  {
    hide Parse;
  }

  lemma AfterFirst(x: Derivation, p: string, tail: seq<Token>, r: Derivation, rest: seq<Token>)
    requires Parse(tail, Level(Plain(p)) + 1) == Some((r, rest))
    ensures Continue(x, [TSym(p)] + tail, 0)
         == if Level(Plain(p)) == COMPARISON_LEVEL && NextLevel(rest) == COMPARISON_LEVEL then None
            else Continue(Binary(Plain(p), x, r), rest, 0)
  {
    ReadOperator(x, p, tail);
    hide ReadOp, NextLevel;
  }

  // ----- two readings of a derivation -----

  /** An unparenthesised chain of ANDs or ORs is one node, a group is a node of its own. */
  function Reference(d: Derivation): Expr {
    match d
    case Leaf(e) => e
    case Group(i) => Reference(i)
    case Sign(op, a) => Prefix(op, Reference(a))
    case Binary(op, l, r) => Infix(op, Reference(l), Reference(r))
    case Negation(a) => Bool(NOT, [Reference(a)])
    case Tested(a, k) => Test(Reference(a), k)
    case Junction(b, l, r) =>
      var first := Reference(l);
      if l.Junction? && l.boolop == b && first.Bool? then Bool(b, first.args + [Reference(r)])
      else Bool(b, [first, Reference(r)])
  }

  /** `doNegate` for a minus sign in front of an operand. */
  function MakeSign(op: Operator, a: Expr): Expr {
    if op == Plain("-") && a.Const? then Const(-a.n) else Prefix(op, a)
  }

  /** `makeAndExpr` and `makeOrExpr` */
  function MakeJunction(b: BoolOp, l: Expr, r: Expr): Expr {
    if l.Bool? && l.boolop == b then Bool(b, l.args + [r]) else Bool(b, [l, r])
  }

  /** The tree that the actions of the grammar build. */
  function Grammar(d: Derivation): Expr {
    match d
    case Leaf(e) => e
    case Group(i) => Grammar(i)
    case Sign(op, a) => MakeSign(op, Grammar(a))
    case Binary(op, l, r) => Infix(op, Grammar(l), Grammar(r))
    case Negation(a) => Bool(NOT, [Grammar(a)])
    case Tested(a, k) => Test(Grammar(a), k)
    case Junction(b, l, r) => MakeJunction(b, Grammar(l), Grammar(r))
  }
}
