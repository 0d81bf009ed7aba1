/**
 The grammar of hsh arithmetic (HshArithmetic.cpp:184-409): its trees, the tokens each tree yields,
 and the recursive descent that builds a tree from tokens. The descent gives exactly the trees of the
 precedence grammar, and where there is none, a tree that says where the error is met.
 */
module ArithGrammar {
  import opened Basics
  import opened Int64
  import opened ArithLexer

  /**
   `Target` is a name directly before an assignment operator, which is never read. Two nodes stand for
   a syntax error: `Bad`, met before anything more is read, and `Then`, met after its operand.
   */
  datatype Expr =
    | Literal(number: intmax)
    | Variable(name: string)
    | Target(name: string)
    | Paren(inner: Expr)
    | Unary(op: Token, operand: Expr)
    | Binary(op: Token, left: Expr, right: Expr)
    | Conditional(condition: Expr, then_: Expr, else_: Expr)
    | Assignment(op: Token, left: Expr, right: Expr)
    | Bad(what: string)
    | Then(first: Expr, what: string)

  // ---- Operators ------------------------------------------------------------------------------

  predicate IsAssignOp(t: Token)
  {
    t in {Assign, PlusEq, MinusEq, StarEq, SlashEq, PercentEq, ShlEq, ShrEq, AndEq, XorEq, OrEq}
  }

  predicate IsUnaryOp(t: Token) { t in {Plus, Minus, Tilde, Bang} }

  const ASSIGN: nat := 0
  const CONDITIONAL: nat := 1
  const LOGICAL_OR: nat := 2
  const MULTIPLICATIVE: nat := 11
  const UNARY: nat := 12
  const PRIMARY: nat := 13

  /** The precedence level of a binary operator; 0 for other tokens. */
  function LevelOf(t: Token): (level: nat)
    ensures level == 0 || LOGICAL_OR <= level <= MULTIPLICATIVE
  {
    match t
    case OrOr => 2
    case AndAnd => 3
    case Bar => 4
    case Caret => 5
    case Amp => 6
    case EqEq => 7
    case NotEq => 7
    case Lt => 8
    case Le => 8
    case Gt => 8
    case Ge => 8
    case Shl => 9
    case Shr => 9
    case Plus => 10
    case Minus => 10
    case Star => 11
    case Slash => 11
    case Percent => 11
    case _ => 0
  }

  // ---- The grammar ----------------------------------------------------------------------------

  function Rank(e: Expr): nat
  {
    match e
    case Assignment(_, _, _) => ASSIGN
    case Conditional(_, _, _) => CONDITIONAL
    case Binary(op, _, _) => LevelOf(op)
    case Unary(_, _) => UNARY
    case _ => PRIMARY
  }

  /** The name an assignment to this expression sets, "" when it is no target: + keeps it, all else loses it. */
  function LName(e: Expr): string
  {
    match e
    case Variable(name) => name
    case Target(name) => name
    case Unary(Plus, operand) => LName(operand)
    case _ => ""
  }

  predicate IsLhs(e: Expr)
  {
    match e
    case Target(name) => name != ""
    case Unary(Plus, operand) => IsLhs(operand)
    case _ => false
  }

  /** Every operand binds at least as tightly as its place asks; binary operators group to the left. */
  predicate Grammatical(e: Expr)
  {
    match e
    case Literal(_) => true
    case Variable(_) => true
    case Paren(inner) => Grammatical(inner)
    case Unary(op, operand) => IsUnaryOp(op) && Grammatical(operand) && Rank(operand) >= UNARY
    case Binary(op, l, r) =>
      LevelOf(op) != 0 && Grammatical(l) && Grammatical(r) && Rank(l) >= LevelOf(op) && Rank(r) > LevelOf(op)
    case Conditional(c, t, f) => Grammatical(c) && Rank(c) >= LOGICAL_OR && Grammatical(t) && Grammatical(f)
    case Assignment(op, l, r) => IsAssignOp(op) && IsLhs(l) && Grammatical(r)
    case _ => false
  }

  function Yield(e: Expr): seq<Token>
  {
    match e
    case Literal(n) => [Number(n)]
    case Variable(name) => [Name(name)]
    case Target(name) => [Name(name)]
    case Paren(inner) => [LParen] + Yield(inner) + [RParen]
    case Unary(op, operand) => [op] + Yield(operand)
    case Binary(op, l, r) => Yield(l) + [op] + Yield(r)
    case Conditional(c, t, f) => Yield(c) + [Question] + Yield(t) + [Colon] + Yield(f)
    case Assignment(op, l, r) => Yield(l) + [op] + Yield(r)
    case Bad(_) => []
    case Then(first, _) => Yield(first)
  }

  /** The first syntax error in reading order. */
  function FirstBad(e: Expr): Option<string>
  {
    match e
    case Literal(_) => None
    case Variable(_) => None
    case Target(_) => None
    case Paren(inner) => FirstBad(inner)
    case Unary(_, operand) => FirstBad(operand)
    case Binary(_, l, r) => OrElse(FirstBad(l), FirstBad(r))
    case Conditional(c, t, f) => OrElse(FirstBad(c), OrElse(FirstBad(t), FirstBad(f)))
    case Assignment(_, l, r) => OrElse(FirstBad(l), FirstBad(r))
    case Bad(what) => Some(what)
    case Then(first, what) => OrElse(FirstBad(first), Some(what))
  }

  function OrElse(a: Option<string>, b: Option<string>): Option<string>
  {
    if a.Some? then a else b
  }

  // ---- The descent ----------------------------------------------------------------------------

  /** The tree read, the tokens left, and whether no syntax error was met. */
  datatype Parsed = Parsed(tree: Expr, rest: seq<Token>, ok: bool)

  function Peek(ts: seq<Token>): Token
  {
    if ts == [] then End else ts[0]
  }

  /** The descent for a precedence level. */
  function Parse(level: nat, ts: seq<Token>): (p: Parsed)
    requires level <= UNARY
    ensures |p.rest| <= |ts|
    decreases |ts|, 14 - level
  {
    if level == ASSIGN then ParseAssign(Parse(CONDITIONAL, ts))
    else if level == CONDITIONAL then ParseConditional(Parse(LOGICAL_OR, ts))
    else if level == UNARY then ParseUnary(ts)
    else
      var p := Parse(level + 1, ts);
      if p.ok then Tail(level, p.tree, p.rest) else p
  }

  /** What ParseAssign does after its left-hand side. */
  function ParseAssign(lhs: Parsed): (p: Parsed)
    ensures |p.rest| <= |lhs.rest|
    decreases |lhs.rest|, 0
  {
    if !lhs.ok || !IsAssignOp(Peek(lhs.rest)) || LName(lhs.tree) == "" then lhs
    else
      var rhs := Parse(ASSIGN, lhs.rest[1..]);
      Parsed(Assignment(lhs.rest[0], lhs.tree, rhs.tree), rhs.rest, rhs.ok)
  }

  /** What ParseConditional does after the condition. */
  function ParseConditional(c: Parsed): (p: Parsed)
    ensures |p.rest| <= |c.rest|
    decreases |c.rest|, 0
  {
    if !c.ok || Peek(c.rest) != Question then c
    else
      var t := Parse(ASSIGN, c.rest[1..]);
      if !t.ok then Parsed(Conditional(c.tree, t.tree, Literal(0)), t.rest, false)
      else if Peek(t.rest) != Colon then
        Parsed(Conditional(c.tree, Then(t.tree, "expecting ':'"), Literal(0)), t.rest, false)
      else
        var f := Parse(ASSIGN, t.rest[1..]);
        Parsed(Conditional(c.tree, t.tree, f.tree), f.rest, f.ok)
  }

  /** The loop of a binary level, `lhs` being read already. */
  function Tail(level: nat, lhs: Expr, ts: seq<Token>): (p: Parsed)
    requires LOGICAL_OR <= level <= MULTIPLICATIVE
    ensures |p.rest| <= |ts|
    decreases |ts|, 0
  {
    if LevelOf(Peek(ts)) != level then Parsed(lhs, ts, true)
    else
      var rhs := Parse(level + 1, ts[1..]);
      var tree := Binary(ts[0], lhs, rhs.tree);
      if rhs.ok then Tail(level, tree, rhs.rest) else Parsed(tree, rhs.rest, false)
  }

  function ParseUnary(ts: seq<Token>): (p: Parsed)
    ensures |p.rest| <= |ts|
    decreases |ts|, 1
  {
    if IsUnaryOp(Peek(ts)) then
      var p := ParseUnary(ts[1..]);
      Parsed(Unary(ts[0], p.tree), p.rest, p.ok)
    else ParsePrimary(ts)
  }

  function ParsePrimary(ts: seq<Token>): (p: Parsed)
    ensures |p.rest| <= |ts|
    decreases |ts|, 0
  {
    match Peek(ts)
    case Number(n) => Parsed(Literal(n), ts[1..], true)
    case Name(name) =>
      Parsed(if IsAssignOp(Peek(ts[1..])) then Target(name) else Variable(name), ts[1..], true)
    case LParen =>
      var p := Parse(ASSIGN, ts[1..]);
      if !p.ok then Parsed(Paren(p.tree), p.rest, false)
      else if Peek(p.rest) != RParen then Parsed(Then(p.tree, "expecting ')'"), p.rest, false)
      else Parsed(Paren(p.tree), p.rest[1..], true)
    case _ => Parsed(Bad("expecting primary"), ts, false)
  }

  /** The whole text's tree. */
  function ParseRun(ts: seq<Token>): Parsed
  {
    var p := Parse(ASSIGN, ts);
    if p.ok && Peek(p.rest) != End then Parsed(Then(p.tree, "expecting EOF"), p.rest, false) else p
  }
}
