/** How the operators of hsh arithmetic group (HshArithmetic.cpp:200-372): the order of precedence C gives them. */
module PrecedenceLaws {
  import opened ArithLexer
  import opened ArithGrammar
  import opened GrammarLaws

  /** The binary operators from the loosest, 0, to the tightest. */
  predicate Binds(op: Token, strength: nat)
  {
    match strength
    case 0 => op == OrOr
    case 1 => op == AndAnd
    case 2 => op == Bar
    case 3 => op == Caret
    case 4 => op == Amp
    case 5 => op == EqEq || op == NotEq
    case 6 => op == Lt || op == Le || op == Gt || op == Ge
    case 7 => op == Shl || op == Shr
    case 8 => op == Plus || op == Minus
    case 9 => op == Star || op == Slash || op == Percent
    case _ => false
  }

  /** A number, a name, something in parentheses, or a unary operator with its operand. */
  predicate IsOperand(e: Expr)
  {
    Grammatical(e) && (e.Literal? || e.Variable? || e.Paren? || e.Unary?)
  }

  // ---- Trees and their tokens -----------------------------------------------------------------

  lemma StrengthIsLevel(op: Token, strength: nat)
    requires Binds(op, strength)
    ensures LevelOf(op) == strength + 2 <= 11
  {
    if strength < 6 {
      LooseIsLevel(op, strength);
    } else {
      TightIsLevel(op, strength);
    }
    hide Binds, LevelOf;
  }

  lemma LooseIsLevel(op: Token, strength: nat)
    requires Binds(op, strength) && strength < 6
    ensures LevelOf(op) == strength + 2
  {
  }

  lemma TightIsLevel(op: Token, strength: nat)
    requires Binds(op, strength) && strength >= 6
    ensures LevelOf(op) == strength + 2 <= 11
  {
  }

  lemma OperandIs(e: Expr)
    requires IsOperand(e)
    ensures Grammatical(e) && Rank(e) >= 12
  {
  }

  lemma BinaryIs(o: Token, i: nat, x: Expr, y: Expr)
    requires Binds(o, i) && Grammatical(x) && Grammatical(y) && Rank(x) >= i + 2 && Rank(y) > i + 2
    ensures var e := Binary(o, x, y); Grammatical(e) && Rank(e) == i + 2 && Yield(e) == Yield(x) + [o] + Yield(y)
  {
    StrengthIsLevel(o, i);
    hide Binds, LevelOf;
  }

  lemma UnaryIs(u: Token, x: Expr)
    requires u in {Plus, Minus, Tilde, Bang} && Grammatical(x) && Rank(x) >= 12
    ensures var e := Unary(u, x); Grammatical(e) && Rank(e) >= 12 && Yield(e) == [u] + Yield(x)
  {
  }

  lemma ConditionalIsTree(x: Expr, y: Expr, z: Expr)
    requires Grammatical(x) && Grammatical(y) && Grammatical(z) && Rank(x) >= 2
    ensures var e := Conditional(x, y, z);
            Grammatical(e) && Yield(e) == Yield(x) + [Question] + Yield(y) + [Colon] + Yield(z)
  {
  }

  lemma AssignmentIs(a: Token, m: string, x: Expr)
    requires Assigns(a) && m != "" && Grammatical(x)
    ensures var e := Assignment(a, Target(m), x); Grammatical(e) && Yield(e) == [Name(m), a] + Yield(x)
  {
    assert [Name(m)] + [a] == [Name(m), a];
  }

  lemma Built(e: Expr, ts: seq<Token>)
    requires Grammatical(e) && Yield(e) + [End] == ts
    ensures ParseRun(ts).tree == e
  {
    assert Reads(e, ts);
    hide *;
    ReadIsBuilt(ts, e);
  }

  lemma Joined(a: seq<Token>, b: seq<Token>, c: seq<Token>, d: seq<Token>, e: seq<Token>)
    ensures a + b + c + d + e == a + b + (c + d + e)
  {
  }

  // ---- The laws -------------------------------------------------------------------------------

  /** Of two binary operators the tighter one groups first; equally tight ones group to the left. */
  lemma TighterGroupsFirst(o: Token, i: nat, p: Token, j: nat, x: Expr, y: Expr, z: Expr)
    requires Binds(o, i) && Binds(p, j) && IsOperand(x) && IsOperand(y) && IsOperand(z)
    ensures ParseRun(Yield(x) + [o] + Yield(y) + [p] + Yield(z) + [End]).tree ==
              if i >= j then Binary(p, Binary(o, x, y), z) else Binary(o, x, Binary(p, y, z))
  {
    hide *;
    StrengthIsLevel(o, i);
    StrengthIsLevel(p, j);
    OperandIs(x);
    OperandIs(y);
    OperandIs(z);
    if i >= j {
      BinaryIs(o, i, x, y);
      BinaryIs(p, j, Binary(o, x, y), z);
      Built(Binary(p, Binary(o, x, y), z), Yield(x) + [o] + Yield(y) + [p] + Yield(z) + [End]);
    } else {
      BinaryIs(p, j, y, z);
      BinaryIs(o, i, x, Binary(p, y, z));
      Joined(Yield(x), [o], Yield(y), [p], Yield(z));
      Built(Binary(o, x, Binary(p, y, z)), Yield(x) + [o] + Yield(y) + [p] + Yield(z) + [End]);
    }
  }

  /** A unary operator groups before any binary one, and unary operators from the right. */
  lemma UnaryGroupsFirst(u: Token, v: Token, o: Token, i: nat, x: Expr, y: Expr)
    requires u in {Plus, Minus, Tilde, Bang} && v in {Plus, Minus, Tilde, Bang} && Binds(o, i) && IsOperand(x) && IsOperand(y)
    ensures ParseRun([u] + ([v] + Yield(x)) + [o] + ([u] + Yield(y)) + [End]).tree ==
              Binary(o, Unary(u, Unary(v, x)), Unary(u, y))
  {
    hide *;
    StrengthIsLevel(o, i);
    OperandIs(x);
    OperandIs(y);
    UnaryIs(v, x);
    UnaryIs(u, Unary(v, x));
    UnaryIs(u, y);
    BinaryIs(o, i, Unary(u, Unary(v, x)), Unary(u, y));
    Built(Binary(o, Unary(u, Unary(v, x)), Unary(u, y)), [u] + ([v] + Yield(x)) + [o] + ([u] + Yield(y)) + [End]);
  }

  /** ?: groups after every binary operator. */
  lemma ConditionalGroupsLate(o: Token, i: nat, x: Expr, y: Expr, z: Expr, w: Expr)
    requires Binds(o, i) && IsOperand(x) && IsOperand(y) && IsOperand(z) && IsOperand(w)
    ensures ParseRun((Yield(x) + [o] + Yield(y)) + [Question] + Yield(z) + [Colon] + (Yield(w) + [o] + Yield(z)) + [End]).tree ==
              Conditional(Binary(o, x, y), z, Binary(o, w, z))
  {
    hide *;
    StrengthIsLevel(o, i);
    OperandIs(x);
    OperandIs(y);
    OperandIs(z);
    OperandIs(w);
    BinaryIs(o, i, x, y);
    BinaryIs(o, i, w, z);
    ConditionalIsTree(Binary(o, x, y), z, Binary(o, w, z));
    Built(Conditional(Binary(o, x, y), z, Binary(o, w, z)),
          (Yield(x) + [o] + Yield(y)) + [Question] + Yield(z) + [Colon] + (Yield(w) + [o] + Yield(z)) + [End]);
  }

  /** Of two ?: the second is the first one's last operand, and one between ? and : its second. */
  lemma ConditionalGroupsRight(x: Expr, y: Expr, z: Expr, w: Expr)
    requires IsOperand(x) && IsOperand(y) && IsOperand(z) && IsOperand(w)
    ensures ParseRun(Yield(x) + [Question] + Yield(y) + [Colon]
                     + (Yield(z) + [Question] + Yield(w) + [Colon] + Yield(x)) + [End]).tree ==
              Conditional(x, y, Conditional(z, w, x))
    ensures ParseRun(Yield(x) + [Question] + (Yield(z) + [Question] + Yield(w) + [Colon] + Yield(x))
                     + [Colon] + Yield(y) + [End]).tree ==
              Conditional(x, Conditional(z, w, x), y)
  {
    hide *;
    OperandIs(x);
    OperandIs(y);
    OperandIs(z);
    OperandIs(w);
    ConditionalIsTree(z, w, x);
    ConditionalIsTree(x, y, Conditional(z, w, x));
    ConditionalIsTree(x, Conditional(z, w, x), y);
    Built(Conditional(x, y, Conditional(z, w, x)),
          Yield(x) + [Question] + Yield(y) + [Colon] + (Yield(z) + [Question] + Yield(w) + [Colon] + Yield(x)) + [End]);
    Built(Conditional(x, Conditional(z, w, x), y),
          Yield(x) + [Question] + (Yield(z) + [Question] + Yield(w) + [Colon] + Yield(x)) + [Colon] + Yield(y) + [End]);
  }

  predicate Assigns(a: Token)
  {
    a in {Assign, PlusEq, MinusEq, StarEq, SlashEq, PercentEq, ShlEq, ShrEq, AndEq, XorEq, OrEq}
  }

  /** An assignment groups last and to the right. */
  lemma AssignmentGroupsLast(a: Token, b: Token, o: Token, i: nat, m: string, n: string, x: Expr, y: Expr)
    requires Assigns(a) && Assigns(b) && Binds(o, i) && m != "" && n != "" && IsOperand(x) && IsOperand(y)
    ensures ParseRun([Name(m), a] + ([Name(n), b] + (Yield(x) + [o] + Yield(y))) + [End]).tree ==
              Assignment(a, Target(m), Assignment(b, Target(n), Binary(o, x, y)))
  {
    hide *;
    StrengthIsLevel(o, i);
    OperandIs(x);
    OperandIs(y);
    BinaryIs(o, i, x, y);
    AssignmentIs(b, n, Binary(o, x, y));
    AssignmentIs(a, m, Assignment(b, Target(n), Binary(o, x, y)));
    Built(Assignment(a, Target(m), Assignment(b, Target(n), Binary(o, x, y))),
          [Name(m), a] + ([Name(n), b] + (Yield(x) + [o] + Yield(y))) + [End]);
  }

  /** What is assigned may be a ?:, and an assignment may stand in either branch of one. */
  lemma BranchesMayAssign(a: Token, b: Token, m: string, n: string, x: Expr, y: Expr)
    requires Assigns(a) && Assigns(b) && m != "" && n != "" && IsOperand(x) && IsOperand(y)
    ensures ParseRun([Name(m), a] + (Yield(x) + [Question] + ([Name(m), a] + Yield(y)) + [Colon] + ([Name(n), b] + Yield(x)))
                     + [End]).tree ==
              Assignment(a, Target(m), Conditional(x, Assignment(a, Target(m), y), Assignment(b, Target(n), x)))
  {
    hide *;
    OperandIs(x);
    OperandIs(y);
    var (yes, no) := (Assignment(a, Target(m), y), Assignment(b, Target(n), x));
    AssignmentIs(a, m, y);
    AssignmentIs(b, n, x);
    ConditionalIsTree(x, yes, no);
    AssignmentIs(a, m, Conditional(x, yes, no));
    Built(Assignment(a, Target(m), Conditional(x, yes, no)),
          [Name(m), a] + (Yield(x) + [Question] + ([Name(m), a] + Yield(y)) + [Colon] + ([Name(n), b] + Yield(x))) + [End]);
  }
}
