/**
 The single pass of hsh arithmetic (class ArithmeticParser, HshArithmetic.cpp:140-440): it evaluates
 while it parses. Each method is proved to do what parsing to a tree and then evaluating that tree does.
 */
module ArithParser {
  import opened Basics
  import opened Int64
  import opened ArithLexer
  import opened ArithGrammar
  import opened ArithEval
  import opened GrammarLaws

  /** What a method returns, or the ShellError it throws. */
  datatype Attempt = Returned(value: intmax, lvalue: string) | Threw(error: Error)

  /** The value of a part that is not evaluated: a number's own, whatever stands in the variables. */
  function Unevaluated(e: Expr): intmax
  {
    match e
    case Literal(n) => n
    case Paren(inner) => Unevaluated(inner)
    case Unary(op, operand) => if op == Plus then Unevaluated(operand) else 0
    case _ => 0
  }

  /**
   The method did what the tree means: the same value, lvalue, tokens left and variables, or the same
   error and variables; when it is not evaluating, the value is that of the tree alone, only the tokens
   move and only a syntax error is met.
   */
  predicate Follows(p: Parsed, evaluating: bool, before: Store, r: Attempt, rest: seq<Token>, after: Store)
  {
    match EvalIf(evaluating, p.tree, before)
    case Value(v, s) =>
      && p.ok && r.Returned? && r.value == (if evaluating then v else Unevaluated(p.tree)) && r.lvalue == LName(p.tree)
      && rest == p.rest && after == s
    case Failed(error, s) => r == Threw(error) && after == s
  }

  // ---- How the parts of a tree follow one another -----------------------------------------------

  lemma LeftFails(op: Token, l: Expr, r: Expr, evaluating: bool, before: Store)
    requires EvalIf(evaluating, l, before).Failed?
    ensures EvalIf(evaluating, Binary(op, l, r), before) == EvalIf(evaluating, l, before)
  {
  }

  lemma {:induction false} TailFails(level: nat, lhs: Expr, ts: seq<Token>, evaluating: bool, before: Store)
    requires LOGICAL_OR <= level <= MULTIPLICATIVE && EvalIf(evaluating, lhs, before).Failed?
    ensures EvalIf(evaluating, Tail(level, lhs, ts).tree, before) == EvalIf(evaluating, lhs, before)
    decreases |ts|
  {
    hide EvalIf;
    if LevelOf(Peek(ts)) == level {
      var rhs := Parse(level + 1, ts[1..]);
      LeftFails(ts[0], lhs, rhs.tree, evaluating, before);
      if rhs.ok {
        TailFails(level, Binary(ts[0], lhs, rhs.tree), rhs.rest, evaluating, before);
      }
    }
  }

  lemma TailTurn(level: nat, lhs: Expr, ts: seq<Token>)
    requires LOGICAL_OR <= level <= MULTIPLICATIVE && LevelOf(Peek(ts)) == level
    ensures var right := Parse(level + 1, ts[1..]);
            var tree := Binary(ts[0], lhs, right.tree);
            Tail(level, lhs, ts) == if right.ok then Tail(level, tree, right.rest) else Parsed(tree, right.rest, false)
  {
  }

  lemma BinaryLevelIs(level: nat, ts: seq<Token>)
    requires LOGICAL_OR <= level <= MULTIPLICATIVE
    ensures var first := Parse(level + 1, ts);
            Parse(level, ts) == if first.ok then Tail(level, first.tree, first.rest) else first
  {
  }

  lemma ReturnedIsOk(p: Parsed, evaluating: bool, before: Store, r: Attempt, rest: seq<Token>, after: Store)
    requires Follows(p, evaluating, before, r, rest, after) && r.Returned?
    ensures p == Parsed(p.tree, rest, true)
  {
    hide EvalIf;
  }

  /** An operator with a value has a right-hand side that is read to its end. */
  lemma OperandIsOk(op: Token, evaluating: bool, a: intmax, right: Parsed, evaluate: bool, before: Store,
                    r: Attempt, rest: seq<Token>, after: Store)
    requires Follows(right, evaluate, before, r, rest, after)
    ensures Operated(op, evaluating, a, r).Returned? ==> right == Parsed(right.tree, rest, true)
  {
    hide EvalIf, Combine;
  }

  lemma ConditionalLevelIs(ts: seq<Token>)
    ensures Parse(CONDITIONAL, ts) == ParseConditional(Parse(LOGICAL_OR, ts))
  {
  }

  lemma NoQuestionNoTernary(c: Parsed)
    requires Peek(c.rest) != Question
    ensures ParseConditional(c) == c
  {
  }

  lemma AssignLevelIs(ts: seq<Token>)
    ensures Parse(ASSIGN, ts) == ParseAssign(Parse(CONDITIONAL, ts))
  {
  }

  /** What ParseAssign does after its left-hand side. */
  lemma AssignIs(lhs: Parsed)
    requires lhs.ok
    ensures ParseAssign(lhs) ==
            if !IsAssignOp(Peek(lhs.rest)) || LName(lhs.tree) == "" then lhs
            else
              var right := Parse(ASSIGN, lhs.rest[1..]);
              Parsed(Assignment(lhs.rest[0], lhs.tree, right.tree), right.rest, right.ok)
  {
    hide Parse;
  }

  lemma LvalueIs(p: Parsed, evaluating: bool, before: Store, r: Attempt, rest: seq<Token>, after: Store)
    requires Follows(p, evaluating, before, r, rest, after) && r.Returned?
    ensures r.lvalue == LName(p.tree)
  {
    hide EvalIf;
  }

  lemma TailEnds(level: nat, lhs: Expr, ts: seq<Token>)
    requires LOGICAL_OR <= level <= MULTIPLICATIVE && LevelOf(Peek(ts)) != level
    ensures Tail(level, lhs, ts) == Parsed(lhs, ts, true)
  {
  }

  /** An error in an operand is the error of the whole chain. */
  lemma TailThrows(level: nat, p: Parsed, evaluating: bool, before: Store, r: Attempt, rest: seq<Token>, after: Store)
    requires LOGICAL_OR <= level <= MULTIPLICATIVE
    requires Follows(p, evaluating, before, r, rest, after) && r.Threw? && p.ok
    ensures Follows(Tail(level, p.tree, p.rest), evaluating, before, r, rest, after)
  {
    hide EvalIf, Tail;
    TailFails(level, p.tree, p.rest, evaluating, before);
  }

  /** What an operator makes of its operands' results. */
  function Operated(op: Token, evaluating: bool, a: intmax, right: Attempt): Attempt
  {
    if right.Threw? then right
    else if !evaluating then Returned(0, "")
    else match Combine(op, a, right.value)
      case None => Threw(DIVISION_BY_ZERO)
      case Some(v) => Returned(v, "")
  }

  lemma BinaryFollows(op: Token, l: Expr, right: Parsed, evaluating: bool, before: Store,
                      lhs: Attempt, middle: seq<Token>, s: Store, rhs: Attempt, rest: seq<Token>, after: Store)
    requires Follows(Parsed(l, middle, true), evaluating, before, lhs, middle, s) && lhs.Returned?
    requires Follows(right, evaluating && GoesOn(op, lhs.value), s, rhs, rest, after)
    ensures Follows(Parsed(Binary(op, l, right.tree), right.rest, right.ok), evaluating, before,
                    Operated(op, evaluating, lhs.value, rhs), rest, after)
  {
    hide Combine;
    var e := Binary(op, l, right.tree);
    if evaluating {
      assert Eval(l, before) == Value(lhs.value, s);
      assert Eval(e, before) == Operate(op, lhs.value, EvalIf(GoesOn(op, lhs.value), right.tree, s));
      if !GoesOn(op, lhs.value) && rhs.Returned? {
        SkippedValue(op, lhs.value, rhs);
      }
    }
  }

  /** A skipped operand's value, whatever it is, makes no difference. */
  lemma SkippedValue(op: Token, a: intmax, right: Attempt)
    requires !GoesOn(op, a) && right.Returned?
    ensures Operated(op, true, a, right) == Operated(op, true, a, Returned(0, ""))
  {
  }

  lemma UnaryFollows(op: Token, p: Parsed, evaluating: bool, before: Store, r: Attempt, rest: seq<Token>, after: Store)
    requires Follows(p, evaluating, before, r, rest, after)
    ensures Follows(Parsed(Unary(op, p.tree), p.rest, p.ok), evaluating, before,
                    if r.Threw? || op == Plus then r else Returned(if evaluating then Mapped(op, r.value) else 0, ""),
                    rest, after)
  {
    hide Mapped;
    var e := Unary(op, p.tree);
    assert evaluating && Eval(p.tree, before).Value? ==>
        Eval(e, before) == Value(Mapped(op, Eval(p.tree, before).value), Eval(p.tree, before).store);
    assert evaluating && Eval(p.tree, before).Failed? ==> Eval(e, before) == Eval(p.tree, before);
    assert evaluating && op == Plus && r.Returned? ==> Mapped(op, r.value) == r.value by { PlusKeeps(op); }
  }

  lemma PlusKeeps(op: Token)
    ensures op == Plus ==> forall v :: Mapped(op, v) == v
  {
  }

  lemma ParenFollows(p: Parsed, evaluating: bool, before: Store, r: Attempt, rest: seq<Token>, after: Store)
    requires Follows(p, evaluating, before, r, rest, after)
    ensures r.Threw? ==> Follows(Parsed(Paren(p.tree), p.rest, p.ok), evaluating, before, r, rest, after)
    ensures r.Threw? && p.ok ==> Follows(Parsed(Then(p.tree, "expecting ')'"), p.rest, false), evaluating, before, r, rest, after)
    ensures r.Returned? && Peek(rest) != RParen ==>
              Follows(Parsed(Then(p.tree, "expecting ')'"), p.rest, false), evaluating, before,
                      Threw(Arithmetic("expecting ')'")), rest, after)
    ensures r.Returned? && Peek(rest) == RParen ==>
              Follows(Parsed(Paren(p.tree), rest[1..], true), evaluating, before, Returned(r.value, ""), rest[1..], after)
  {
    var (paren, open) := (Paren(p.tree), Then(p.tree, "expecting ')'"));
    assert Eval(paren, before) == Eval(p.tree, before);
    assert Eval(open, before) == if Eval(p.tree, before).Failed? then Eval(p.tree, before)
                                 else Failed(Arithmetic("expecting ')'"), Eval(p.tree, before).store);
  }

  lemma AssignThrows(lhs: Parsed, evaluating: bool, before: Store, r: Attempt, rest: seq<Token>, after: Store)
    requires Follows(lhs, evaluating, before, r, rest, after) && r.Threw?
    ensures Follows(ParseAssign(lhs), evaluating, before, r, rest, after)
  {
    hide Parse, AssignTo;
    var e := ParseAssign(lhs).tree;
    assert evaluating ==> Eval(e, before) == Eval(lhs.tree, before);
  }

  /** What an assignment makes of its right-hand side's result. */
  predicate IsAssigned(op: Token, name: string, evaluating: bool, right: Attempt, s: Store, r: Attempt, after: Store)
  {
    if right.Threw? then r == right && after == s
    else if !evaluating then r == Returned(0, "") && after == s
    else
      var o := AssignTo(op, name, Value(right.value, s));
      after == o.store && r == if o.Failed? then Threw(o.error) else Returned(o.value, "")
  }

  lemma AssignedIs(op: Token, name: string, evaluating: bool, right: Attempt, s: Store, r: Attempt, after: Store)
    requires right.Threw? ==> r == right && after == s
    requires right.Returned? && !evaluating ==> r == Returned(0, "") && after == s
    requires right.Returned? && evaluating ==>
               var o := AssignTo(op, name, Value(right.value, s));
               after == o.store && r == if o.Failed? then Threw(o.error) else Returned(o.value, "")
    ensures IsAssigned(op, name, evaluating, right, s, r, after)
  {
    hide AssignTo;
  }

  lemma AssignmentFollows(op: Token, l: Expr, right: Parsed, evaluating: bool, before: Store, lhs: Attempt,
                          middle: seq<Token>, s: Store, rhs: Attempt, rest: seq<Token>, s1: Store, r: Attempt, after: Store)
    requires Follows(Parsed(l, middle, true), evaluating, before, lhs, middle, s) && lhs.Returned?
    requires Follows(right, evaluating, s, rhs, rest, s1)
    requires IsAssigned(op, LName(l), evaluating, rhs, s1, r, after)
    ensures Follows(Parsed(Assignment(op, l, right.tree), right.rest, right.ok), evaluating, before, r, rest, after)
  {
    hide AssignTo;
    if evaluating {
      hide LName;
      assert Eval(Assignment(op, l, right.tree), before) == AssignTo(op, LName(l), Eval(right.tree, s));
      if rhs.Threw? {
        ThrownIsNotAssigned(op, LName(l), Eval(right.tree, s));
      }
    }
  }

  lemma ThrownIsNotAssigned(op: Token, name: string, right: Outcome)
    requires right.Failed?
    ensures AssignTo(op, name, right) == right
  {
  }

  lemma ConditionalThrows(c: Parsed, evaluating: bool, before: Store, r: Attempt, rest: seq<Token>, after: Store)
    requires Follows(c, evaluating, before, r, rest, after) && r.Threw?
    ensures Follows(ParseConditional(c), evaluating, before, r, rest, after)
  {
    hide Parse;
    var e := ParseConditional(c).tree;
    assert evaluating ==> Eval(e, before) == Eval(c.tree, before);
  }

  lemma TernaryIs(c: Parsed, t: Parsed)
    requires c.ok && Peek(c.rest) == Question && t == Parse(ASSIGN, c.rest[1..])
    ensures ParseConditional(c) ==
            if !t.ok then Parsed(Conditional(c.tree, t.tree, Literal(0)), t.rest, false)
            else if Peek(t.rest) != Colon then
              Parsed(Conditional(c.tree, Then(t.tree, "expecting ':'"), Literal(0)), t.rest, false)
            else
              var f := Parse(ASSIGN, t.rest[1..]);
              Parsed(Conditional(c.tree, t.tree, f.tree), f.rest, f.ok)
  {
    hide Parse;
  }

  lemma ParenIs(ts: seq<Token>, p: Parsed)
    requires Peek(ts) == LParen && p == Parse(ASSIGN, ts[1..])
    ensures ParsePrimary(ts) ==
            if !p.ok then Parsed(Paren(p.tree), p.rest, false)
            else if Peek(p.rest) != RParen then Parsed(Then(p.tree, "expecting ')'"), p.rest, false)
            else Parsed(Paren(p.tree), p.rest[1..], true)
  {
    hide Parse;
  }

  /** The ternary up to its colon; what stands after it does not matter when that fails. */
  lemma ThenFollows(c: Parsed, t: Parsed, f: Expr, evaluating: bool, before: Store,
                    condition: Attempt, middle: seq<Token>, s: Store, yes: Attempt, rest: seq<Token>, s1: Store)
    requires Follows(c, evaluating, before, condition, middle, s) && condition.Returned?
    requires Follows(t, evaluating && condition.value != 0, s, yes, rest, s1) && yes.Threw?
    ensures EvalIf(evaluating, Conditional(c.tree, t.tree, f), before) == Failed(yes.error, s1)
  {
    if evaluating {
      assert Eval(c.tree, before) == Value(condition.value, s);
    }
  }

  /** A missing colon is met after the operand before it. */
  lemma ColonMissing(t: Parsed, evaluate: bool, s: Store, yes: Attempt, rest: seq<Token>, s1: Store)
    requires Follows(t, evaluate, s, yes, rest, s1)
    ensures Follows(Parsed(Then(t.tree, "expecting ':'"), t.rest, false), evaluate, s,
                    if yes.Threw? then yes else Threw(Arithmetic("expecting ':'")), rest, s1)
  {
    var e := Then(t.tree, "expecting ':'");
    assert Eval(e, s) == if Eval(t.tree, s).Failed? then Eval(t.tree, s)
                         else Failed(Arithmetic("expecting ':'"), Eval(t.tree, s).store);
  }

  /** The ternary ends at its first operand's error, or at the colon it lacks. */
  lemma TernaryThrows(c: Parsed, t: Parsed, evaluating: bool, before: Store,
                      condition: Attempt, middle: seq<Token>, s: Store, yes: Attempt, rest: seq<Token>, s1: Store)
    requires c.ok && Peek(c.rest) == Question && t == Parse(ASSIGN, c.rest[1..])
    requires Follows(c, evaluating, before, condition, middle, s) && condition.Returned?
    requires Follows(t, evaluating && condition.value != 0, s, yes, rest, s1)
    requires yes.Threw? || Peek(rest) != Colon
    ensures Follows(ParseConditional(c), evaluating, before,
                    if yes.Threw? then yes else Threw(Arithmetic("expecting ':'")), rest, s1)
  {
    TernaryIs(c, t);
    var evaluate := evaluating && condition.value != 0;
    var open := Parsed(Then(t.tree, "expecting ':'"), t.rest, false);
    var r := if yes.Threw? then yes else Threw(Arithmetic("expecting ':'"));
    ColonMissing(t, evaluate, s, yes, rest, s1);
    assert yes.Returned? ==> t.ok && t.rest == rest;
    hide EvalIf, LName, Parse, ParseConditional;
    if t.ok && Peek(t.rest) != Colon {
      ThenFollows(c, open, Literal(0), evaluating, before, condition, middle, s, r, rest, s1);
    } else {
      ThenFollows(c, t, if t.ok then Parse(ASSIGN, t.rest[1..]).tree else Literal(0), evaluating, before,
                  condition, middle, s, r, rest, s1);
    }
  }

  lemma ElseFollows(c: Parsed, t: Parsed, f: Parsed, evaluating: bool, before: Store, condition: Attempt, middle: seq<Token>,
                    s: Store, yes: Attempt, middle1: seq<Token>, s1: Store, no: Attempt, rest: seq<Token>, after: Store)
    requires Follows(c, evaluating, before, condition, middle, s) && condition.Returned?
    requires Follows(t, evaluating && condition.value != 0, s, yes, middle1, s1) && yes.Returned?
    requires Follows(f, evaluating && condition.value == 0, s1, no, rest, after)
    ensures Follows(Parsed(Conditional(c.tree, t.tree, f.tree), f.rest, f.ok), evaluating, before,
                    if no.Threw? then no
                    else Returned(if !evaluating then 0 else if condition.value != 0 then yes.value else no.value, ""),
                    rest, after)
  {
    var e := Conditional(c.tree, t.tree, f.tree);
    if evaluating {
      assert Eval(c.tree, before) == Value(condition.value, s);
      var o := EvalIf(condition.value == 0, f.tree, s1);
      assert EvalIf(condition.value != 0, t.tree, s).store == s1;
      assert o.Failed? ==> Eval(e, before) == o;
    }
  }

  // ---- The parser -------------------------------------------------------------------------------

  class ArithmeticParser {
    const tokens: seq<Token>
    var pos: nat
    var evaluating: bool
    var variables: Store

    ghost predicate Valid()
      reads this
    {
      Terminated(tokens) && pos < |tokens|
    }

    /** The tokens left. */
    function Rest(): seq<Token>
      requires pos <= |tokens|
      reads this
    {
      tokens[pos..]
    }

    constructor (expression: string, store: Store)
      ensures Valid() && Rest() == TokensOf(expression) && evaluating && variables == store
    {
      hide TokensOf;
      tokens := TokensOf(expression);
      pos, evaluating, variables := 0, true, store;
      EndIsLast(expression);
    }

    function PeekToken(): (t: Token)
      requires Valid()
      reads this
      ensures t == Peek(Rest())
    {
      tokens[pos]
    }

    method Next() returns (t: Token)
      requires Valid() && PeekToken() != End
      modifies this`pos
      ensures Valid() && pos == old(pos) + 1
      ensures t == old(Rest())[0] && Rest() == old(Rest())[1..]
    {
      t := tokens[pos];
      pos := pos + 1;
    }

    /** The descent for a precedence level from the ternary down. */
    method ParseLevel(level: nat) returns (r: Attempt)
      requires Valid() && CONDITIONAL < level <= UNARY
      modifies this`pos, this`evaluating, this`variables
      ensures Valid() && evaluating == old(evaluating) && pos >= old(pos)
      ensures Follows(Parse(level, old(Rest())), evaluating, old(variables), r, Rest(), variables)
      decreases |tokens| - pos, 14 - level, 1
    {
      if level == UNARY {
        r := ParseUnary();
      } else {
        r := ParseBinary(level);
      }
    }

    /** Parses with evaluation on or off, and puts the flag back whichever way the parse ends. */
    method WithEvaluation(evaluate: bool, level: nat) returns (r: Attempt)
      requires Valid() && level <= UNARY && level != CONDITIONAL
      modifies this`pos, this`evaluating, this`variables
      ensures Valid() && evaluating == old(evaluating) && pos >= old(pos)
      ensures Follows(Parse(level, old(Rest())), evaluate, old(variables), r, Rest(), variables)
      decreases |tokens| - pos, 14 - level, 2
    {
      var saved := evaluating;
      evaluating := evaluate;
      if level == ASSIGN {
        r := ParseAssign();
      } else {
        r := ParseLevel(level);
      }
      evaluating := saved;
    }

    /** The loop shared by the ten levels of binary operators. */
    method ParseBinary(level: nat) returns (lhs: Attempt)
      requires Valid() && LOGICAL_OR <= level <= MULTIPLICATIVE
      modifies this`pos, this`evaluating, this`variables
      ensures Valid() && evaluating == old(evaluating) && pos >= old(pos)
      ensures Follows(Parse(level, old(Rest())), evaluating, old(variables), lhs, Rest(), variables)
      decreases |tokens| - pos, 14 - level, 0
    {
      hide EvalIf, Combine, LName, Parse, Tail, Operated, GoesOn, Terminated, Follows;
      ghost var ts, before := Rest(), variables;
      ghost var first := Parse(level + 1, ts);
      ghost var tree := first.tree;
      BinaryLevelIs(level, ts);
      lhs := ParseLevel(level + 1);
      if lhs.Threw? {
        if first.ok {
          TailThrows(level, first, evaluating, before, lhs, Rest(), variables);
        }
        return;
      }
      ReturnedIsOk(first, evaluating, before, lhs, Rest(), variables);
      while LevelOf(PeekToken()) == level
        invariant Valid() && evaluating == old(evaluating) && pos >= old(pos) && lhs.Returned?
        invariant Follows(Parsed(tree, Rest(), true), evaluating, before, lhs, Rest(), variables)
        invariant Tail(level, tree, Rest()) == Parse(level, ts)
        decreases |tokens| - pos
      {
        ghost var left, s := Rest(), variables;
        var op := Next();
        ghost var right := Parse(level + 1, Rest());
        var rhs := WithEvaluation(evaluating && GoesOn(op, lhs.value), level + 1);
        BinaryFollows(op, tree, right, evaluating, before, lhs, left, s, rhs, Rest(), variables);
        TailTurn(level, tree, left);
        OperandIsOk(op, evaluating, lhs.value, right, evaluating && GoesOn(op, lhs.value), s, rhs, Rest(), variables);
        lhs := Operated(op, evaluating, lhs.value, rhs);
        tree := Binary(op, tree, right.tree);
        if lhs.Threw? {
          if right.ok {
            TailThrows(level, Parsed(tree, right.rest, true), evaluating, before, lhs, Rest(), variables);
          }
          return;
        }
      }
      TailEnds(level, tree, Rest());
    }

    /** Assignment is right associative, and allowed only to a name no operator but + stands before. */
    method ParseAssign() returns (lhs: Attempt)
      requires Valid()
      modifies this`pos, this`evaluating, this`variables
      ensures Valid() && evaluating == old(evaluating) && pos >= old(pos)
      ensures Follows(Parse(ASSIGN, old(Rest())), evaluating, old(variables), lhs, Rest(), variables)
      decreases |tokens| - pos, 14, 1
    {
      hide EvalIf, AssignTo, Parse, ArithGrammar.ParseAssign, LName, Terminated, Follows, IsAssigned;
      ghost var ts, before := Rest(), variables;
      ghost var left := Parse(CONDITIONAL, ts);
      AssignLevelIs(ts);
      lhs := ParseConditional();
      if lhs.Threw? {
        AssignThrows(left, evaluating, before, lhs, Rest(), variables);
        return;
      }
      ReturnedIsOk(left, evaluating, before, lhs, Rest(), variables);
      LvalueIs(left, evaluating, before, lhs, Rest(), variables);
      AssignIs(left);
      if !IsAssignOp(PeekToken()) || lhs.lvalue == "" {
        return;
      }
      ghost var middle, s, target := Rest(), variables, lhs;
      var op := Next();
      var name := lhs.lvalue;
      ghost var right := Parse(ASSIGN, Rest());
      var rhs := ParseAssign();
      ghost var s1 := variables;
      if rhs.Threw? {
        lhs := rhs;
      } else if !evaluating {
        lhs := Returned(0, "");
      } else {
        lhs := AssignValue(op, name, rhs.value);
      }
      AssignedIs(op, name, evaluating, rhs, s1, lhs, variables);
      AssignmentFollows(op, left.tree, right, evaluating, before, target, middle, s, rhs, Rest(), s1, lhs, variables);
    }

    /** What an assignment does once its right-hand side has a value. */
    method AssignValue(op: Token, name: string, value: intmax) returns (r: Attempt)
      requires evaluating
      modifies this`variables
      ensures var o := AssignTo(op, name, Value(value, old(variables)));
              variables == o.store && r == if o.Failed? then Threw(o.error) else Returned(o.value, "")
    {
      var result := value;
      if op != Assign {
        var stored := ReadVariable(name);
        if stored.Threw? {
          return stored;
        }
        var combined := Combine(Underlying(op), stored.value, value);
        if combined == None {
          return Threw(DIVISION_BY_ZERO);
        }
        result := combined.value;
      }
      if name in variables.readOnly {
        return Threw(IsReadOnly(name));
      }
      variables := variables.(values := variables.values[name := Decimal(result)]);
      r := Returned(result, "");
    }

    method ParseConditional() returns (r: Attempt)
      requires Valid()
      modifies this`pos, this`evaluating, this`variables
      ensures Valid() && evaluating == old(evaluating) && pos >= old(pos)
      ensures Follows(Parse(CONDITIONAL, old(Rest())), evaluating, old(variables), r, Rest(), variables)
      decreases |tokens| - pos, 13, 1
    {
      ghost var ts, before := Rest(), variables;
      ghost var c := Parse(LOGICAL_OR, ts);
      hide EvalIf, LName, Terminated, Parse, ArithGrammar.ParseConditional, Follows;
      ConditionalLevelIs(ts);
      var condition := ParseLevel(LOGICAL_OR);
      if condition.Threw? {
        ConditionalThrows(c, evaluating, before, condition, Rest(), variables);
        return condition;
      }
      ReturnedIsOk(c, evaluating, before, condition, Rest(), variables);
      if PeekToken() != Question {
        NoQuestionNoTernary(c);
        return condition;
      }
      r := ParseBranches(condition, c, before);
    }

    /** The two branches of a ternary whose '?' is next. */
    method ParseBranches(condition: Attempt, ghost c: Parsed, ghost before: Store) returns (r: Attempt)
      requires Valid() && PeekToken() == Question && c == Parsed(c.tree, Rest(), true)
      requires condition.Returned? && Follows(c, evaluating, before, condition, Rest(), variables)
      modifies this`pos, this`evaluating, this`variables
      ensures Valid() && evaluating == old(evaluating) && pos >= old(pos)
      ensures Follows(ArithGrammar.ParseConditional(c), evaluating, before, r, Rest(), variables)
      decreases |tokens| - pos, 13, 0
    {
      hide EvalIf, LName, Terminated, Parse, ArithGrammar.ParseConditional, Follows;
      ghost var middle, s := Rest(), variables;
      var question := Next();
      ghost var t := Parse(ASSIGN, Rest());
      var yes := WithEvaluation(evaluating && condition.value != 0, ASSIGN);
      ghost var middle1, s1 := Rest(), variables;
      TernaryIs(c, t);
      if yes.Threw? || PeekToken() != Colon {
        TernaryThrows(c, t, evaluating, before, condition, middle, s, yes, middle1, s1);
        return if yes.Threw? then yes else Threw(Arithmetic("expecting ':'"));
      }
      ReturnedIsOk(t, evaluating && condition.value != 0, s, yes, middle1, s1);
      var colon := Next();
      ghost var f := Parse(ASSIGN, Rest());
      var no := WithEvaluation(evaluating && condition.value == 0, ASSIGN);
      ElseFollows(c, t, f, evaluating, before, condition, middle, s, yes, middle1, s1, no, Rest(), variables);
      if no.Threw? {
        return no;
      }
      r := Returned(if !evaluating then 0 else if condition.value != 0 then yes.value else no.value, "");
    }

    method ParseUnary() returns (r: Attempt)
      requires Valid()
      modifies this`pos, this`evaluating, this`variables
      ensures Valid() && evaluating == old(evaluating) && pos >= old(pos)
      ensures Follows(ArithGrammar.ParseUnary(old(Rest())), evaluating, old(variables), r, Rest(), variables)
      decreases |tokens| - pos, 2, 0
    {
      if !IsUnaryOp(PeekToken()) {
        r := ParsePrimary();
        return;
      }
      var op := Next();
      ghost var p := ArithGrammar.ParseUnary(Rest());
      ghost var before := variables;
      r := ParseUnary();
      UnaryFollows(op, p, evaluating, before, r, Rest(), variables);
      if r.Returned? && op != Plus {
        r := Returned(if evaluating then Mapped(op, r.value) else 0, "");
      }
    }

    method ParsePrimary() returns (r: Attempt)
      requires Valid()
      modifies this`pos, this`evaluating, this`variables
      ensures Valid() && evaluating == old(evaluating) && pos >= old(pos)
      ensures Follows(ArithGrammar.ParsePrimary(old(Rest())), evaluating, old(variables), r, Rest(), variables)
      decreases |tokens| - pos, 1, 0
    {
      hide Terminated, IsAssignOp, VariableValue, Combine, Parse;
      ghost var p := ArithGrammar.ParsePrimary(Rest());
      var t := PeekToken();
      if t.Number? {
        assert p == Parsed(Literal(t.number), Rest()[1..], true);
        assert Eval(p.tree, variables) == Value(t.number, variables);
        t := Next();
        r := Returned(t.number, "");
      } else if t.Name? {
        r := ParseName(t.name);
      } else if t == LParen {
        r := ParseParen();
      } else {
        assert p == Parsed(Bad("expecting primary"), Rest(), false);
        assert Eval(p.tree, variables) == Failed(Arithmetic("expecting primary"), variables);
        r := Threw(Arithmetic("expecting primary"));
      }
    }

    /** A name, read unless an assignment operator follows it. */
    method ParseName(name: string) returns (r: Attempt)
      requires Valid() && PeekToken() == Name(name)
      modifies this`pos
      ensures Valid() && evaluating == old(evaluating) && pos >= old(pos)
      ensures Follows(ArithGrammar.ParsePrimary(old(Rest())), evaluating, old(variables), r, Rest(), variables)
    {
      hide Terminated, VariableValue, IsAssignOp, Parse;
      ghost var p := ArithGrammar.ParsePrimary(Rest());
      var token := Next();
      assert p == Parsed(if IsAssignOp(PeekToken()) then Target(name) else Variable(name), Rest(), true);
      if IsAssignOp(PeekToken()) {
        assert Eval(Target(name), variables) == Value(0, variables);
        return Returned(0, name);
      }
      r := ReadVariable(name);
      assert Eval(Variable(name), variables) == VariableValue(name, variables);
      if r.Returned? {
        r := Returned(r.value, name);
      }
      assert VariableValue(name, variables).store == variables by { ReadingKeeps(name, variables); }
    }

    method ParseParen() returns (r: Attempt)
      requires Valid() && PeekToken() == LParen
      modifies this`pos, this`evaluating, this`variables
      ensures Valid() && evaluating == old(evaluating) && pos >= old(pos)
      ensures Follows(ArithGrammar.ParsePrimary(old(Rest())), evaluating, old(variables), r, Rest(), variables)
      decreases |tokens| - pos, 0, 0
    {
      var open := Next();
      ghost var p := Parse(ASSIGN, Rest());
      ghost var before := variables;
      r := ParseAssign();
      ParenIs(old(Rest()), p);
      hide EvalIf, LName, Parse, Terminated, ArithGrammar.ParsePrimary;
      ParenFollows(p, evaluating, before, r, Rest(), variables);
      if r.Threw? {
        return;
      }
      if PeekToken() != RParen {
        return Threw(Arithmetic("expecting ')'"));
      }
      var close := Next();
      r := Returned(r.value, "");
    }

    /** The variable's value, 0 when it is not looked at. */
    method ReadVariable(name: string) returns (r: Attempt)
      ensures !evaluating ==> r == Returned(0, "")
      ensures evaluating ==> var o := VariableValue(name, variables);
                             r == if o.Failed? then Threw(o.error) else Returned(o.value, "")
    {
      hide StrToIMax, CString, BlankRun;
      if !evaluating || name !in variables.values || variables.values[name] == "" {
        return Returned(0, "");
      }
      var text := CString(variables.values[name]);
      var (value, read) := StrToIMax(text);
      if read == 0 {
        return Threw(IllegalNumber(variables.values[name]));
      }
      var end := SkipBlanks(text, read);
      if end < |text| {
        return Threw(IllegalNumber(variables.values[name]));
      }
      r := Returned(value, "");
    }

    /** Moves past the blanks. */
    method SkipBlanks(text: string, start: nat) returns (end: nat)
      requires start <= |text|
      ensures end == start + BlankRun(text[start..]) <= |text|
    {
      end := start;
      while end < |text| && IsBlank(text[end])
        invariant start <= end <= |text|
        invariant start + BlankRun(text[start..]) == end + BlankRun(text[end..])
      {
        assert text[end..][1..] == text[end + 1..];
        end := end + 1;
      }
    }

    /** The whole expression. */
    method Run() returns (r: Attempt)
      requires Valid() && evaluating
      modifies this`pos, this`evaluating, this`variables
      ensures var o := Eval(ParseRun(old(Rest())).tree, old(variables));
              variables == o.store && match o
                case Value(v, _) => r.Returned? && r.value == v
                case Failed(error, _) => r == Threw(error)
    {
      ghost var p := Parse(ASSIGN, Rest());
      ghost var before := variables;
      r := ParseAssign();
      assert Eval(p.tree, before).Failed? ==> Eval(Then(p.tree, "expecting EOF"), before) == Eval(p.tree, before);
      if r.Returned? && PeekToken() != End {
        return Threw(Arithmetic("expecting EOF"));
      }
    }
  }

  // ---- What a text means --------------------------------------------------------------------------

  /**
   A text that the grammar reads means what its one tree evaluates to; one it does not read fails,
   with that syntax error or with an error met before it.
   */
  lemma MeaningIsByTheGrammar(text: string, e: Expr, store: Store)
    ensures Reads(e, TokensOf(text)) ==> Meaning(text, store) == Eval(e, store)
    ensures (forall f :: !Reads(f, TokensOf(text))) ==> Meaning(text, store).Failed?
  {
    var ts := TokensOf(text);
    var tree := ParseRun(ts).tree;
    EndIsLast(text);
    ParserForTheGrammar(ts, e);
    hide TokensOf, ParseRun, Reads, Eval;
    if FirstBad(tree).Some? {
      SyntaxErrorsStand(tree, store);
    }
  }

  /** A tree of the grammar, its tokens written out with blanks between them, evaluates as the tree. */
  lemma WrittenExpressionMeansItself(e: Expr, store: Store)
    requires Grammatical(e) && forall i :: 0 <= i < |Yield(e)| ==> IsSpelled(Yield(e)[i])
    ensures Meaning(Spelled(Yield(e)), store) == Eval(e, store)
  {
    TokensReadBack(Yield(e));
    hide Spelled, Eval, Grammatical, Yield, IsSpelled, TokensOf;
    MeaningIsByTheGrammar(Spelled(Yield(e)), e, store);
  }

  /**
   A part parsed without being evaluated takes the same tokens as when it is evaluated without an error,
   leaves the variables alone, and meets no error then; its value is the tree's, with no variable read.
   */
  lemma SkippedTakesTheSameTokens(p: Parsed, before: Store, r: Attempt, rest: seq<Token>, after: Store,
                                  before': Store, r': Attempt, rest': seq<Token>, after': Store)
    requires Follows(p, true, before, r, rest, after) && r.Returned?
    requires Follows(p, false, before', r', rest', after')
    ensures r' == Returned(Unevaluated(p.tree), r.lvalue) && rest' == rest && after' == before'
  {
    if FirstBad(p.tree).Some? {
      SyntaxErrorsStand(p.tree, before);
    }
  }

  /** From any two stores a part not evaluated does the same, a syntax error included, and sets nothing. */
  lemma SkippedReadsNothing(p: Parsed, before: Store, r: Attempt, rest: seq<Token>, after: Store,
                            before': Store, r': Attempt, rest': seq<Token>, after': Store)
    requires Follows(p, false, before, r, rest, after) && Follows(p, false, before', r', rest', after')
    ensures r' == r && (r.Returned? ==> rest' == rest) && after == before && after' == before'
  {
  }

  /** EvaluateArithmetic: the text's value or error, and the variables it leaves. */
  method EvaluateArithmetic(expression: string, store: Store) returns (r: Attempt, after: Store)
    ensures match Meaning(expression, store)
            case Value(v, s) => r.Returned? && r.value == v && after == s
            case Failed(error, s) => r == Threw(error) && after == s
  {
    var parser := new ArithmeticParser(expression, store);
    r := parser.Run();
    after := parser.variables;
  }
}
