/** The recursive descent of ArithGrammar against its grammar. */
module GrammarLaws {
  import opened Basics
  import opened ArithLexer
  import opened ArithGrammar

  // ---- What the descent reads is in the grammar -------------------------------------------------

  /** What is known of a parse of `ts`; a last name before an assignment operator is still a bare target. */
  predicate Sound(level: nat, ts: seq<Token>, p: Parsed)
  {
    && (p.ok <==> FirstBad(p.tree).None?)
    && (p.ok ==> Yield(p.tree) + p.rest == ts)
    && (p.ok && !IsAssignOp(Peek(p.rest)) ==> Grammatical(p.tree) && Rank(p.tree) >= level)
    && (p.ok && IsAssignOp(Peek(p.rest)) && LName(p.tree) != "" ==> IsLhs(p.tree))
  }

  lemma {:induction false} ParseSound(level: nat, ts: seq<Token>)
    requires level <= UNARY
    ensures Sound(level, ts, Parse(level, ts))
    decreases |ts|, 14 - level
  {
    if level == ASSIGN {
      ParseSound(CONDITIONAL, ts);
      AssignSound(ts, Parse(CONDITIONAL, ts));
    } else if level == CONDITIONAL {
      ParseSound(LOGICAL_OR, ts);
      ConditionalSound(ts, Parse(LOGICAL_OR, ts));
    } else if level == UNARY {
      UnarySound(ts);
    } else {
      ParseSound(level + 1, ts);
      var p := Parse(level + 1, ts);
      if p.ok {
        TailSound(level, ts, p.tree, p.rest);
      }
    }
  }

  lemma {:induction false} AssignSound(ts: seq<Token>, lhs: Parsed)
    requires Sound(CONDITIONAL, ts, lhs) && |lhs.rest| <= |ts|
    ensures Sound(ASSIGN, ts, ParseAssign(lhs))
    decreases |lhs.rest|, 0
  {
    if lhs.ok && IsAssignOp(Peek(lhs.rest)) && LName(lhs.tree) != "" {
      ParseSound(ASSIGN, lhs.rest[1..]);
      var rhs := Parse(ASSIGN, lhs.rest[1..]);
      hide Parse, IsAssignOp;
      assert ParseAssign(lhs).ok ==> Yield(ParseAssign(lhs).tree) + rhs.rest == ts by {
        YieldOfPair(ts, lhs.tree, lhs.rest, rhs);
      }
    }
  }

  /** `left`, the operator the rest starts with, and what was read after it. */
  lemma YieldOfPair(ts: seq<Token>, left: Expr, rest: seq<Token>, right: Parsed)
    requires Yield(left) + rest == ts && rest != []
    requires right.ok ==> Yield(right.tree) + right.rest == rest[1..]
    ensures right.ok ==> Yield(left) + [rest[0]] + Yield(right.tree) + right.rest == ts
  {
    hide Yield;
    assert rest == [rest[0]] + rest[1..];
  }

  lemma {:induction false} ConditionalSound(ts: seq<Token>, c: Parsed)
    requires Sound(LOGICAL_OR, ts, c) && |c.rest| <= |ts|
    ensures Sound(CONDITIONAL, ts, ParseConditional(c))
    decreases |c.rest|, 0
  {
    if c.ok && Peek(c.rest) == Question {
      ParseSound(ASSIGN, c.rest[1..]);
      var t := Parse(ASSIGN, c.rest[1..]);
      if t.ok && Peek(t.rest) == Colon {
        ParseSound(ASSIGN, t.rest[1..]);
        var f := Parse(ASSIGN, t.rest[1..]);
        hide Parse, IsAssignOp, Grammatical, Rank;
        YieldOfPair(ts, c.tree, c.rest, t);
        YieldOfTriple(ts, c.tree, c.rest, t, f);
        ConditionalIsGrammatical(c, t, f);
      } else {
        hide Parse;
        assert FirstBad(Then(t.tree, "expecting ':'")).Some?;
      }
    }
  }

  lemma YieldOfTriple(ts: seq<Token>, left: Expr, rest: seq<Token>, middle: Parsed, right: Parsed)
    requires rest != [] && middle.rest != []
    requires Yield(left) + [rest[0]] + Yield(middle.tree) + middle.rest == ts
    requires right.ok ==> Yield(right.tree) + right.rest == middle.rest[1..]
    ensures right.ok ==>
              Yield(left) + [rest[0]] + Yield(middle.tree) + [middle.rest[0]] + Yield(right.tree) + right.rest == ts
  {
    hide Yield;
    assert middle.rest == [middle.rest[0]] + middle.rest[1..];
  }

  lemma ConditionalIsGrammatical(c: Parsed, t: Parsed, f: Parsed)
    requires Grammatical(c.tree) && Rank(c.tree) >= LOGICAL_OR && Grammatical(t.tree)
    ensures Grammatical(f.tree) ==> Grammatical(Conditional(c.tree, t.tree, f.tree))
    ensures Rank(Conditional(c.tree, t.tree, f.tree)) == CONDITIONAL
  {
  }

  lemma {:induction false} TailSound(level: nat, ts: seq<Token>, lhs: Expr, rest: seq<Token>)
    requires LOGICAL_OR <= level <= MULTIPLICATIVE
    requires Sound(level, ts, Parsed(lhs, rest, true)) && |rest| <= |ts|
    ensures Sound(level, ts, Tail(level, lhs, rest))
    decreases |rest|, 0
  {
    if LevelOf(Peek(rest)) == level {
      ParseSound(level + 1, rest[1..]);
      var rhs := Parse(level + 1, rest[1..]);
      var tree := Binary(rest[0], lhs, rhs.tree);
      YieldOfPair(ts, lhs, rest, rhs);
      if rhs.ok {
        hide Parse;
        assert !IsAssignOp(rest[0]);
        hide IsAssignOp;
        assert Sound(level, ts, Parsed(tree, rhs.rest, true));
        TailSound(level, ts, tree, rhs.rest);
      }
    }
  }

  lemma {:induction false} UnarySound(ts: seq<Token>)
    ensures Sound(UNARY, ts, ParseUnary(ts))
    decreases |ts|, 1
  {
    if IsUnaryOp(Peek(ts)) {
      UnarySound(ts[1..]);
      var p := ParseUnary(ts[1..]);
      hide ParseUnary, ParsePrimary, Parse, IsAssignOp;
      assert ts == [ts[0]] + ts[1..];
      assert p.ok ==> [ts[0]] + Yield(p.tree) + p.rest == ts;
    } else {
      PrimarySound(ts);
    }
  }

  lemma {:induction false} PrimarySound(ts: seq<Token>)
    ensures Sound(PRIMARY, ts, ParsePrimary(ts))
    decreases |ts|, 0
  {
    if Peek(ts) == LParen {
      ParseSound(ASSIGN, ts[1..]);
      var p := Parse(ASSIGN, ts[1..]);
      assert !IsAssignOp(RParen);
      hide Parse, IsAssignOp;
      if p.ok && Peek(p.rest) == RParen {
        assert [LParen] + Yield(p.tree) + [RParen] + p.rest[1..] == ts;
      }
    }
  }

  // ---- The descent never passes End -------------------------------------------------------------

  /** `rest` is what is left of `ts` after some tokens, none of them End. */
  predicate Consumed(ts: seq<Token>, rest: seq<Token>)
  {
    rest == ts || (ts != [] && ts[0] != End && Consumed(ts[1..], rest))
  }

  lemma {:induction false} ConsumedOn(ts: seq<Token>, middle: seq<Token>, rest: seq<Token>)
    requires Consumed(ts, middle) && (Consumed(middle, rest) || (middle != [] && middle[0] != End && Consumed(middle[1..], rest)))
    ensures Consumed(ts, rest)
  {
    if ts != middle {
      ConsumedOn(ts[1..], middle, rest);
    }
  }

  lemma {:induction false} ParseConsumes(level: nat, ts: seq<Token>)
    requires level <= UNARY
    ensures Consumed(ts, Parse(level, ts).rest)
    decreases |ts|, 14 - level
  {
    hide Consumed;
    if level == ASSIGN {
      ParseConsumes(CONDITIONAL, ts);
      AssignConsumes(ts, Parse(CONDITIONAL, ts));
    } else if level == CONDITIONAL {
      ParseConsumes(LOGICAL_OR, ts);
      ConditionalConsumes(ts, Parse(LOGICAL_OR, ts));
    } else if level == UNARY {
      UnaryConsumes(ts);
    } else {
      ParseConsumes(level + 1, ts);
      var p := Parse(level + 1, ts);
      if p.ok {
        TailConsumes(level, ts, p.tree, p.rest);
      }
    }
  }

  /** A token that is not End and a parse after it. */
  lemma {:induction false} StepConsumes(level: nat, ts: seq<Token>, rest: seq<Token>)
    requires level <= UNARY && Consumed(ts, rest) && Peek(rest) != End && |rest| <= |ts|
    ensures Consumed(ts, Parse(level, rest[1..]).rest)
    decreases |rest|, 0
  {
    ParseConsumes(level, rest[1..]);
    hide Parse, Consumed;
    ConsumedOn(ts, rest, Parse(level, rest[1..]).rest);
  }

  lemma {:induction false} AssignConsumes(ts: seq<Token>, lhs: Parsed)
    requires Consumed(ts, lhs.rest) && |lhs.rest| <= |ts|
    ensures Consumed(ts, ParseAssign(lhs).rest)
    decreases |lhs.rest|, 1
  {
    hide Consumed;
    if lhs.ok && IsAssignOp(Peek(lhs.rest)) && LName(lhs.tree) != "" {
      StepConsumes(ASSIGN, ts, lhs.rest);
    }
  }

  lemma {:induction false} ConditionalConsumes(ts: seq<Token>, c: Parsed)
    requires Consumed(ts, c.rest) && |c.rest| <= |ts|
    ensures Consumed(ts, ParseConditional(c).rest)
    decreases |c.rest|, 1
  {
    hide Consumed;
    if c.ok && Peek(c.rest) == Question {
      StepConsumes(ASSIGN, ts, c.rest);
      var t := Parse(ASSIGN, c.rest[1..]);
      if t.ok && Peek(t.rest) == Colon {
        StepConsumes(ASSIGN, ts, t.rest);
      }
    }
  }

  lemma {:induction false} TailConsumes(level: nat, ts: seq<Token>, lhs: Expr, rest: seq<Token>)
    requires LOGICAL_OR <= level <= MULTIPLICATIVE
    requires Consumed(ts, rest) && |rest| <= |ts|
    ensures Consumed(ts, Tail(level, lhs, rest).rest)
    decreases |rest|, 1
  {
    hide Consumed;
    if LevelOf(Peek(rest)) == level {
      StepConsumes(level + 1, ts, rest);
      var rhs := Parse(level + 1, rest[1..]);
      if rhs.ok {
        TailConsumes(level, ts, Binary(rest[0], lhs, rhs.tree), rhs.rest);
      }
    }
  }

  lemma {:induction false} UnaryConsumes(ts: seq<Token>)
    ensures Consumed(ts, ParseUnary(ts).rest)
    decreases |ts|, 1
  {
    if IsUnaryOp(Peek(ts)) {
      UnaryConsumes(ts[1..]);
    } else {
      PrimaryConsumes(ts);
    }
  }

  lemma {:induction false} PrimaryConsumes(ts: seq<Token>)
    ensures Consumed(ts, ParsePrimary(ts).rest)
    decreases |ts|, 0
  {
    if Peek(ts) == LParen {
      ParseConsumes(ASSIGN, ts[1..]);
      var p := Parse(ASSIGN, ts[1..]);
      hide Parse;
      assert Consumed(ts, p.rest);
      if p.ok && Peek(p.rest) == RParen {
        assert Consumed(p.rest[1..], p.rest[1..]);
        hide Consumed;
        ConsumedOn(ts, p.rest, p.rest[1..]);
      }
    } else {
      assert ts != [] ==> Consumed(ts[1..], ts[1..]);
    }
  }

  // ---- Every tree of the grammar is read back -----------------------------------------------------

  /** A token that goes on no expression of the level. */
  predicate Stops(t: Token, level: nat)
  {
    !IsAssignOp(t) && (LevelOf(t) == 0 || LevelOf(t) < level) && (t == Question ==> level > CONDITIONAL)
  }

  /** A tree's tokens, followed by a token that does not go on, are read as that tree. */
  lemma {:induction false} TreeIsRead(e: Expr, level: nat, rest: seq<Token>)
    requires Grammatical(e) && level <= UNARY && Rank(e) >= level && Stops(Peek(rest), level)
    ensures Parse(level, Yield(e) + rest) == Parsed(e, rest, true)
    decreases e, 14 - level, 1
  {
    if level == ASSIGN {
      if e.Assignment? {
        AssignmentIsRead(e, rest);
      } else {
        TreeIsRead(e, CONDITIONAL, rest);
      }
    } else if level == CONDITIONAL {
      if e.Conditional? {
        ConditionalIsRead(e, rest);
      } else {
        TreeIsRead(e, LOGICAL_OR, rest);
      }
    } else if level == UNARY {
      UnaryIsRead(e, rest);
    } else {
      SpineIsRead(e, level, rest);
    }
  }

  /** The loop of a level reads a left-grouped chain up to any point of it. */
  lemma {:induction false} SpineIsRead(e: Expr, level: nat, rest: seq<Token>)
    requires LOGICAL_OR <= level <= MULTIPLICATIVE
    requires Grammatical(e) && Rank(e) >= level && Stops(Peek(rest), level + 1)
    ensures Parse(level, Yield(e) + rest) == Tail(level, e, rest)
    decreases e, 14 - level, 0
  {
    if Rank(e) > level {
      TreeIsRead(e, level + 1, rest);
    } else {
      var (op, l, r) := (e.op, e.left, e.right);
      var after := Yield(r) + rest;
      assert Yield(e) + rest == Yield(l) + ([op] + after);
      assert Stops(op, level + 1);
      SpineIsRead(l, level, [op] + after);
      TreeIsRead(r, level + 1, rest);
      hide Parse, Yield, Grammatical, Stops;
      assert ([op] + after)[1..] == after;
    }
  }

  lemma {:induction false} ConditionalIsRead(e: Expr, rest: seq<Token>)
    requires e.Conditional? && Grammatical(e) && Stops(Peek(rest), CONDITIONAL)
    ensures Parse(CONDITIONAL, Yield(e) + rest) == Parsed(e, rest, true)
    decreases e, 0
  {
    hide Parse, Yield, Grammatical, Stops, Rank, ParseConditional;
    var (c, t, f) := (e.condition, e.then_, e.else_);
    var afterF := Yield(f) + rest;
    var afterT := Yield(t) + ([Colon] + afterF);
    ConditionalIs(e, rest);
    TreeIsRead(c, LOGICAL_OR, [Question] + afterT);
    TreeIsRead(t, ASSIGN, [Colon] + afterF);
    TreeIsRead(f, ASSIGN, rest);
    ConditionalIsParsed(Yield(c) + ([Question] + afterT), c, t, f, afterT, afterF, rest);
  }

  /** The parts of a ternary, and its tokens. */
  lemma ConditionalIs(e: Expr, rest: seq<Token>)
    requires e.Conditional? && Grammatical(e) && Stops(Peek(rest), CONDITIONAL)
    ensures var (c, t, f) := (e.condition, e.then_, e.else_);
            && Grammatical(c) && Rank(c) >= LOGICAL_OR && Grammatical(t) && Grammatical(f)
            && Yield(e) + rest == Yield(c) + ([Question] + (Yield(t) + ([Colon] + (Yield(f) + rest))))
    ensures Stops(Peek(rest), ASSIGN)
    ensures forall more :: Stops(Peek([Question] + more), LOGICAL_OR) && Stops(Peek([Colon] + more), ASSIGN)
  {
    var (c, t, f) := (e.condition, e.then_, e.else_);
    assert Yield(e) == Yield(c) + [Question] + Yield(t) + [Colon] + Yield(f);
    JoinsFive(Yield(c), [Question], Yield(t), [Colon], Yield(f), rest);
    hide Yield;
  }

  lemma JoinsFive(a: seq<Token>, b: seq<Token>, c: seq<Token>, d: seq<Token>, e: seq<Token>, rest: seq<Token>)
    ensures a + b + c + d + e + rest == a + (b + (c + (d + (e + rest))))
  {
  }

  lemma ConditionalIsParsed(ts: seq<Token>, c: Expr, t: Expr, f: Expr, afterT: seq<Token>, afterF: seq<Token>, rest: seq<Token>)
    requires Parse(LOGICAL_OR, ts) == Parsed(c, [Question] + afterT, true)
    requires Parse(ASSIGN, afterT) == Parsed(t, [Colon] + afterF, true)
    requires Parse(ASSIGN, afterF) == Parsed(f, rest, true)
    ensures Parse(CONDITIONAL, ts) == Parsed(Conditional(c, t, f), rest, true)
  {
    assert Parse(CONDITIONAL, ts) == ParseConditional(Parse(LOGICAL_OR, ts));
    assert ([Question] + afterT)[1..] == afterT && ([Colon] + afterF)[1..] == afterF;
    hide Parse;
  }

  lemma {:induction false} AssignmentIsRead(e: Expr, rest: seq<Token>)
    requires e.Assignment? && Grammatical(e) && Stops(Peek(rest), ASSIGN)
    ensures Parse(ASSIGN, Yield(e) + rest) == Parsed(e, rest, true)
    decreases e, 0
  {
    var (op, l, r) := (e.op, e.left, e.right);
    var after := Yield(r) + rest;
    assert Yield(e) + rest == Yield(l) + ([op] + after);
    TargetIsRead(l, CONDITIONAL, [op] + after);
    TreeIsRead(r, ASSIGN, rest);
    LhsHasName(l);
    assert ([op] + after)[1..] == after;
    assert Parse(ASSIGN, Yield(l) + ([op] + after)) == ParseAssign(Parsed(l, [op] + after, true));
    hide Parse, Yield, Grammatical, Stops;
  }

  lemma {:induction false} LhsHasName(e: Expr)
    requires IsLhs(e)
    ensures LName(e) != ""
  {
    if e.Unary? {
      LhsHasName(e.operand);
    }
  }

  /** An assignment's left-hand side is read as what it is by every level below. */
  lemma {:induction false} TargetIsRead(e: Expr, level: nat, rest: seq<Token>)
    requires IsLhs(e) && CONDITIONAL <= level <= UNARY && IsAssignOp(Peek(rest))
    ensures Parse(level, Yield(e) + rest) == Parsed(e, rest, true)
    decreases e, 14 - level
  {
    if level < UNARY {
      AssignOpIsNoOther(Peek(rest));
      TargetIsRead(e, level + 1, rest);
      hide Yield, IsLhs, IsAssignOp, LevelOf;
    } else {
      TargetIsPrimary(e, rest);
    }
  }

  lemma AssignOpIsNoOther(t: Token)
    requires IsAssignOp(t)
    ensures LevelOf(t) == 0 && t != Question
  {
  }

  lemma {:induction false} TargetIsPrimary(e: Expr, rest: seq<Token>)
    requires IsLhs(e) && IsAssignOp(Peek(rest))
    ensures ParseUnary(Yield(e) + rest) == Parsed(e, rest, true)
  {
    hide IsAssignOp;
    if e.Unary? {
      TargetIsPrimary(e.operand, rest);
      assert (Yield(e) + rest)[1..] == Yield(e.operand) + rest;
    } else {
      assert (Yield(e) + rest)[1..] == rest;
    }
  }

  lemma {:induction false} UnaryIsRead(e: Expr, rest: seq<Token>)
    requires Grammatical(e) && Rank(e) >= UNARY && Stops(Peek(rest), UNARY)
    ensures ParseUnary(Yield(e) + rest) == Parsed(e, rest, true)
    decreases e, 0
  {
    hide *;
    UnaryShape(e);
    if e.Unary? {
      UnaryIsRead(e.operand, rest);
      UnaryStep(e.op, e.operand, rest);
    } else if e.Paren? {
      ParenIsRead(e.inner, rest);
      ParenStep(e.inner, rest);
    } else {
      StopsAssign(Peek(rest));
      LeafIsRead(e, rest);
    }
  }

  lemma UnaryShape(e: Expr)
    requires Grammatical(e) && Rank(e) >= UNARY
    ensures e.Unary? ==> IsUnaryOp(e.op) && Grammatical(e.operand) && Rank(e.operand) >= UNARY
    ensures e.Paren? ==> Grammatical(e.inner)
    ensures e.Unary? || e.Paren? || e.Literal? || e.Variable?
  {
  }

  lemma StopsAssign(t: Token)
    ensures Stops(t, UNARY) ==> !IsAssignOp(t)
  {
  }

  lemma UnaryStep(op: Token, operand: Expr, rest: seq<Token>)
    requires IsUnaryOp(op) && ParseUnary(Yield(operand) + rest) == Parsed(operand, rest, true)
    ensures ParseUnary(Yield(Unary(op, operand)) + rest) == Parsed(Unary(op, operand), rest, true)
  {
    hide ParsePrimary;
    var ts := Yield(Unary(op, operand)) + rest;
    assert ts[0] == op && ts[1..] == Yield(operand) + rest;
  }

  lemma ParenStep(inner: Expr, rest: seq<Token>)
    ensures ParseUnary(Yield(Paren(inner)) + rest) == ParsePrimary([LParen] + (Yield(inner) + ([RParen] + rest)))
  {
    hide ParsePrimary;
    assert Yield(Paren(inner)) + rest == [LParen] + (Yield(inner) + ([RParen] + rest));
  }

  lemma LeafIsRead(e: Expr, rest: seq<Token>)
    requires (e.Literal? || e.Variable?) && !IsAssignOp(Peek(rest))
    ensures ParseUnary(Yield(e) + rest) == Parsed(e, rest, true)
  {
    hide IsAssignOp;
    assert (Yield(e) + rest)[1..] == rest;
  }

  lemma {:induction false} ParenIsRead(inner: Expr, rest: seq<Token>)
    requires Grammatical(inner)
    ensures ParsePrimary([LParen] + (Yield(inner) + ([RParen] + rest))) == Parsed(Paren(inner), rest, true)
    decreases inner, 20
  {
    hide Parse, Yield, Grammatical;
    var ts := Yield(inner) + ([RParen] + rest);
    ParenStops(rest);
    TreeIsRead(inner, ASSIGN, [RParen] + rest);
    assert ([LParen] + ts)[1..] == ts && ([RParen] + rest)[1..] == rest;
  }

  lemma ParenStops(rest: seq<Token>)
    ensures Stops(Peek([RParen] + rest), ASSIGN)
  {
  }

  // ---- The whole text ---------------------------------------------------------------------------

  /** Tokens with End last and nowhere else, as the lexer makes them. */
  predicate Terminated(ts: seq<Token>)
  {
    |ts| >= 1 && ts[|ts| - 1] == End && forall i :: 0 <= i < |ts| - 1 ==> ts[i] != End
  }

  /** `e` is how the grammar reads the tokens. */
  predicate Reads(e: Expr, ts: seq<Token>)
  {
    Grammatical(e) && Yield(e) + [End] == ts
  }

  lemma {:induction false} LeftOfTerminated(ts: seq<Token>, rest: seq<Token>)
    requires Terminated(ts) && Consumed(ts, rest)
    ensures Terminated(rest) && |rest| <= |ts| && ts[|ts| - |rest|..] == rest
  {
    if ts != rest {
      LeftOfTerminated(ts[1..], rest);
    }
  }

  /** The position never passes End: what is left of a text after any part of the descent still ends in it. */
  lemma NeverPastEnd(level: nat, ts: seq<Token>)
    requires level <= UNARY && Terminated(ts)
    ensures var rest := Parse(level, ts).rest;
            Terminated(rest) && |rest| <= |ts| && ts[|ts| - |rest|..] == rest
  {
    ParseConsumes(level, ts);
    hide Parse;
    LeftOfTerminated(ts, Parse(level, ts).rest);
  }

  /**
   The descent is a parser for the grammar: it meets no syntax error exactly when some tree of the
   grammar yields the tokens, and then it builds that tree, so there is only one.
   */
  lemma ParserForTheGrammar(ts: seq<Token>, e: Expr)
    requires Terminated(ts)
    ensures FirstBad(ParseRun(ts).tree).None? <==> Reads(ParseRun(ts).tree, ts)
    ensures Reads(e, ts) ==> ParseRun(ts).tree == e && FirstBad(e).None?
  {
    hide *;
    ReadWhenGood(ts);
    if Reads(e, ts) {
      ReadIsBuilt(ts, e);
    }
    if Reads(ParseRun(ts).tree, ts) {
      ReadIsBuilt(ts, ParseRun(ts).tree);
    }
  }

  /** A tree that yields the tokens is the one built. */
  lemma ReadIsBuilt(ts: seq<Token>, e: Expr)
    requires Reads(e, ts)
    ensures ParseRun(ts).tree == e && FirstBad(e).None?
  {
    hide Parse, Grammatical, Yield, Sound, FirstBad;
    EndStops();
    TreeIsRead(e, ASSIGN, [End]);
    ParseSound(ASSIGN, ts);
    SoundIsGood(ASSIGN, ts, Parse(ASSIGN, ts));
  }

  lemma EndStops()
    ensures Stops(Peek([End]), ASSIGN)
  {
  }

  lemma SoundIsGood(level: nat, ts: seq<Token>, p: Parsed)
    requires Sound(level, ts, p)
    ensures p.ok <==> FirstBad(p.tree).None?
  {
    hide FirstBad, Yield, Grammatical, Rank, IsLhs, LName;
  }

  /** A tree without a syntax error yields the tokens. */
  lemma ReadWhenGood(ts: seq<Token>)
    requires Terminated(ts)
    ensures FirstBad(ParseRun(ts).tree).None? ==> Reads(ParseRun(ts).tree, ts)
  {
    hide Parse, Grammatical, Yield, FirstBad, Rank, IsLhs, LName, Consumed;
    var p := Parse(ASSIGN, ts);
    ParseSound(ASSIGN, ts);
    NeverPastEnd(ASSIGN, ts);
    if Peek(p.rest) == End {
      assert p.rest == [End];
    } else {
      GrammaticalIsNoThen(p.tree);
    }
  }

  lemma GrammaticalIsNoThen(e: Expr)
    ensures !Grammatical(Then(e, "expecting EOF")) && FirstBad(Then(e, "expecting EOF")).Some?
  {
  }

  /** No two trees of the grammar yield the same tokens. */
  lemma GrammarIsUnambiguous(e: Expr, f: Expr)
    requires Grammatical(e) && Grammatical(f) && Yield(e) == Yield(f)
    ensures e == f
  {
    TreeIsRead(e, ASSIGN, [End]);
    TreeIsRead(f, ASSIGN, [End]);
  }
}
