/**
 What each operator of hsh arithmetic computes (HshArithmetic.cpp:19-44 and 200-409), said in the integers'
 own terms: congruence modulo 2^64, bits, truncation and order.
 */
module ArithLaws {
  import opened Basics
  import opened Int64
  import opened ArithLexer
  import opened ArithGrammar
  import opened ArithEval

  // ---- Values ---------------------------------------------------------------------------------

  /** The two differ by a multiple of 2^64. */
  predicate Congruent(x: int, y: int)
  {
    (x - y) % 0x1_0000_0000_0000_0000 == 0
  }

  /** Bit `i` of a number in two's complement. */
  predicate BitOn(x: int, i: nat)
  {
    (x / Pow2(i)) % 2 == 1
  }

  /** Division towards zero: what is left over is smaller than the divisor and has the dividend's sign. */
  predicate Truncates(a: int, b: int, q: int, r: int)
  {
    a == q * b + r && Abs(r) < Abs(b) && (r != 0 ==> (r < 0 <==> a < 0))
  }

  /** `v` is what the binary operator makes of `a` and `b`. */
  ghost predicate Computes(op: Token, a: intmax, b: intmax, v: intmax)
  {
    match op
    case Plus => Congruent(v, a + b)
    case Minus => Congruent(v, a - b)
    case Star => Congruent(v, a * b)
    case Slash => exists q: int, r: int :: Truncates(a, b, q, r) && Congruent(v, q)
    case Percent => exists q: int :: Truncates(a, b, q, v)
    case Shl => Congruent(v, a * Pow2(b % 64))
    case Shr => v * Pow2(b % 64) <= a < (v + 1) * Pow2(b % 64)
    case Amp => forall i: nat :: i < 64 ==> (BitOn(v, i) <==> BitOn(a, i) && BitOn(b, i))
    case Caret => forall i: nat :: i < 64 ==> (BitOn(v, i) <==> (BitOn(a, i) <==> !BitOn(b, i)))
    case Bar => forall i: nat :: i < 64 ==> (BitOn(v, i) <==> BitOn(a, i) || BitOn(b, i))
    case Lt => v == if a < b then 1 else 0
    case Le => v == if a <= b then 1 else 0
    case Gt => v == if a > b then 1 else 0
    case Ge => v == if a >= b then 1 else 0
    case EqEq => v == if a == b then 1 else 0
    case NotEq => v == if a != b then 1 else 0
    case AndAnd => v == if a != 0 && b != 0 then 1 else 0
    case OrOr => v == if a != 0 || b != 0 then 1 else 0
    case _ => false
  }

  lemma WrapIsCongruent(x: int)
    ensures Congruent(Wrap(x), x)
  {
    var q := if x % TWO64 < TWO63 then -(x / TWO64) else -(x / TWO64) - 1;
    assert Wrap(x) - x == q * TWO64;
    DivUnique(q * TWO64, TWO64, q, 0);
  }

  lemma SumsCompute(a: intmax, b: intmax)
    ensures Congruent(Add(a, b), a + b) && Congruent(Sub(a, b), a - b) && Congruent(Mul(a, b), a * b)
  {
    AdditionWraps(a, b);
    MultiplicationWraps(a, b);
    hide Add, Sub, Mul, Wrap, Congruent;
    WrapIsCongruent(a + b);
    WrapIsCongruent(a - b);
    WrapIsCongruent(a * b);
  }

  lemma ShiftsCompute(a: intmax, b: intmax)
    ensures Computes(Shl, a, b, ShiftLeft(a, b)) && Computes(Shr, a, b, ShiftRight(a, b))
  {
    hide ShiftLeft, ShiftRight, Wrap, Pow2;
    ShiftLeftWraps(a, b);
    WrapIsCongruent(UpBy(a, b % 64));
    ShiftRightFloors(a, b);
    Euclid(a, Pow2(b % 64));
    var q := a / Pow2(b % 64);
    assert (q + 1) * Pow2(b % 64) == q * Pow2(b % 64) + Pow2(b % 64);
  }

  lemma {:induction false} BitIs(x: nat, i: nat)
    ensures Bit(x, i) == 1 <==> BitOn(x, i)
  {
    if i > 0 {
      BitIs(x / 2, i - 1);
      HalvedQuotient(x, Pow2(i - 1));
    } else {
      assert Pow2(0) == 1 && x / 1 == x;
    }
  }

  lemma HalvedQuotient(x: nat, p: nat)
    requires 0 < p
    ensures x / (2 * p) == (x / 2) / p
  {
    var q, r := (x / 2) / p, (x / 2) % p;
    assert x == 2 * (q * p + r) + x % 2;
    assert 2 * (q * p) == q * (2 * p);
    DivUnique(x, 2 * p, q, x % 2 + 2 * r);
  }

  /** Turning a number unsigned changes none of its 64 bits. */
  lemma UnsignedBits(v: intmax, i: nat)
    requires i < 64
    ensures Bit(U(v), i) == 1 <==> BitOn(v, i)
  {
    hide Bit, Pow2;
    BitIs(U(v), i);
    if v < 0 {
      var p, m := Pow2(i), Pow2(63 - i);
      Pow2Adds(63 - i, i);
      Pow2Of64();
      assert 2 * m * p == TWO64 by { assert 2 * m * p == 2 * (m * p); }
      QuotientShifts(v, p, 2 * m);
    }
  }

  lemma SignedBits(u: uintmax, i: nat)
    requires i < 64
    ensures BitOn(S(u), i) <==> Bit(u, i) == 1
  {
    hide Bit, BitOn;
    UnsignedBits(S(u), i);
  }

  /** One bit of the operators' results. */
  lemma BitComputes(a: intmax, b: intmax, i: nat)
    requires i < 64
    ensures BitOn(And(a, b), i) <==> BitOn(a, i) && BitOn(b, i)
    ensures BitOn(Xor(a, b), i) <==> (BitOn(a, i) <==> !BitOn(b, i))
    ensures BitOn(Or(a, b), i) <==> BitOn(a, i) || BitOn(b, i)
  {
    BitOfEach(AndBit, a, b, i);
    BitOfEach(XorBit, a, b, i);
    BitOfEach(OrBit, a, b, i);
    hide Bit, BitOn, Bitwise, S, U;
  }

  lemma BitOfEach(op: BitOp, a: intmax, b: intmax, i: nat)
    requires i < 64
    ensures BitOn(S(Bitwise(op, U(a), U(b), 64)), i) <==>
              OnBits(op, if BitOn(a, i) then 1 else 0, if BitOn(b, i) then 1 else 0) == 1
  {
    hide Bit, BitOn, Bitwise, S, U, OnBits;
    UnsignedBits(a, i);
    UnsignedBits(b, i);
    BitwiseAt(op, U(a), U(b), 64, i);
    SignedBits(Bitwise(op, U(a), U(b), 64), i);
  }

  lemma BitsCompute(a: intmax, b: intmax)
    ensures Computes(Amp, a, b, And(a, b)) && Computes(Caret, a, b, Xor(a, b)) && Computes(Bar, a, b, Or(a, b))
  {
    hide BitOn, And, Xor, Or;
    forall i: nat | i < 64
      ensures BitOn(And(a, b), i) <==> BitOn(a, i) && BitOn(b, i)
      ensures BitOn(Xor(a, b), i) <==> (BitOn(a, i) <==> !BitOn(b, i))
      ensures BitOn(Or(a, b), i) <==> BitOn(a, i) || BitOn(b, i)
    {
      BitComputes(a, b, i);
    }
  }

  lemma QuotientComputes(a: intmax, b: intmax)
    requires b != 0
    ensures Computes(Slash, a, b, Div(a, b)) && Computes(Percent, a, b, Mod(a, b))
  {
    if a == INTMAX_MIN && b == -1 {
      assert Truncates(a, b, 0x8000_0000_0000_0000, Mod(a, b));
    } else {
      OrdinaryDivision(a, b);
      TruncatedFits(a, b);
      RemainderOf(a, b);
      Euclid(Abs(a), Abs(b));
      assert Truncates(a, b, Div(a, b), Mod(a, b));
    }
  }

  // ---- Each operator computes one value -------------------------------------------------------

  /** Two signed 64-bit numbers that differ by a multiple of 2^64 are equal. */
  lemma CongruentIsEqual(v: intmax, w: intmax, x: int)
    requires Congruent(v, x) && Congruent(w, x)
    ensures v == w
  {
    Euclid(v - x, TWO64);
    Euclid(w - x, TWO64);
    var k := (v - x) / TWO64 - (w - x) / TWO64;
    assert v - w == k * TWO64;
    SmallMultiple(k, TWO64);
  }

  lemma FloorIsOne(a: int, p: nat, v: int, w: int)
    requires v * p <= a < (v + 1) * p && w * p <= a < (w + 1) * p
    ensures v == w
  {
    if v < w {
      ProductMonotone(v + 1, w, p);
    } else if w < v {
      ProductMonotone(w + 1, v, p);
    }
  }

  lemma SmallProduct(k: int, b: int, d: int)
    requires d == Abs(b) && 0 - d < k * b < d
    ensures k == 0
  {
    if b < 0 {
      assert (0 - k) * (0 - b) == k * b;
      SmallMultiple(0 - k, 0 - b);
    } else {
      SmallMultiple(k, b);
    }
  }

  lemma Difference(q: int, q': int, b: int)
    ensures (q - q') * b == q * b - q' * b
  {
  }

  /** Division towards zero has one quotient and one remainder. */
  lemma TruncationIsOne(a: int, b: int, q: int, r: int, q': int, r': int)
    requires Truncates(a, b, q, r) && Truncates(a, b, q', r')
    ensures q == q' && r == r'
  {
    Difference(q, q', b);
    RemaindersNear(a, Abs(b), r, r');
    SmallProduct(q - q', b, Abs(b));
  }

  lemma RemaindersNear(a: int, d: nat, r: int, r': int)
    requires Abs(r) < d && (r != 0 ==> (r < 0 <==> a < 0))
    requires Abs(r') < d && (r' != 0 ==> (r' < 0 <==> a < 0))
    ensures 0 - d < r' - r < d
  {
  }

  /** Numbers of `n` bits with the same bits are equal. */
  lemma {:induction false} SameBits(x: nat, y: nat, n: nat)
    requires x < Pow2(n) && y < Pow2(n) && forall i: nat :: i < n ==> Bit(x, i) == Bit(y, i)
    ensures x == y
  {
    if n > 0 {
      assert Bit(x, 0) == x % 2 && Bit(y, 0) == y % 2;
      forall i: nat | i < n - 1
        ensures Bit(x / 2, i) == Bit(y / 2, i)
      {
        assert Bit(x, i + 1) == Bit(x / 2, i) && Bit(y, i + 1) == Bit(y / 2, i);
      }
      SameBits(x / 2, y / 2, n - 1);
    }
  }

  lemma BitsAreOne(v: intmax, w: intmax)
    requires forall i: nat :: i < 64 ==> (BitOn(v, i) <==> BitOn(w, i))
    ensures v == w
  {
    hide Bit, BitOn, Pow2;
    Pow2Of64();
    forall i: nat | i < 64
      ensures Bit(U(v), i) == Bit(U(w), i)
    {
      UnsignedBits(v, i);
      UnsignedBits(w, i);
    }
    SameBits(U(v), U(w), 64);
  }

  /** No operator relates two operands to more than one value, so the laws below say which value it is. */
  lemma ComputesOneValue(op: Token, a: intmax, b: intmax, v: intmax, w: intmax)
    requires Computes(op, a, b, v) && Computes(op, a, b, w)
    ensures v == w
  {
    hide Congruent, Truncates, BitOn, Pow2;
    match op
    case Plus => CongruentIsEqual(v, w, a + b);
    case Minus => CongruentIsEqual(v, w, a - b);
    case Star => CongruentIsEqual(v, w, a * b);
    case Shl => CongruentIsEqual(v, w, a * Pow2(b % 64));
    case Shr => FloorIsOne(a, Pow2(b % 64), v, w);
    case Slash =>
      var q, r :| Truncates(a, b, q, r) && Congruent(v, q);
      var q', r' :| Truncates(a, b, q', r') && Congruent(w, q');
      TruncationIsOne(a, b, q, r, q', r');
      CongruentIsEqual(v, w, q);
    case Percent =>
      var q: int :| Truncates(a, b, q, v);
      var q': int :| Truncates(a, b, q', w);
      TruncationIsOne(a, b, q, v, q', w);
    case Amp => BitsAreOne(v, w);
    case Caret => BitsAreOne(v, w);
    case Bar => BitsAreOne(v, w);
    case _ =>
  }

  // ---- Expressions ----------------------------------------------------------------------------

  predicate IsBinaryOp(op: Token)
  {
    op in {OrOr, AndAnd, Bar, Caret, Amp, EqEq, NotEq, Lt, Le, Gt, Ge, Shl, Shr, Plus, Minus, Star, Slash, Percent}
  }

  /** The operator's value computes what it should, or there is none for a division by zero. */
  ghost predicate Combines(op: Token, a: intmax, b: intmax)
  {
    match Combine(op, a, b)
    case None => op in {Slash, Percent} && b == 0
    case Some(v) => !(op in {Slash, Percent} && b == 0) && Computes(op, a, b, v)
  }

  lemma SumsCombine(op: Token, a: intmax, b: intmax)
    requires op == Plus || op == Minus || op == Star
    ensures Combines(op, a, b)
  {
    hide Congruent, Add, Sub, Mul;
    SumsCompute(a, b);
  }

  lemma ShiftsCombine(op: Token, a: intmax, b: intmax)
    requires op == Shl || op == Shr
    ensures Combines(op, a, b)
  {
    hide Computes, ShiftLeft, ShiftRight;
    ShiftsCompute(a, b);
  }

  lemma BitsCombine(op: Token, a: intmax, b: intmax)
    requires op == Amp || op == Caret || op == Bar
    ensures Combines(op, a, b)
  {
    hide Computes, And, Xor, Or;
    BitsCompute(a, b);
  }

  lemma QuotientsCombine(op: Token, a: intmax, b: intmax)
    requires op == Slash || op == Percent
    ensures Combines(op, a, b)
  {
    hide Computes, Div, Mod;
    if b != 0 {
      QuotientComputes(a, b);
    }
  }

  lemma TruthsCombine(op: Token, a: intmax, b: intmax)
    requires op in {OrOr, AndAnd, EqEq, NotEq, Lt, Le, Gt, Ge}
    ensures Combines(op, a, b)
  {
  }

  /** One node of a tree evaluated. */
  lemma NodeIs(op: Token, l: Expr, r: Expr, store: Store)
    ensures Eval(Unary(op, l), store) ==
              var o := Eval(l, store); if o.Failed? then o else Value(Mapped(op, o.value), o.store)
    ensures Eval(Binary(op, l, r), store) ==
              var o := Eval(l, store); if o.Failed? then o else Operate(op, o.value, EvalIf(GoesOn(op, o.value), r, o.store))
    ensures Eval(Assignment(op, l, r), store) ==
              var o := Eval(l, store); if o.Failed? then o else AssignTo(op, LName(l), Eval(r, o.store))
  {
    hide Mapped, Operate, EvalIf, GoesOn, AssignTo, LName;
  }

  lemma VariableNodeIs(name: string, store: Store)
    ensures Eval(Variable(name), store) == VariableValue(name, store)
  {
    hide VariableValue;
  }

  lemma ConditionalNodeIs(c: Expr, t: Expr, f: Expr, store: Store)
    ensures Eval(Conditional(c, t, f), store) ==
              var o := Eval(c, store);
              if o.Failed? then o
              else
                var yes := EvalIf(o.value != 0, t, o.store);
                if yes.Failed? then yes
                else
                  var no := EvalIf(o.value == 0, f, yes.store);
                  if no.Failed? then no else Value(if o.value != 0 then yes.value else no.value, no.store)
  {
    hide EvalIf;
  }

  /** A part left out. */
  lemma LeftOutIs(e: Expr, store: Store)
    ensures EvalIf(true, e, store) == Eval(e, store)
    ensures EvalIf(false, e, store) ==
              if FirstBad(e).Some? then Failed(Arithmetic(FirstBad(e).value), store) else Value(0, store)
  {
    hide Eval, FirstBad;
  }

  lemma CombineComputes(op: Token, a: intmax, b: intmax)
    requires IsBinaryOp(op)
    ensures Combine(op, a, b) == None <==> op in {Slash, Percent} && b == 0
    ensures Combine(op, a, b).Some? ==> Computes(op, a, b, Combine(op, a, b).value)
  {
    hide Combine, Computes;
    if op == Plus || op == Minus || op == Star {
      SumsCombine(op, a, b);
    } else if op == Shl || op == Shr {
      ShiftsCombine(op, a, b);
    } else if op == Amp || op == Caret || op == Bar {
      BitsCombine(op, a, b);
    } else if op == Slash || op == Percent {
      QuotientsCombine(op, a, b);
    } else {
      TruthsCombine(op, a, b);
    }
  }

  /**
   A binary operator computes from its operands' values, the left one evaluated first. && and || leave the
   right one out, with all its effects, exactly when the left one decides; only a syntax error in it is met.
   */
  lemma BinaryMeans(op: Token, l: Expr, r: Expr, store: Store)
    requires IsBinaryOp(op)
    ensures var (left, e) := (Eval(l, store), Eval(Binary(op, l, r), store));
            if left.Failed? then e == left
            else if (op == AndAnd && left.value == 0) || (op == OrOr && left.value != 0) then
              e == if FirstBad(r).Some? then Failed(Arithmetic(FirstBad(r).value), left.store)
                   else Value(if op == AndAnd then 0 else 1, left.store)
            else
              var right := Eval(r, left.store);
              if right.Failed? then e == right
              else if op in {Slash, Percent} && right.value == 0 then
                e == Failed(Arithmetic("division by zero"), right.store)
              else e.Value? && e.store == right.store && Computes(op, left.value, right.value, e.value)
  {
    hide Computes, Combine, FirstBad, Eval, EvalIf, IsBinaryOp;
    NodeIs(op, l, r, store);
    var left := Eval(l, store);
    if left.Value? {
      LeftOutIs(r, left.store);
      var right := EvalIf(GoesOn(op, left.value), r, left.store);
      if right.Value? {
        CombineComputes(op, left.value, right.value);
        if !GoesOn(op, left.value) {
          DecidedByLeft(op, left.value);
        }
      }
    }
  }

  lemma DecidedByLeft(op: Token, a: intmax)
    requires !GoesOn(op, a)
    ensures Combine(op, a, 0) == Some(if op == AndAnd then 0 else 1)
  {
  }

  /** What a unary operator makes of a value. */
  predicate Maps(op: Token, a: intmax, v: intmax)
  {
    match op
    case Minus => Congruent(v, 0 - a)
    case Tilde => v as int == 0 - a - 1
    case Bang => v == if a == 0 then 1 else 0
    case Plus => v == a
    case _ => false
  }

  lemma NegationComputes(a: intmax)
    ensures Congruent(Neg(a), 0 - a) && BitNot(a) as int == 0 - a - 1
  {
    AdditionWraps(a, 0);
    WrapIsCongruent(0 - a);
  }

  lemma MappedMaps(op: Token, a: intmax)
    requires op == Minus || op == Tilde || op == Bang || op == Plus
    ensures Maps(op, a, Mapped(op, a))
  {
    hide Congruent, Neg, BitNot;
    NegationComputes(a);
  }

  /** -, ~, ! and + of the operand's value. */
  lemma UnaryMeans(op: Token, operand: Expr, store: Store)
    requires op == Minus || op == Tilde || op == Bang || op == Plus
    ensures var (o, e) := (Eval(operand, store), Eval(Unary(op, operand), store));
            if o.Failed? then e == o else e.Value? && e.store == o.store && Maps(op, o.value, e.value)
  {
    hide *;
    NodeIs(op, operand, operand, store);
    var o := Eval(operand, store);
    if o.Value? {
      MappedMaps(op, o.value);
    }
  }

  /** ?: is the branch the condition chooses; of the other one only a syntax error is met, in its place. */
  lemma ConditionalMeans(c: Expr, t: Expr, f: Expr, store: Store)
    ensures var (condition, e) := (Eval(c, store), Eval(Conditional(c, t, f), store));
            if condition.Failed? then e == condition
            else if condition.value != 0 then
              var yes := Eval(t, condition.store);
              e == if yes.Value? && FirstBad(f).Some? then Failed(Arithmetic(FirstBad(f).value), yes.store) else yes
            else
              e == if FirstBad(t).Some? then Failed(Arithmetic(FirstBad(t).value), condition.store)
                   else Eval(f, condition.store)
  {
    hide *;
    ConditionalNodeIs(c, t, f, store);
    var condition := Eval(c, store);
    if condition.Value? {
      LeftOutIs(t, condition.store);
      LeftOutIs(f, condition.store);
      LeftOutIs(f, Eval(t, condition.store).store);
    }
  }

  /** A number is itself, parentheses are what they hold, and a name before an assignment operator is not read. */
  lemma LeafMeans(n: intmax, inner: Expr, name: string, store: Store)
    ensures Eval(Literal(n), store) == Value(n, store)
    ensures Eval(Paren(inner), store) == Eval(inner, store)
    ensures Eval(Target(name), store) == Value(0, store)
  {
  }

  lemma {:induction false} TargetReadsNothing(l: Expr, store: Store)
    requires IsLhs(l)
    ensures Eval(l, store) == Value(0, store)
  {
    if l.Unary? {
      TargetReadsNothing(l.operand, store);
    }
  }

  /**
   `x = e` sets x to e's value. A compound operator computes from x's value as e leaves it and e's own.
   Nothing is set when e fails, x is read-only or, for a compound operator, x cannot be read or is divided by 0.
   */
  lemma AssignmentMeans(op: Token, plain: Token, l: Expr, r: Expr, store: Store)
    requires IsLhs(l)
    requires (op, plain) in {(Assign, Assign), (PlusEq, Plus), (MinusEq, Minus), (StarEq, Star), (SlashEq, Slash),
                             (PercentEq, Percent), (ShlEq, Shl), (ShrEq, Shr), (AndEq, Amp), (XorEq, Caret), (OrEq, Bar)}
    ensures var (name, right, e) := (LName(l), Eval(r, store), Eval(Assignment(op, l, r), store));
            if right.Failed? then e == right
            else
              var before := if op == Assign then right else Eval(Variable(name), right.store);
              if before.Failed? then e == before
              else if op in {SlashEq, PercentEq} && right.value == 0 then
                e == Failed(Arithmetic("division by zero"), right.store)
              else if name in right.store.readOnly then e == Failed(IsReadOnly(name), right.store)
              else
                && e.Value?
                && (if op == Assign then e.value == right.value else Computes(plain, before.value, right.value, e.value))
                && e.store == right.store.(values := right.store.values[name := Decimal(e.value)])
  {
    hide *;
    NodeIs(op, l, r, store);
    TargetReadsNothing(l, store);
    var right := Eval(r, store);
    if right.Value? {
      VariableNodeIs(LName(l), right.store);
      AssignToMeans(op, plain, LName(l), right);
    } else {
      AssignFails(op, LName(l), right);
    }
  }

  lemma AssignFails(op: Token, name: string, right: Outcome)
    requires right.Failed?
    ensures AssignTo(op, name, right) == right
  {
  }

  lemma SettingIs(name: string, v: intmax, store: Store)
    ensures SetVariable(name, v, store) ==
              if name in store.readOnly then Failed(IsReadOnly(name), store)
              else Value(v, store.(values := store.values[name := Decimal(v)]))
  {
    hide Decimal;
  }

  lemma OperatingIs(op: Token, a: intmax, right: Outcome)
    requires right.Value? && IsBinaryOp(op)
    ensures if op in {Slash, Percent} && right.value == 0 then
              Operate(op, a, right) == Failed(Arithmetic("division by zero"), right.store)
            else
              && Operate(op, a, right).Value? && Operate(op, a, right).store == right.store
              && Computes(op, a, right.value, Operate(op, a, right).value)
  {
    hide Combine, Computes, IsBinaryOp;
    CombineComputes(op, a, right.value);
  }

  /** The part of an assignment after its right-hand side. */
  lemma AssignToMeans(op: Token, plain: Token, name: string, right: Outcome)
    requires right.Value?
    requires (op, plain) in {(Assign, Assign), (PlusEq, Plus), (MinusEq, Minus), (StarEq, Star), (SlashEq, Slash),
                             (PercentEq, Percent), (ShlEq, Shl), (ShrEq, Shr), (AndEq, Amp), (XorEq, Caret), (OrEq, Bar)}
    ensures var e := AssignTo(op, name, right);
            var before := if op == Assign then right else VariableValue(name, right.store);
            if before.Failed? then e == before
            else if op in {SlashEq, PercentEq} && right.value == 0 then
              e == Failed(Arithmetic("division by zero"), right.store)
            else if name in right.store.readOnly then e == Failed(IsReadOnly(name), right.store)
            else
              && e.Value?
              && (if op == Assign then e.value == right.value else Computes(plain, before.value, right.value, e.value))
              && e.store == right.store.(values := right.store.values[name := Decimal(e.value)])
  {
    hide Computes, Operate, VariableValue, Decimal, Underlying, SetVariable, IsBinaryOp;
    if op == Assign {
      SettingIs(name, right.value, right.store);
    } else {
      CompoundIs(op, plain);
      var before := VariableValue(name, right.store);
      if before.Value? {
        OperatingIs(plain, before.value, right);
        var result := Operate(plain, before.value, right);
        if result.Value? {
          SettingIs(name, result.value, right.store);
        }
      }
    }
  }

  lemma CompoundIs(op: Token, plain: Token)
    requires (op, plain) in {(PlusEq, Plus), (MinusEq, Minus), (StarEq, Star), (SlashEq, Slash), (PercentEq, Percent),
                             (ShlEq, Shl), (ShrEq, Shr), (AndEq, Amp), (XorEq, Caret), (OrEq, Bar)}
    ensures Underlying(op) == plain && IsBinaryOp(plain)
    ensures plain in {Slash, Percent} <==> op in {SlashEq, PercentEq}
  {
  }

  /** What was assigned is what reading the name then gives. */
  lemma AssignedIsRead(op: Token, l: Expr, r: Expr, store: Store)
    requires IsLhs(l) && Eval(Assignment(op, l, r), store).Value?
    ensures var e := Eval(Assignment(op, l, r), store); Eval(Variable(LName(l)), e.store) == e
  {
    hide AssignTo, VariableValue;
    AssignmentReadsBack(op, LName(l), Eval(r, Eval(l, store).store));
  }
}
