/** What an expression of hsh arithmetic means, given and changing the shell's variables (HshArithmetic.cpp:145-414). */
module ArithEval {
  import opened Basics
  import opened Int64
  import opened ArithLexer
  import opened ArithGrammar

  /** The shell's variables, as IArithmeticVariables shows them. */
  datatype Store = Store(values: map<string, string>, readOnly: set<string>)

  datatype Error = Arithmetic(what: string) | IllegalNumber(text: string) | IsReadOnly(name: string)

  /** How an evaluation ends, with the variables as it leaves them. */
  datatype Outcome = Value(value: intmax, store: Store) | Failed(error: Error, store: Store)

  const DIVISION_BY_ZERO: Error := Arithmetic("division by zero")

  // ---- Variables ------------------------------------------------------------------------------

  /** The string up to its first NUL, as c_str() shows it to C. */
  function CString(s: string): (c: string)
    ensures |c| <= |s|
  {
    if s == [] || s[0] == '\0' then [] else [s[0]] + CString(s[1..])
  }

  function BlankRun(s: string): (n: nat)
    ensures n <= |s|
  {
    if s == [] || !IsBlank(s[0]) then 0 else 1 + BlankRun(s[1..])
  }

  /** Unset or empty is 0; otherwise a number and nothing but blanks after it. */
  function VariableValue(name: string, store: Store): Outcome
  {
    if name !in store.values || store.values[name] == "" then Value(0, store)
    else
      var text := CString(store.values[name]);
      var (value, end) := StrToIMax(text);
      if end == 0 || end + BlankRun(text[end..]) != |text| then Failed(IllegalNumber(store.values[name]), store)
      else Value(value, store)
  }

  function SetVariable(name: string, value: intmax, store: Store): Outcome
  {
    if name in store.readOnly then Failed(IsReadOnly(name), store)
    else Value(value, store.(values := store.values[name := Decimal(value)]))
  }

  // ---- Operators ------------------------------------------------------------------------------

  function Truth(b: bool): intmax { if b then 1 else 0 }

  /** Whether the right operand is evaluated. */
  predicate GoesOn(op: Token, a: intmax)
  {
    (op == AndAnd ==> a != 0) && (op == OrOr ==> a == 0)
  }

  /** A binary operator's value; None for a division by zero. */
  function Combine(op: Token, a: intmax, b: intmax): Option<intmax>
  {
    match op
    case OrOr => Some(Truth(a != 0 || b != 0))
    case AndAnd => Some(Truth(a != 0 && b != 0))
    case Bar => Some(Or(a, b))
    case Caret => Some(Xor(a, b))
    case Amp => Some(And(a, b))
    case EqEq => Some(Truth(a == b))
    case NotEq => Some(Truth(a != b))
    case Lt => Some(Truth(a < b))
    case Le => Some(Truth(a <= b))
    case Gt => Some(Truth(a > b))
    case Ge => Some(Truth(a >= b))
    case Shl => Some(ShiftLeft(a, b))
    case Shr => Some(ShiftRight(a, b))
    case Plus => Some(Add(a, b))
    case Minus => Some(Sub(a, b))
    case Star => Some(Mul(a, b))
    case Slash => if b == 0 then None else Some(Div(a, b))
    case Percent => if b == 0 then None else Some(Mod(a, b))
    case _ => Some(b)
  }

  /** The operator a compound assignment applies; Assign applies none. */
  function Underlying(op: Token): Token
  {
    match op
    case PlusEq => Plus
    case MinusEq => Minus
    case StarEq => Star
    case SlashEq => Slash
    case PercentEq => Percent
    case ShlEq => Shl
    case ShrEq => Shr
    case AndEq => Amp
    case XorEq => Caret
    case OrEq => Bar
    case _ => op
  }

  function Mapped(op: Token, a: intmax): intmax
  {
    match op
    case Minus => Neg(a)
    case Tilde => BitNot(a)
    case Bang => Truth(a == 0)
    case _ => a
  }

  /** An operator between a value and an operand's outcome. */
  function Operate(op: Token, a: intmax, right: Outcome): Outcome
  {
    if right.Failed? then right
    else match Combine(op, a, right.value)
      case None => Failed(DIVISION_BY_ZERO, right.store)
      case Some(v) => Value(v, right.store)
  }

  /** Sets the name to the right-hand side's value; a compound operator reads the name only now. */
  function AssignTo(op: Token, name: string, right: Outcome): Outcome
  {
    if right.Failed? then right
    else if op == Assign then SetVariable(name, right.value, right.store)
    else
      var old_ := VariableValue(name, right.store);
      if old_.Failed? then old_
      else
        var result := Operate(Underlying(op), old_.value, right);
        if result.Failed? then result else SetVariable(name, result.value, result.store)
  }

  // ---- Meaning --------------------------------------------------------------------------------

  /** An operand that is not evaluated: only a syntax error in it is met. */
  function Skip(e: Expr, store: Store): Outcome
  {
    match FirstBad(e)
    case Some(what) => Failed(Arithmetic(what), store)
    case None => Value(0, store)
  }

  function EvalIf(evaluate: bool, e: Expr, store: Store): Outcome
    decreases e, 1
  {
    if evaluate then Eval(e, store) else Skip(e, store)
  }

  /** Evaluation from left to right; an error ends it where it is met. */
  function Eval(e: Expr, store: Store): Outcome
    decreases e, 0
  {
    match e
    case Literal(n) => Value(n, store)
    case Variable(name) => VariableValue(name, store)
    case Target(_) => Value(0, store)
    case Paren(inner) => Eval(inner, store)
    case Unary(op, operand) =>
      var o := Eval(operand, store);
      if o.Failed? then o else Value(Mapped(op, o.value), o.store)
    case Binary(op, l, r) =>
      var left := Eval(l, store);
      if left.Failed? then left
      else Operate(op, left.value, EvalIf(GoesOn(op, left.value), r, left.store))
    case Conditional(c, t, f) =>
      var condition := Eval(c, store);
      if condition.Failed? then condition
      else
        var yes := EvalIf(condition.value != 0, t, condition.store);
        if yes.Failed? then yes
        else
          var no := EvalIf(condition.value == 0, f, yes.store);
          if no.Failed? then no
          else Value(if condition.value != 0 then yes.value else no.value, no.store)
    case Assignment(op, l, r) =>
      var target := Eval(l, store);
      if target.Failed? then target else AssignTo(op, LName(l), Eval(r, target.store))
    case Bad(what) => Failed(Arithmetic(what), store)
    case Then(first, what) =>
      var before := Eval(first, store);
      if before.Failed? then before else Failed(Arithmetic(what), before.store)
  }

  /** What a text evaluates to. */
  function Meaning(text: string, store: Store): Outcome
  {
    Eval(ParseRun(TokensOf(text)).tree, store)
  }

  // ---- Laws -----------------------------------------------------------------------------------

  /** A syntax error is never lost: with one anywhere, in a branch not taken too, the evaluation fails. */
  lemma {:induction false} SyntaxErrorsStand(e: Expr, store: Store)
    requires FirstBad(e).Some?
    ensures Eval(e, store).Failed?
    decreases e, 1
  {
    match e
    case Paren(inner) => SyntaxErrorsStand(inner, store);
    case Unary(_, operand) => SyntaxErrorsStand(operand, store);
    case Binary(op, l, r) =>
      if FirstBad(l).Some? { SyntaxErrorsStand(l, store); }
      else if Eval(l, store).Value? { SyntaxErrorsStand(r, Eval(l, store).store); }
    case Conditional(c, t, f) => ErrorInConditional(c, t, f, store);
    case Assignment(_, l, r) =>
      if FirstBad(l).Some? { SyntaxErrorsStand(l, store); }
      else if Eval(l, store).Value? { SyntaxErrorsStand(r, Eval(l, store).store); }
    case _ =>
  }

  lemma {:induction false} ErrorInConditional(c: Expr, t: Expr, f: Expr, store: Store)
    requires FirstBad(Conditional(c, t, f)).Some?
    ensures Eval(Conditional(c, t, f), store).Failed?
    decreases Conditional(c, t, f), 0
  {
    if FirstBad(c).Some? {
      SyntaxErrorsStand(c, store);
    } else if Eval(c, store).Value? {
      var condition := Eval(c, store);
      if FirstBad(t).Some? {
        SyntaxErrorsStand(t, condition.store);
      } else {
        SyntaxErrorsStand(f, EvalIf(condition.value != 0, t, condition.store).store);
      }
    }
  }

  /** The names an expression may set. */
  function Assigned(e: Expr): set<string>
  {
    match e
    case Paren(inner) => Assigned(inner)
    case Unary(_, operand) => Assigned(operand)
    case Binary(_, l, r) => Assigned(l) + Assigned(r)
    case Conditional(c, t, f) => Assigned(c) + Assigned(t) + Assigned(f)
    case Assignment(_, l, r) => Assigned(l) + {LName(l)} + Assigned(r)
    case Then(first, _) => Assigned(first)
    case _ => {}
  }

  /** Only the names of a set may differ, and none of them that is read-only. */
  ghost predicate Differs(names: set<string>, a: Store, b: Store)
  {
    && a.readOnly == b.readOnly
    && forall n :: n !in names || n in a.readOnly ==>
         (n in a.values <==> n in b.values) && (n in a.values ==> a.values[n] == b.values[n])
  }

  lemma DiffersOn(names: set<string>, a: Store, b: Store, c: Store)
    requires Differs(names, a, b) && Differs(names, b, c)
    ensures Differs(names, a, c)
  {
  }

  /** An evaluation sets no name it does not assign to and never a read-only one, whichever way it ends. */
  lemma {:induction false} OnlyAssignedChange(e: Expr, names: set<string>, store: Store)
    requires Assigned(e) <= names
    ensures Differs(names, store, Eval(e, store).store)
    decreases e, 1
  {
    match e
    case Paren(inner) => OnlyAssignedChange(inner, names, store);
    case Unary(_, operand) => OnlyAssignedChange(operand, names, store);
    case Then(first, _) => OnlyAssignedChange(first, names, store);
    case Binary(op, l, r) =>
      var s1 := Eval(l, store).store;
      OnlyAssignedChange(l, names, store);
      OnlyAssignedChange(r, names, s1);
      DiffersOn(names, store, s1, Eval(r, s1).store);
      hide Differs, Combine;
    case Conditional(c, t, f) => BranchesChange(c, t, f, names, store);
    case Assignment(op, l, r) => AssignmentChanges(op, l, r, names, store);
    case Variable(name) => ReadingKeeps(name, store);
    case _ =>
  }

  lemma {:induction false} BranchesChange(c: Expr, t: Expr, f: Expr, names: set<string>, store: Store)
    requires Assigned(Conditional(c, t, f)) <= names
    ensures Differs(names, store, Eval(Conditional(c, t, f), store).store)
    decreases Conditional(c, t, f), 0
  {
    var s1 := Eval(c, store).store;
    OnlyAssignedChange(c, names, store);
    OnlyAssignedChange(t, names, s1);
    OnlyAssignedChange(f, names, s1);
    DiffersOn(names, store, s1, Eval(t, s1).store);
    DiffersOn(names, store, s1, Eval(f, s1).store);
    hide Differs, Assigned;
  }

  lemma {:induction false} AssignmentChanges(op: Token, l: Expr, r: Expr, names: set<string>, store: Store)
    requires Assigned(Assignment(op, l, r)) <= names
    ensures Differs(names, store, Eval(Assignment(op, l, r), store).store)
    decreases Assignment(op, l, r), 0
  {
    var s1 := Eval(l, store).store;
    var right := Eval(r, s1);
    OnlyAssignedChange(l, names, store);
    OnlyAssignedChange(r, names, s1);
    DiffersOn(names, store, s1, right.store);
    SetsOne(op, LName(l), right, names);
    DiffersOn(names, store, right.store, AssignTo(op, LName(l), right).store);
    hide Differs, AssignTo;
  }

  lemma SetsOne(op: Token, name: string, right: Outcome, names: set<string>)
    requires name in names
    ensures Differs(names, right.store, AssignTo(op, name, right).store)
  {
    hide Combine, VariableValue;
    assert VariableValue(name, right.store).store == right.store by { ReadingKeeps(name, right.store); }
  }

  lemma ReadingKeeps(name: string, store: Store)
    ensures VariableValue(name, store).store == store
  {
    hide StrToIMax, BlankRun, CString;
  }

  lemma {:induction false} NoNul(s: string)
    requires forall i :: 0 <= i < |s| ==> s[i] != '\0'
    ensures CString(s) == s
  {
    if s != [] {
      NoNul(s[1..]);
    }
  }

  /** What an assignment that succeeds gives is what reading the name then gives. */
  lemma AssignmentReadsBack(op: Token, name: string, right: Outcome)
    requires AssignTo(op, name, right).Value?
    ensures var after := AssignTo(op, name, right);
            VariableValue(name, after.store) == Value(after.value, after.store)
  {
    var after := AssignTo(op, name, right);
    hide Combine, StrToIMax;
    var text := Decimal(after.value);
    assert after.store.values[name] == text && name in after.store.values;
    DecimalIsPlain(after.value);
    DecimalReadsBack(after.value, "");
    assert text + "" == text && text[|text|..] == "";
    hide AssignTo, Decimal, CString;
  }

  lemma DecimalIsPlain(v: intmax)
    ensures Decimal(v) != "" && CString(Decimal(v)) == Decimal(v)
  {
    var d := Digits(if v < 0 then 0 - v else v);
    assert forall i :: 0 <= i < |Decimal(v)| ==> Decimal(v)[i] == '-' || Decimal(v)[i] in d;
    hide Digits;
    NoNul(Decimal(v));
  }
}
