/** The lexer of hsh arithmetic (HshArithmetic.cpp) and the C library's base-0 strtoimax it reads numbers with. */
module ArithLexer {
  import opened Basics
  import opened Int64

  datatype Token =
    | End | Invalid | Number(number: intmax) | Name(name: string)
    | Plus | Minus | Star | Slash | Percent
    | Shl | Shr | Lt | Le | Gt | Ge | EqEq | NotEq
    | Amp | Caret | Bar | Bang | Tilde
    | AndAnd | OrOr | Question | Colon
    | Assign | PlusEq | MinusEq | StarEq | SlashEq | PercentEq | ShlEq | ShrEq | AndEq | XorEq | OrEq
    | LParen | RParen

  predicate IsBlank(c: char) { c == ' ' || c == '\t' || c == '\n' }

  predicate IsDigit(c: char) { '0' <= c <= '9' }

  predicate IsAlpha(c: char) { 'a' <= c <= 'z' || 'A' <= c <= 'Z' }

  predicate IsNameStart(c: char) { IsAlpha(c) || c == '_' }

  predicate IsNameChar(c: char) { IsNameStart(c) || IsDigit(c) }

  // ---- strtoimax(text, &end, 0): section 7.8.2.3 of ISO C17 -----------------------------------

  /** isspace in the C locale. */
  predicate IsSpace(c: char) { c == ' ' || '\t' <= c <= '\r' }

  /** A digit's value, 16 for what is no digit of any base here. */
  function DigitValue(c: char): nat
  {
    if IsDigit(c) then (c - '0') as nat
    else if 'a' <= c <= 'f' then 10 + (c - 'a') as nat
    else if 'A' <= c <= 'F' then 10 + (c - 'A') as nat
    else 16
  }

  /** How many digits of the base the text starts with. */
  function DigitRun(s: string, base: nat): (n: nat)
    requires base <= 16
    ensures n <= |s|
    ensures forall i :: 0 <= i < n ==> DigitValue(s[i]) < base
    ensures n < |s| ==> DigitValue(s[n]) >= base
  {
    if s == [] || DigitValue(s[0]) >= base then 0 else 1 + DigitRun(s[1..], base)
  }

  /** The number the digits write, most significant first. */
  function ValueOf(digits: string, base: nat): nat
  {
    if digits == [] then 0 else ValueOf(digits[..|digits| - 1], base) * base + DigitValue(digits[|digits| - 1])
  }

  function Saturated(n: int): intmax
  {
    if n < INTMAX_MIN then INTMAX_MIN else if n > INTMAX_MAX then INTMAX_MAX else n
  }

  function SpaceRun(s: string): (n: nat)
    ensures n <= |s|
  {
    if s == [] || !IsSpace(s[0]) then 0 else 1 + SpaceRun(s[1..])
  }

  /** The base of the digits to come and where they start: 0x and a hex digit, a leading 0, or neither. */
  function Prefix(s: string): (p: (nat, nat))
    ensures p.0 in {8, 10, 16} && p.1 <= |s|
  {
    if |s| >= 3 && s[0] == '0' && (s[1] == 'x' || s[1] == 'X') && DigitValue(s[2]) < 16 then (16, 2)
    else if |s| >= 1 && s[0] == '0' then (8, 0)
    else (10, 0)
  }

  /** The value of the digits the text starts with, after their prefix, and how much that is; (0, 0) for none. */
  function ReadUnsigned(s: string): (r: (nat, nat))
    ensures r.1 <= |s|
  {
    var (base, skip) := Prefix(s);
    var digits := s[skip..];
    var n := DigitRun(digits, base);
    if n == 0 then (0, 0) else (ValueOf(digits[..n], base), skip + n)
  }

  /** The value and how much of the text was read; nothing read when no digit is found. */
  function StrToIMax(text: string): (r: (intmax, nat))
    ensures r.1 <= |text|
  {
    var space := SpaceRun(text);
    var signed := space < |text| && (text[space] == '-' || text[space] == '+');
    var start := if signed then space + 1 else space;
    var (value, n) := ReadUnsigned(text[start..]);
    if n == 0 then (0, 0)
    else (Saturated(if signed && text[space] == '-' then 0 - value else value), start + n)
  }

  // ---- Tokens ---------------------------------------------------------------------------------

  /** How many name characters the text starts with. */
  function NameRun(s: string): (n: nat)
    ensures n <= |s|
    ensures forall i :: 0 <= i < n ==> IsNameChar(s[i])
    ensures n < |s| ==> !IsNameChar(s[n])
  {
    if s == [] || !IsNameChar(s[0]) then 0 else 1 + NameRun(s[1..])
  }

  function TwoCharOperator(a: char, b: char): Option<Token>
  {
    if a == '<' && b == '<' then Some(Shl)
    else if a == '>' && b == '>' then Some(Shr)
    else if a == '&' && b == '&' then Some(AndAnd)
    else if a == '|' && b == '|' then Some(OrOr)
    else if b != '=' then None
    else match a
      case '<' => Some(Le)
      case '>' => Some(Ge)
      case '=' => Some(EqEq)
      case '!' => Some(NotEq)
      case '*' => Some(StarEq)
      case '/' => Some(SlashEq)
      case '%' => Some(PercentEq)
      case '+' => Some(PlusEq)
      case '-' => Some(MinusEq)
      case '&' => Some(AndEq)
      case '^' => Some(XorEq)
      case '|' => Some(OrEq)
      case _ => None
  }

  function OneCharOperator(c: char): Token
  {
    match c
    case '+' => Plus
    case '-' => Minus
    case '*' => Star
    case '/' => Slash
    case '%' => Percent
    case '<' => Lt
    case '>' => Gt
    case '&' => Amp
    case '^' => Caret
    case '|' => Bar
    case '!' => Bang
    case '~' => Tilde
    case '?' => Question
    case ':' => Colon
    case '=' => Assign
    case '(' => LParen
    case ')' => RParen
    case _ => Invalid
  }

  /** Operators, longest first, and how many characters each takes. */
  function OperatorAt(s: string): (r: (Token, nat))
    requires s != []
    ensures 1 <= r.1 <= |s|
  {
    if |s| >= 3 && s[0] == s[1] == '<' && s[2] == '=' then (ShlEq, 3)
    else if |s| >= 3 && s[0] == s[1] == '>' && s[2] == '=' then (ShrEq, 3)
    else if |s| >= 2 && TwoCharOperator(s[0], s[1]).Some? then (TwoCharOperator(s[0], s[1]).value, 2)
    else (OneCharOperator(s[0]), 1)
  }

  /** The token a text that does not start with a blank starts with, and its length. */
  function TokenAt(s: string): (r: (Token, nat))
    requires s != []
    ensures 1 <= r.1 <= |s|
  {
    if IsDigit(s[0]) then
      var (value, n) := StrToIMax(s);
      DigitIsRead(s);
      (Number(value), n)
    else if IsNameStart(s[0]) then (Name(s[..NameRun(s)]), NameRun(s))
    else OperatorAt(s)
  }

  /** strtoimax reads something when the text starts with a digit. */
  lemma DigitIsRead(s: string)
    requires s != [] && IsDigit(s[0])
    ensures StrToIMax(s).1 >= 1
  {
    assert s[0..] == s;
  }

  /** The tokens of a text, End at the end. */
  function TokensOf(s: string): seq<Token>
  {
    if s == [] then [End]
    else if IsBlank(s[0]) then TokensOf(s[1..])
    else [TokenAt(s).0] + TokensOf(s[TokenAt(s).1..])
  }

  /** Tokenize's loop. */
  method Tokenize(expression: string) returns (tokens: seq<Token>)
    ensures tokens == TokensOf(expression)
  {
    hide TokenAt;
    tokens := [];
    var i := 0;
    while i < |expression|
      invariant i <= |expression|
      invariant tokens + TokensOf(expression[i..]) == TokensOf(expression)
    {
      assert expression[i..][1..] == expression[i + 1..];
      if IsBlank(expression[i]) {
        i := i + 1;
        continue;
      }
      var token, next := ReadToken(expression, i);
      assert expression[i..][next - i..] == expression[next..];
      tokens := tokens + [token];
      i := next;
    }
    tokens := tokens + [End];
  }

  /** The part of the loop that reads one token. */
  method ReadToken(expression: string, begin: nat) returns (token: Token, next: nat)
    requires begin < |expression|
    ensures begin < next <= |expression|
    ensures (token, next - begin) == TokenAt(expression[begin..])
  {
    hide StrToIMax, OperatorAt, NameRun;
    var c := expression[begin];
    ghost var rest := expression[begin..];
    next := begin;
    if IsDigit(c) {
      var (value, read) := StrToIMax(expression[begin..]);
      token := Number(value);
      DigitIsRead(rest);
      next := begin + read;
    } else if IsNameStart(c) {
      while next < |expression| && IsNameChar(expression[next])
        invariant begin <= next <= |expression|
        invariant forall j :: begin <= j < next ==> IsNameChar(expression[j])
      {
        next := next + 1;
      }
      NameEnds(expression, begin, next);
      token := Name(expression[begin..next]);
    } else {
      var (operator, length) := OperatorAt(expression[begin..]);
      token := operator;
      next := begin + length;
    }
  }

  lemma NameEnds(expression: string, begin: nat, next: nat)
    requires begin <= next <= |expression| && (forall j :: begin <= j < next ==> IsNameChar(expression[j]))
    requires next < |expression| ==> !IsNameChar(expression[next])
    ensures NameRun(expression[begin..]) == next - begin && expression[begin..][..next - begin] == expression[begin..next]
  {
    hide IsNameChar, NameRun;
    NameRunIs(expression[begin..], next - begin);
  }

  lemma {:induction false} NameRunIs(s: string, n: nat)
    requires n <= |s| && (forall j :: 0 <= j < n ==> IsNameChar(s[j])) && (n < |s| ==> !IsNameChar(s[n]))
    ensures NameRun(s) == n
  {
    if n > 0 {
      NameRunIs(s[1..], n - 1);
    }
  }

  lemma {:induction false} DigitRunIs(s: string, base: nat, n: nat)
    requires base <= 16 && n <= |s|
    requires (forall j :: 0 <= j < n ==> DigitValue(s[j]) < base) && (n < |s| ==> DigitValue(s[n]) >= base)
    ensures DigitRun(s, base) == n
  {
    if n > 0 {
      DigitRunIs(s[1..], base, n - 1);
    }
  }

  lemma TokenIsNotEnd(s: string)
    requires s != []
    ensures TokenAt(s).0 != End
  {
    hide StrToIMax, NameRun;
  }

  /** End is the last token, and only that. */
  lemma {:induction false} EndIsLast(s: string)
    ensures var ts := TokensOf(s);
            |ts| >= 1 && ts[|ts| - 1] == End && forall i :: 0 <= i < |ts| - 1 ==> ts[i] != End
  {
    hide TokenAt;
    if s != [] {
      TokenIsNotEnd(s);
      if IsBlank(s[0]) {
        EndIsLast(s[1..]);
      } else {
        EndIsLast(s[TokenAt(s).1..]);
      }
    }
  }

  // ---- Decimal --------------------------------------------------------------------------------

  function Digits(n: nat): (d: string)
    ensures |d| >= 1
    ensures forall i :: 0 <= i < |d| ==> IsDigit(d[i])
    ensures n > 0 ==> d[0] != '0'
  {
    var last := ('0' as int + n % 10) as char;
    if n < 10 then [last] else Digits(n / 10) + [last]
  }

  /** std::to_string. */
  function Decimal(v: intmax): string
  {
    if v < 0 then "-" + Digits(0 - v) else Digits(v)
  }

  lemma {:induction false} DigitsWrite(n: nat)
    ensures ValueOf(Digits(n), 10) == n
  {
    var last := ('0' as int + n % 10) as char;
    assert DigitValue(last) == n % 10;
    if n >= 10 {
      DigitsWrite(n / 10);
      assert Digits(n)[..|Digits(n)| - 1] == Digits(n / 10);
    } else {
      assert Digits(n)[..0] == "";
    }
  }

  /** What may follow a number without being read into it: nothing, or no digit, letter or underscore. */
  predicate Delimits(tail: string)
  {
    tail == [] || !IsNameChar(tail[0])
  }

  /** A text without a 0x prefix is read up to its first character that is no digit. */
  lemma UnsignedIs(s: string, base: nat, n: nat)
    requires Prefix(s) == (base, 0) && 0 < n <= |s| && base <= 16
    requires (forall j :: 0 <= j < n ==> DigitValue(s[j]) < base) && (n < |s| ==> DigitValue(s[n]) >= base)
    ensures ReadUnsigned(s) == (ValueOf(s[..n], base), n)
  {
    DigitRunIs(s, base, n);
    hide Prefix, DigitRun, ValueOf, DigitValue;
    assert s[0..] == s;
  }

  lemma ZeroIsRead(tail: string)
    requires Delimits(tail)
    ensures ReadUnsigned("0" + tail) == (0, 1)
  {
    var s := "0" + tail;
    assert s[..1] == "0" && s[..1][..0] == "";
    assert tail != [] ==> s[1] == tail[0];
    UnsignedIs(s, 8, 1);
    hide Prefix, ReadUnsigned;
  }

  lemma NumeralIsRead(n: nat, tail: string)
    requires Delimits(tail)
    ensures ReadUnsigned(Digits(n) + tail) == (n, |Digits(n)|)
  {
    if n == 0 {
      assert Digits(0) == "0";
      ZeroIsRead(tail);
    } else {
      var d := Digits(n);
      DigitsWrite(n);
      hide Digits, ValueOf, ReadUnsigned;
      var text := d + tail;
      assert text[0] == d[0] && text[..|d|] == d;
      assert |d| < |text| ==> text[|d|] == tail[0];
      UnsignedIs(text, 10, |d|);
    }
  }

  /** An optional minus sign before a numeral. */
  lemma SignedIs(text: string, negative: bool, value: nat, n: nat)
    requires text != [] && (if negative then text[0] == '-' else IsDigit(text[0]))
    requires ReadUnsigned(text[if negative then 1 else 0..]) == (value, n) && n > 0
    ensures StrToIMax(text) == (Saturated(if negative then 0 - value else value), n + if negative then 1 else 0)
  {
    hide ReadUnsigned, Saturated;
    assert SpaceRun(text) == 0;
  }

  /** A value written in decimal reads back as itself, whatever ends the numeral. */
  lemma DecimalReadsBack(v: intmax, tail: string)
    requires Delimits(tail)
    ensures StrToIMax(Decimal(v) + tail) == (v, |Decimal(v)|)
  {
    hide *;
    var n: nat := if v < 0 then 0 - v else v;
    DecimalIs(v, tail);
    NumeralIsRead(n, tail);
    SignedIs(Decimal(v) + tail, v < 0, n, |Digits(n)|);
  }

  /** The text of a number: a '-' if need be, then the digits. */
  lemma DecimalIs(v: intmax, tail: string)
    ensures var n: nat := if v < 0 then 0 - v else v;
            var text := Decimal(v) + tail;
            && Saturated(v) == v && text != "" && |Digits(n)| > 0
            && (if v < 0 then text[0] == '-' else IsDigit(text[0]))
            && text[if v < 0 then 1 else 0..] == Digits(n) + tail
            && |Decimal(v)| == |Digits(n)| + if v < 0 then 1 else 0
  {
    var n: nat := if v < 0 then 0 - v else v;
    var d := Digits(n);
    assert IsDigit(d[0]);
    hide Digits, IsDigit;
    assert v < 0 ==> ("-" + d + tail)[1..] == d + tail;
    assert v >= 0 ==> (d + tail)[0..] == d + tail;
  }

  // ---- Spelling -------------------------------------------------------------------------------

  /** How a token is written; Invalid and End have no spelling. */
  function Spelling(t: Token): string
  {
    match t
    case End => "" case Invalid => ""
    case Number(n) => Decimal(n) case Name(name) => name
    case Plus => "+" case Minus => "-" case Star => "*" case Slash => "/" case Percent => "%"
    case Shl => "<<" case Shr => ">>" case Lt => "<" case Le => "<=" case Gt => ">" case Ge => ">="
    case EqEq => "==" case NotEq => "!="
    case Amp => "&" case Caret => "^" case Bar => "|" case Bang => "!" case Tilde => "~"
    case AndAnd => "&&" case OrOr => "||" case Question => "?" case Colon => ":"
    case Assign => "=" case PlusEq => "+=" case MinusEq => "-=" case StarEq => "*=" case SlashEq => "/="
    case PercentEq => "%=" case ShlEq => "<<=" case ShrEq => ">>=" case AndEq => "&=" case XorEq => "^=" case OrEq => "|="
    case LParen => "(" case RParen => ")"
  }

  /** A token the lexer makes of some text. */
  predicate IsSpelled(t: Token)
  {
    match t
    case End => false
    case Invalid => false
    case Number(n) => n >= 0
    case Name(name) => name != [] && IsNameStart(name[0]) && forall i :: 0 <= i < |name| ==> IsNameChar(name[i])
    case _ => true
  }

  function Spelled(ts: seq<Token>): string
  {
    if ts == [] then "" else Spelling(ts[0]) + " " + Spelled(ts[1..])
  }

  lemma OperatorReadsBack(t: Token, rest: string)
    requires IsSpelled(t) && !t.Number? && !t.Name?
    ensures Spelling(t) != [] && !IsBlank(Spelling(t)[0])
    ensures TokenAt(Spelling(t) + " " + rest) == (t, |Spelling(t)|)
  {
    var s := Spelling(t);
    assert 1 <= |s| <= 3 && !IsDigit(s[0]) && !IsNameStart(s[0]) && !IsBlank(s[0]);
    assert OperatorAt(s) == (t, |s|);
    hide Spelling;
    OperatorIsSelfDelimiting(s, rest);
  }

  /** A blank after an operator makes no longer operator of it. */
  lemma OperatorIsSelfDelimiting(s: string, rest: string)
    requires 1 <= |s| <= 3 && OperatorAt(s).1 == |s|
    ensures OperatorAt(s + " " + rest) == OperatorAt(s)
  {
    var text := s + " " + rest;
    assert text[0] == s[0] && text[1] == (if |s| > 1 then s[1] else ' ');
    assert |text| > 2 ==> text[2] == if |s| > 2 then s[2] else if |s| == 2 then ' ' else rest[0];
    hide OneCharOperator;
  }

  lemma NumberReadsBack(n: intmax, rest: string)
    requires n >= 0
    ensures Decimal(n) != [] && IsDigit(Decimal(n)[0])
    ensures TokenAt(Decimal(n) + " " + rest) == (Number(n), |Decimal(n)|)
  {
    var d := Decimal(n);
    var text := d + " " + rest;
    assert d == Digits(n) && text[0] == d[0] && IsDigit(d[0]);
    assert text == d + (" " + rest);
    hide Digits, Decimal, StrToIMax;
    DecimalReadsBack(n, " " + rest);
  }

  lemma NameReadsBack(name: string, rest: string)
    requires IsSpelled(Name(name))
    ensures TokenAt(name + " " + rest) == (Name(name), |name|)
  {
    var text := name + " " + rest;
    assert text[0] == name[0];
    NameRunIs(text, |name|);
    hide NameRun, StrToIMax;
    assert text[..|name|] == name;
  }

  lemma TokenReadsBack(t: Token, rest: string)
    requires IsSpelled(t)
    ensures Spelling(t) != [] && !IsBlank(Spelling(t)[0])
    ensures TokenAt(Spelling(t) + " " + rest) == (t, |Spelling(t)|)
  {
    if t.Number? {
      NumberReadsBack(t.number, rest);
      hide TokenAt, Decimal;
    } else if t.Name? {
      NameReadsBack(t.name, rest);
      hide TokenAt;
    } else {
      OperatorReadsBack(t, rest);
      hide TokenAt, Spelling;
    }
  }

  /** Any list of tokens, each spelled and followed by a blank, is read back as that list. */
  lemma {:induction false} TokensReadBack(ts: seq<Token>)
    requires forall i :: 0 <= i < |ts| ==> IsSpelled(ts[i])
    ensures TokensOf(Spelled(ts)) == ts + [End]
  {
    hide IsSpelled, Spelling, TokenAt, TokensOf;
    if ts != [] {
      var rest := Spelled(ts[1..]);
      TokenReadsBack(ts[0], rest);
      TokensReadBack(ts[1..]);
      FirstTokenOf(Spelling(ts[0]), rest, ts[0]);
    } else {
      assert TokensOf("") == [End] by { NoTokens(); }
    }
  }

  lemma NoTokens()
    ensures TokensOf("") == [End]
  {
  }

  lemma FirstTokenOf(spelling: string, rest: string, t: Token)
    requires spelling != [] && !IsBlank(spelling[0]) && TokenAt(spelling + " " + rest) == (t, |spelling|)
    ensures TokensOf(spelling + " " + rest) == [t] + TokensOf(rest)
  {
    hide TokenAt;
    var text := spelling + " " + rest;
    assert text[0] == spelling[0];
    assert text[|spelling|..] == " " + rest;
    assert (" " + rest)[1..] == rest;
    assert TokensOf(" " + rest) == TokensOf(rest);
  }
}
