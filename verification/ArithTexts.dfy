/**
 What numbers and operators look like in hsh arithmetic (HshArithmetic.cpp:60-141) and what a variable's text
 is worth (HshArithmetic.cpp:374-390): the longest text of the right form is read, whatever follows it.
 */
module ArithTexts {
  import opened Basics
  import opened Int64
  import opened ArithLexer
  import opened ArithGrammar
  import opened ArithEval

  // ---- Numerals -------------------------------------------------------------------------------

  predicate AllDigits(s: string, base: nat)
  {
    forall i :: 0 <= i < |s| ==> DigitValue(s[i]) < base
  }

  /** The text is a C constant for the number: decimal, octal with a leading 0, or hexadecimal with 0x. */
  predicate Writes(numeral: string, n: nat)
  {
    || (numeral != "" && numeral[0] != '0' && AllDigits(numeral, 10) && n == ValueOf(numeral, 10))
    || (numeral != "" && numeral[0] == '0' && AllDigits(numeral, 8) && n == ValueOf(numeral, 8))
    || (|numeral| > 2 && numeral[0] == '0' && numeral[1] in {'x', 'X'} && AllDigits(numeral[2..], 16)
        && n == ValueOf(numeral[2..], 16))
  }

  /** The sixteen digits, the letters in either case, and that no other character is one. */
  lemma DigitsAre(i: nat, c: char)
    requires i < 16
    ensures DigitValue("0123456789abcdef"[i]) == i && DigitValue("0123456789ABCDEF"[i]) == i
    ensures DigitValue(c) < 16 <==> '0' <= c <= '9' || 'a' <= c <= 'f' || 'A' <= c <= 'F'
  {
  }

  function Power(base: nat, n: nat): nat
  {
    if n == 0 then 1 else base * Power(base, n - 1)
  }

  lemma Distributes(d: nat, p: nat, v: nat, base: nat)
    ensures (d * p + v) * base == d * (base * p) + v * base
  {
  }

  /** A numeral without its last digit. */
  lemma LastDigit(digits: string, last: char, base: nat)
    ensures ValueOf(digits + [last], base) == ValueOf(digits, base) * base + DigitValue(last)
    ensures ValueOf("", base) == 0
  {
    assert (digits + [last])[..|digits|] == digits;
  }

  /** A digit is worth its value times the base to the number of digits behind it. */
  lemma {:induction false} DigitsCount(c: char, digits: string, base: nat)
    ensures ValueOf("", base) == 0
    ensures ValueOf([c] + digits, base) == DigitValue(c) * Power(base, |digits|) + ValueOf(digits, base)
  {
    hide ValueOf, DigitValue;
    if digits == "" {
      LastDigit("", c, base);
      assert "" + [c] == [c] + digits;
    } else {
      var (front, last) := (digits[..|digits| - 1], digits[|digits| - 1]);
      assert digits == front + [last] && [c] + digits == ([c] + front) + [last];
      DigitsCount(c, front, base);
      LastDigit(front, last, base);
      LastDigit([c] + front, last, base);
      Distributes(DigitValue(c), Power(base, |front|), ValueOf(front, base), base);
    }
  }

  lemma DigitsShape(n: nat)
    ensures var d := Digits(n); d != "" && AllDigits(d, 10) && ValueOf(d, 10) == n && (d[0] == '0' ==> d == "0")
  {
    DigitsWrite(n);
    assert forall i :: 0 <= i < |Digits(n)| ==> IsDigit(Digits(n)[i]);
    hide ValueOf;
  }

  /** A number is written back in decimal: a '-' if it is negative, then digits with no 0 in front but 0's own. */
  lemma DecimalIsWritten(v: intmax)
    ensures var d := if v < 0 then Decimal(v)[1..] else Decimal(v);
            && Decimal(v) == (if v < 0 then "-" else "") + d
            && d != "" && AllDigits(d, 10) && ValueOf(d, 10) == (if v < 0 then 0 - v else v)
            && (d[0] == '0' ==> d == "0")
  {
    hide Digits, ValueOf, AllDigits;
    DigitsShape(if v < 0 then 0 - v else v);
    assert v < 0 ==> Decimal(v)[1..] == Digits(0 - v);
  }

  /** A numeral writes one number. */
  lemma WritesOne(numeral: string, m: nat, n: nat)
    requires Writes(numeral, m) && Writes(numeral, n)
    ensures m == n
  {
    hide ValueOf;
  }

  /** The digits that are read after the prefix are a numeral with it. */
  lemma NumeralIsWritten(s: string)
    ensures var (n, k) := ReadUnsigned(s); k > 0 ==> Writes(s[..k], n)
  {
    hide ValueOf, DigitRun, DigitValue;
    var (base, skip) := Prefix(s);
    var k := DigitRun(s[skip..], base);
    if k > 0 {
      assert s[..skip + k][skip..] == s[skip..][..k];
      assert base == 16 ==> skip == 2;
      PrefixIs(s);
    }
  }

  /** The prefix tells the three kinds of numeral apart. */
  lemma PrefixIs(s: string)
    ensures Prefix(s) == (16, 2) ==> |s| > 2 && s[0] == '0' && s[1] in {'x', 'X'}
    ensures Prefix(s).0 != 16 ==> Prefix(s).1 == 0
    ensures Prefix(s).0 == 16 ==> Prefix(s).1 == 2
    ensures Prefix(s).0 == 8 ==> s != "" && s[0] == '0'
    ensures Prefix(s).0 == 10 && s != "" ==> s[0] != '0'
    ensures |s| > 2 && s[0] == '0' && s[1] in {'x', 'X'} && DigitValue(s[2]) < 16 ==> Prefix(s).0 == 16
  {
  }

  /** A longer text than the digits read takes in a character that is no digit there. */
  lemma LongerIsNone(s: string, j: nat, m: nat)
    requires ReadUnsigned(s).1 < j <= |s|
    ensures !Writes(s[..j], m)
  {
    hide ValueOf, DigitRun, Prefix;
    var (base, skip) := Prefix(s);
    PrefixIs(s);
    DigitsFound(s);
    var (k, numeral) := (DigitRun(s[skip..], base), s[..j]);
    assert s[skip..][k] == s[skip + k] == numeral[skip + k];
    assert numeral[0] == s[0];
    if j > 2 {
      assert numeral[1] == s[1] && numeral[2..][0] == numeral[2] == s[2];
      assert skip == 2 ==> numeral[2..][k] == numeral[2 + k];
    }
  }

  /** A prefix is followed by a digit, a leading 0 being one itself. */
  lemma DigitsFound(s: string)
    ensures var (base, skip) := Prefix(s);
            var k := DigitRun(s[skip..], base);
            ReadUnsigned(s).1 == if k == 0 then 0 else skip + k
    ensures Prefix(s).0 != 10 ==> DigitRun(s[Prefix(s).1..], Prefix(s).0) > 0
  {
    hide ValueOf, DigitRun, DigitValue;
    var (base, skip) := Prefix(s);
    if base != 10 {
      PrefixDigit(s);
      SomeDigits(s[skip..], base);
    }
  }

  lemma PrefixDigit(s: string)
    requires Prefix(s).0 != 10
    ensures var (base, skip) := Prefix(s); skip < |s| && s[skip..][0] == s[skip] && DigitValue(s[skip]) < base
  {
  }

  lemma SomeDigits(s: string, base: nat)
    requires base <= 16 && s != "" && DigitValue(s[0]) < base
    ensures DigitRun(s, base) > 0
  {
    hide DigitValue;
  }

  /** What is read as an unsigned number is the longest numeral the text starts with. */
  lemma LongestNumeral(s: string, j: nat, m: nat)
    ensures var (n, k) := ReadUnsigned(s);
            && (k > 0 ==> Writes(s[..k], n))
            && (k < j <= |s| ==> !Writes(s[..j], m))
  {
    NumeralIsWritten(s);
    if ReadUnsigned(s).1 < j <= |s| {
      LongerIsNone(s, j, m);
    }
    hide Writes, DigitRun, Prefix;
  }

  // ---- Tokens ---------------------------------------------------------------------------------

  /** A token that starts with a digit is the longest numeral there, its number cut to the largest intmax. */
  lemma NumberTokenIs(s: string, j: nat, m: nat)
    requires s != "" && '0' <= s[0] <= '9'
    ensures var (t, k) := TokenAt(s);
            && t.Number?
            && (exists n: nat :: Writes(s[..k], n)
                  && t.number == if n <= 0x7FFF_FFFF_FFFF_FFFF then n else 0x7FFF_FFFF_FFFF_FFFF)
            && (k < j <= |s| ==> !Writes(s[..j], m))
  {
    LongestNumeral(s, j, m);
    DigitIsRead(s);
    hide Writes, ReadUnsigned;
    assert SpaceRun(s) == 0 && s[0..] == s;
  }

  /** A token that starts with a letter or _ is all the letters, digits and _ there. */
  lemma NameTokenIs(s: string, i: nat)
    requires s != "" && ('a' <= s[0] <= 'z' || 'A' <= s[0] <= 'Z' || s[0] == '_')
    ensures var (t, k) := TokenAt(s);
            && t == Name(s[..k])
            && (i < |s| && i <= k ==>
                  (i < k <==> 'a' <= s[i] <= 'z' || 'A' <= s[i] <= 'Z' || s[i] == '_' || '0' <= s[i] <= '9'))
  {
    hide StrToIMax;
  }

  /** How each operator is written. */
  predicate IsOperator(text: string, t: Token)
  {
    match t
    case Plus => text == "+" case Minus => text == "-" case Star => text == "*" case Slash => text == "/"
    case Percent => text == "%" case Tilde => text == "~" case Bang => text == "!"
    case Amp => text == "&" case Caret => text == "^" case Bar => text == "|"
    case AndAnd => text == "&&" case OrOr => text == "||" case Question => text == "?" case Colon => text == ":"
    case Shl => text == "<<" case Shr => text == ">>" case Lt => text == "<" case Gt => text == ">"
    case Le => text == "<=" case Ge => text == ">=" case EqEq => text == "==" case NotEq => text == "!="
    case Assign => text == "=" case PlusEq => text == "+=" case MinusEq => text == "-=" case StarEq => text == "*="
    case SlashEq => text == "/=" case PercentEq => text == "%=" case ShlEq => text == "<<=" case ShrEq => text == ">>="
    case AndEq => text == "&=" case XorEq => text == "^=" case OrEq => text == "|="
    case LParen => text == "(" case RParen => text == ")"
    case _ => false
  }

  lemma OneCharFits(text: string, u: Token)
    requires |text| == 1 && IsOperator(text, u)
    ensures OneCharOperator(text[0]) == u && u != Invalid
  {
  }

  lemma OneCharIs(text: string, u: Token)
    requires |text| == 1 && OneCharOperator(text[0]) == u && u != Invalid
    ensures IsOperator(text, u)
  {
  }

  lemma TwoCharIs(text: string, u: Token)
    requires |text| == 2
    ensures IsOperator(text, u) <==> TwoCharOperator(text[0], text[1]) == Some(u)
  {
  }

  lemma OtherLengths(text: string, u: Token)
    requires |text| == 0 || |text| >= 3
    ensures IsOperator(text, u) <==> |text| == 3 && text[2] == '=' && text[0] == text[1]
                                     && ((text[0] == '<' && u == ShlEq) || (text[0] == '>' && u == ShrEq))
  {
  }

  lemma OperatorIs(text: string, u: Token)
    ensures IsOperator(text, u) <==>
              || (|text| == 1 && OneCharOperator(text[0]) == u && u != Invalid)
              || (|text| == 2 && TwoCharOperator(text[0], text[1]) == Some(u))
              || (|text| == 3 && text[2] == '=' && text[0] == text[1]
                  && ((text[0] == '<' && u == ShlEq) || (text[0] == '>' && u == ShrEq)))
  {
    hide *;
    if |text| == 1 {
      if IsOperator(text, u) {
        OneCharFits(text, u);
      }
      if OneCharOperator(text[0]) == u && u != Invalid {
        OneCharIs(text, u);
      }
    } else if |text| == 2 {
      TwoCharIs(text, u);
    } else {
      OtherLengths(text, u);
    }
  }

  /** Any other token is the longest operator there, or one Invalid token when there is none. */
  lemma OperatorTokenIs(s: string, j: nat, u: Token)
    requires s != "" && !IsDigit(s[0]) && !IsNameStart(s[0])
    ensures var (t, k) := TokenAt(s);
            && (if t == Invalid then k == 1 else IsOperator(s[..k], t))
            && (j <= |s| && (t == Invalid || k < j) ==> !IsOperator(s[..j], u))
  {
    hide StrToIMax, NameRun, IsOperator, OneCharOperator, TwoCharOperator;
    var (t, k) := TokenAt(s);
    if |s| >= 2 {
      PairIsValid(s);
    }
    OperatorIs(s[..k], t);
    if j <= |s| {
      OperatorIs(s[..j], u);
    }
  }

  lemma PairIsValid(s: string)
    requires |s| >= 2
    ensures TwoCharOperator(s[0], s[1]) != Some(Invalid)
  {
  }

  /** Blanks, tabs and newlines part tokens, and are no part of any. */
  lemma BlanksAreSkipped(s: string)
    requires s != ""
    ensures TokensOf(s) == if s[0] == ' ' || s[0] == '\t' || s[0] == '\n' then TokensOf(s[1..])
                           else [TokenAt(s).0] + TokensOf(s[TokenAt(s).1..])
    ensures TokensOf("") == [End]
  {
    hide TokenAt;
  }

  // ---- Variables ------------------------------------------------------------------------------

  predicate IsSign(sign: string) { sign == "" || sign == "+" || sign == "-" }

  predicate AllSpace(s: string) { forall i :: 0 <= i < |s| ==> s[i] == ' ' || '\t' <= s[i] <= '\r' }

  predicate AllBlank(s: string) { forall i :: 0 <= i < |s| ==> s[i] == ' ' || s[i] == '\t' || s[i] == '\n' }

  /** White space, a sign or none, a numeral and blanks, up to the end or a NUL. */
  predicate NumberParts(text: string, pad: string, sign: string, numeral: string, tail: string, rest: string, n: nat)
  {
    && text == pad + sign + numeral + tail + rest
    && AllSpace(pad) && IsSign(sign) && Writes(numeral, n) && AllBlank(tail)
    && (rest == "" || rest[0] == '\0')
  }

  /** The number, or the nearest intmax to it. */
  function Nearest(n: int): int
  {
    if n < -0x8000_0000_0000_0000 then -0x8000_0000_0000_0000
    else if n > 0x7FFF_FFFF_FFFF_FFFF then 0x7FFF_FFFF_FFFF_FFFF else n
  }

  ghost predicate IsNumberText(text: string, v: int)
  {
    exists pad, sign, numeral, tail, rest, n: nat ::
      NumberParts(text, pad, sign, numeral, tail, rest, n) && v == Nearest(if sign == "-" then 0 - n else n)
  }

  lemma {:induction false} CStringEnds(s: string)
    ensures |CString(s)| <= |s| && s[..|CString(s)|] == CString(s)
    ensures |CString(s)| < |s| ==> s[|CString(s)|] == '\0'
    ensures forall i :: 0 <= i < |CString(s)| ==> s[i] != '\0'
  {
    if s != "" && s[0] != '\0' {
      CStringEnds(s[1..]);
    }
  }

  lemma {:induction false} SpaceRunIs(s: string, n: nat)
    requires n <= |s| && AllSpace(s[..n]) && (n < |s| ==> !IsSpace(s[n]))
    ensures SpaceRun(s) == n
  {
    if n > 0 {
      assert s[0] == s[..n][0];
      assert s[1..][..n - 1] == s[..n][1..];
      SpaceRunIs(s[1..], n - 1);
    }
  }

  lemma {:induction false} SpaceRunEnds(s: string)
    ensures AllSpace(s[..SpaceRun(s)])
  {
    if s != "" && IsSpace(s[0]) {
      SpaceRunEnds(s[1..]);
      var n := SpaceRun(s[1..]);
      assert s[..n + 1] == [s[0]] + s[1..][..n];
    }
  }

  lemma {:induction false} BlankRunIs(s: string)
    ensures BlankRun(s) == |s| <==> AllBlank(s)
  {
    if s != "" && IsBlank(s[0]) {
      BlankRunIs(s[1..]);
      assert AllBlank(s[1..]) <==> AllBlank(s) by {
        assert forall i :: 0 < i < |s| ==> s[i] == s[1..][i - 1];
      }
    }
  }

  /** What strtoimax reads, taken apart. */
  lemma ReadParts(text: string)
    ensures var (v, end) := StrToIMax(text);
            end > 0 ==> exists pad, sign, numeral, n: nat ::
              && text[..end] == pad + sign + numeral && AllSpace(pad) && IsSign(sign) && Writes(numeral, n)
              && v as int == Nearest(if sign == "-" then 0 - n else n)
  {
    hide ReadUnsigned, Writes, SpaceRun, AllSpace;
    var (v, end) := StrToIMax(text);
    if end > 0 {
      var space := SpaceRun(text);
      var start := if space < |text| && (text[space] == '-' || text[space] == '+') then space + 1 else space;
      var (n, k) := ReadUnsigned(text[start..]);
      SpaceRunEnds(text);
      NumeralIsWritten(text[start..]);
      Slices(text, space, start, k);
      SignIs(text, space, start);
      var sign := text[space..start];
      assert v as int == Nearest(if sign == "-" then 0 - n else n);
    }
  }

  lemma Slices(text: string, a: nat, b: nat, k: nat)
    requires a <= b && b + k <= |text|
    ensures text[b..][..k] == text[b..b + k] && text[..b + k] == text[..a] + text[a..b] + text[b..b + k]
  {
  }

  lemma SignIs(text: string, space: nat, start: nat)
    requires space <= |text|
    requires start == if space < |text| && (text[space] == '-' || text[space] == '+') then space + 1 else space
    ensures IsSign(text[space..start])
    ensures text[space..start] == "-" <==> space < |text| && text[space] == '-'
  {
    assert start > space ==> text[space..start] == [text[space]];
  }

  /** A numeral before blanks or the end is read as what it writes. */
  lemma NumeralBeforeBlanks(numeral: string, tail: string, n: nat)
    requires Writes(numeral, n) && AllBlank(tail)
    ensures ReadUnsigned(numeral + tail) == (n, |numeral|)
  {
    var s := numeral + tail;
    var (m, k) := ReadUnsigned(s);
    assert s[..|numeral|] == numeral;
    LongestNumeral(s, |numeral|, n);
    LongestNumeral(s, k, m);
    if k > |numeral| {
      assert s[..k][|numeral|] == tail[0];
      WritesNoBlank(s[..k], m, |numeral|);
    }
    WritesOne(numeral, m, n);
  }

  lemma WritesNoBlank(numeral: string, n: nat, i: nat)
    requires Writes(numeral, n) && i < |numeral|
    ensures numeral[i] != ' ' && numeral[i] != '\t' && numeral[i] != '\n' && numeral[i] != '\0' && !IsSpace(numeral[i])
  {
    hide ValueOf;
    assert |numeral| > 2 && i >= 2 ==> numeral[2..][i - 2] == numeral[i];
  }

  lemma NumeralStarts(numeral: string, n: nat)
    requires Writes(numeral, n)
    ensures numeral != "" && '0' <= numeral[0] <= '9'
  {
    hide ValueOf;
  }

  /** A text of that form is read as its number, with nothing but blanks left. */
  lemma PartsAreRead(text: string, pad: string, sign: string, numeral: string, tail: string, n: nat)
    requires text == pad + sign + numeral + tail
    requires AllSpace(pad) && IsSign(sign) && Writes(numeral, n) && AllBlank(tail)
    ensures StrToIMax(text) == (Nearest(if sign == "-" then 0 - n else n), |pad + sign + numeral|)
    ensures text[|pad + sign + numeral|..] == tail && |pad + sign + numeral| > 0
  {
    hide Writes, ReadUnsigned, SpaceRun, AllBlank;
    var p := |pad|;
    assert text[..p] == pad && text[p..] == sign + numeral + tail;
    NumeralStarts(numeral, n);
    assert text[p] == (sign + numeral)[0];
    SpaceRunIs(text, p);
    assert text[p + |sign|..] == numeral + tail;
    NumeralBeforeBlanks(numeral, tail, n);
  }

  lemma NoNulIn(body: string, rest: string)
    requires (forall i :: 0 <= i < |body| ==> body[i] != '\0') && (rest == "" || rest[0] == '\0')
    ensures CString(body + rest) == body
  {
    var (text, c) := (body + rest, CString(body + rest));
    CStringEnds(text);
    hide CString;
    assert forall i :: 0 <= i < |body| ==> text[i] == body[i];
    assert rest != "" ==> text[|body|] == rest[0];
    assert text[..|body|] == body;
  }

  /** A stored number text is what c_str() shows, then nothing or a NUL. */
  lemma NumberTextIsRead(text: string, pad: string, sign: string, numeral: string, tail: string, rest: string, n: nat)
    requires NumberParts(text, pad, sign, numeral, tail, rest, n)
    ensures CString(text) == pad + sign + numeral + tail
  {
    var body := pad + sign + numeral + tail;
    forall i | 0 <= i < |body|
      ensures body[i] != '\0'
    {
      var (p, q) := (|pad|, |pad| + |sign|);
      if q <= i < q + |numeral| {
        WritesNoBlank(numeral, n, i - q);
        assert body[i] == numeral[i - q];
      }
    }
    hide *;
    NoNulIn(body, rest);
  }

  lemma VariableIs(name: string, store: Store)
    requires name in store.values && store.values[name] != ""
    ensures var stored := store.values[name];
            var text := CString(stored);
            var (value, end) := StrToIMax(text);
            VariableValue(name, store) ==
              if end == 0 || !AllBlank(text[end..]) then Failed(IllegalNumber(stored), store) else Value(value, store)
  {
    hide StrToIMax, CString, AllBlank, BlankRun;
    var text := CString(store.values[name]);
    BlankRunIs(text[StrToIMax(text).1..]);
  }

  /** The text as C shows it, all of it read. */
  lemma ReadIsNumberText(stored: string, v: int)
    requires var text := CString(stored);
             var (value, end) := StrToIMax(text);
             end > 0 && AllBlank(text[end..]) && v == value
    ensures IsNumberText(stored, v)
  {
    hide StrToIMax, CString, AllBlank, AllSpace, Writes, Nearest;
    var text := CString(stored);
    var (value, end) := StrToIMax(text);
    ReadParts(text);
    CStringEnds(stored);
    var pad, sign, numeral, n: nat :|
      text[..end] == pad + sign + numeral && AllSpace(pad) && IsSign(sign) && Writes(numeral, n)
      && v == Nearest(if sign == "-" then 0 - n else n);
    var rest := stored[|text|..];
    assert stored == text + rest && text == text[..end] + text[end..];
    assert NumberParts(stored, pad, sign, numeral, text[end..], rest, n);
  }

  lemma NumberTextIsValue(stored: string, v: int)
    requires IsNumberText(stored, v)
    ensures var text := CString(stored);
            var (value, end) := StrToIMax(text);
            end > 0 && AllBlank(text[end..]) && v == value
  {
    hide StrToIMax, CString, AllSpace, Writes, Nearest, AllBlank;
    var pad, sign, numeral, tail, rest, n: nat :|
      NumberParts(stored, pad, sign, numeral, tail, rest, n) && v == Nearest(if sign == "-" then 0 - n else n);
    NumberTextIsRead(stored, pad, sign, numeral, tail, rest, n);
    PartsAreRead(CString(stored), pad, sign, numeral, tail, n);
  }

  /** An unset or empty variable is worth 0; any other the number it writes, when it writes one and nothing else. */
  lemma VariableMeans(name: string, store: Store, v: intmax)
    ensures var e := Eval(Variable(name), store);
            && e.store == store
            && if name !in store.values || store.values[name] == "" then e == Value(0, store)
               else
                 && (e == Value(v, store) <==> IsNumberText(store.values[name], v))
                 && (e.Failed? ==> e == Failed(IllegalNumber(store.values[name]), store))
  {
    hide IsNumberText, CString, StrToIMax, AllBlank;
    if name in store.values && store.values[name] != "" {
      var stored := store.values[name];
      VariableIs(name, store);
      hide VariableValue;
      if IsNumberText(stored, v) {
        NumberTextIsValue(stored, v);
      }
      var text := CString(stored);
      var (value, end) := StrToIMax(text);
      if end > 0 && AllBlank(text[end..]) && v == value {
        ReadIsNumberText(stored, v);
      }
    }
  }
}
