/**
 Quoting a name for a shell (src/components/BuiltinCommands/BuiltinCommand.cpp:331-431) against a shell
 that reads it back by sections 2.2.1 to 2.2.4 of POSIX.1-2024 Shell Command Language. A byte is a
 character below 256.
 */
module ShellQuoting {
  import opened Basics

  // ---- The writer -----------------------------------------------------------------------------------------

  predicate IsControl(c: char) { c < ' ' || c == '\U{7f}' }

  predicate IsSpecial(c: char)
  {
    IsControl(c) || c in " !\"$&'()*;<=>?[\\^`|"
  }

  predicate NeedsQuoting(name: string)
  {
    name == "" || name[0] == '#' || name[0] == '~' || name == "{" || name == "}" || exists c :: c in name && IsSpecial(c)
  }

  function OctalDigit(n: nat): char
    requires n < 8
  {
    ('0' as int + n) as char
  }

  /** A control byte's escape: a letter for 7 to 13, three octal digits for the others. */
  function ControlEscape(c: char): (e: string)
    requires IsControl(c)
  {
    if c == '\U{7}' then "\\a"
    else if c == '\U{8}' then "\\b"
    else if c == '\t' then "\\t"
    else if c == '\n' then "\\n"
    else if c == '\U{b}' then "\\v"
    else if c == '\U{c}' then "\\f"
    else if c == '\r' then "\\r"
    else ['\\', OctalDigit(c as int / 64), OctalDigit(c as int / 8 % 8), OctalDigit(c as int % 8)]
  }

  function Escapes(s: string): string
    requires forall i :: 0 <= i < |s| ==> IsControl(s[i])
  {
    if s == "" then "" else ControlEscape(s[0]) + Escapes(s[1..])
  }

  /** How many control bytes the text starts with. */
  function ControlRun(s: string): (n: nat)
    ensures n <= |s| && forall i :: 0 <= i < n ==> IsControl(s[i])
    ensures n < |s| ==> !IsControl(s[n])
    ensures s != "" && IsControl(s[0]) ==> n > 0
  {
    if s == "" || !IsControl(s[0]) then 0 else 1 + ControlRun(s[1..])
  }

  /** The general form from inside its quotes on. */
  function Inside(s: string): string
    decreases |s|
  {
    if s == "" then "'"
    else if IsControl(s[0]) then
      var n := ControlRun(s);
      "'$'" + Escapes(s[..n]) + "'" + (if n < |s| then "'" + Inside(s[n..]) else "")
    else if s[0] == '\'' then "'\\''" + Inside(s[1..])
    else [s[0]] + Inside(s[1..])
  }

  predicate HasAny(name: string, chars: string)
  {
    exists c :: c in name && c in chars
  }

  function Quoted(name: string, always: bool): string
  {
    if !NeedsQuoting(name) then (if always then "'" + name + "'" else name)
    else
      var hasControl := exists c :: c in name && IsControl(c);
      if !hasControl && '\'' !in name then "'" + name + "'"
      else if !hasControl && !HasAny(name, "!\"$&()*;<=>?[\\^`|") then "\"" + name + "\""
      else "'" + Inside(name)
  }

  /** What follows the control bytes a text starts with. */
  function AfterRun(s: string): string
  {
    if ControlRun(s) < |s| then ['\''] + Inside(s[ControlRun(s)..]) else ""
  }

  lemma InsideOfRun(s: string)
    requires s != "" && IsControl(s[0])
    ensures Inside(s) == "'$'" + Escapes(s[..ControlRun(s)]) + ['\''] + AfterRun(s)
  {
    hide Escapes, ControlRun;
  }

  /** What is still to come after `i` bytes: nothing once a control byte was the last. */
  function ToCome(name: string, i: nat): string
    requires i <= |name|
  {
    if i == |name| && name != "" && IsControl(name[|name| - 1]) then "" else Inside(name[i..])
  }

  /** The loop of ShellEscapeQuoted's general form. */
  method GeneralForm(name: string) returns (out: string)
    requires name != ""
    ensures out == "'" + Inside(name)
  {
    out := "'";
    var i := 0;
    assert name[0..] == name && name[|name|..] == "";
    assert ToCome(name, |name|) == if IsControl(name[|name| - 1]) then "" else "'";
    hide ToCome, Inside, Escapes, ControlRun;
    while i < |name|
      invariant i <= |name|
      invariant out + ToCome(name, i) == "'" + Inside(name)
    {
      if IsControl(name[i]) {
        var run, end := ControlBytes(name, i);
        RunToCome(name, i, end);
        out := Taken(out, run, end < |name|, ToCome(name, end));
        i := end;
      } else {
        ByteToCome(name, i);
        ghost var byte := if name[i] == '\'' then "'\\''" else [name[i]];
        Regroup(out, byte, ToCome(name, i + 1), "");
        if name[i] == '\'' {
          out := out + "'\\''";
        } else {
          out := out + [name[i]];
        }
        i := i + 1;
      }
    }
    if !IsControl(name[|name| - 1]) {
      out := out + "'";
    }
  }

  /** The control bytes' escapes out of the quotes, which open again when more follows. */
  method Taken(before: string, run: string, more: bool, ghost rest: string) returns (out: string)
    ensures out + rest == before + ("'$'" + run + "'" + (if more then "'" else "") + rest)
  {
    out := before + "'$'" + run + "'";
    if more {
      out := out + "'";
    }
  }

  /** The inner loop: the escapes of the control bytes from `start` on. */
  method ControlBytes(name: string, start: nat) returns (out: string, end: nat)
    requires start < |name| && IsControl(name[start])
    ensures end == start + ControlRun(name[start..]) && out == Escapes(name[start..][..end - start])
  {
    hide Escapes, ControlEscape, IsControl, ControlRun;
    out, end := "", start;
    NoEscapes(name, start);
    while end < |name| && IsControl(name[end])
      invariant start <= end <= |name| && forall j :: start <= j < end ==> IsControl(name[j])
      invariant out == Escapes(name[start..end])
    {
      NextEscape(name, start, end);
      out := out + ControlEscape(name[end]);
      end := end + 1;
    }
    EscapesEnd(name, start, end);
  }

  lemma NoEscapes(name: string, start: nat)
    requires start <= |name|
    ensures Escapes(name[start..start]) == ""
  {
  }

  lemma EscapesEnd(name: string, start: nat, end: nat)
    requires start <= end <= |name| && (forall j :: start <= j < end ==> IsControl(name[j]))
    requires end < |name| ==> !IsControl(name[end])
    ensures end - start == ControlRun(name[start..]) && name[start..][..end - start] == name[start..end]
  {
    hide IsControl, ControlRun;
    RunIs(name[start..], end - start);
  }

  lemma NextEscape(name: string, start: nat, end: nat)
    requires start <= end < |name| && forall j :: start <= j <= end ==> IsControl(name[j])
    ensures Escapes(name[start..end + 1]) == Escapes(name[start..end]) + ControlEscape(name[end])
  {
    hide Escapes, ControlEscape, IsControl;
    EscapesSnoc(name[start..end], name[end]);
    assert name[start..end + 1] == name[start..end] + [name[end]];
  }

  lemma RunToCome(name: string, i: nat, end: nat)
    requires i < |name| && IsControl(name[i]) && end == i + ControlRun(name[i..])
    ensures i < end <= |name|
    ensures ToCome(name, i) ==
            "'$'" + Escapes(name[i..][..end - i]) + ['\''] + (if end < |name| then "'" else "") + ToCome(name, end)
  {
    hide Escapes, ControlRun, Inside, AfterRun, IsControl;
    var rest := name[i..];
    RunIsSome(rest);
    InsideOfRun(rest);
    AfterRunIs(rest);
    assert rest[end - i..] == name[end..] && rest[end - i - 1] == name[end - 1];
    hide *;
    ToComeIs(name, i);
    ToComeIs(name, end);
    Adds("'$'" + Escapes(rest[..end - i]) + ['\''], if end < |name| then "'" else "", ToCome(name, end));
    assert AfterRun(rest) == (if end < |name| then "'" else "") + ToCome(name, end);
  }

  lemma Adds(a: string, b: string, c: string)
    ensures a + (b + c) == a + b + c
  {
  }

  lemma RunIsSome(s: string)
    requires s != "" && IsControl(s[0])
    ensures 0 < ControlRun(s) <= |s| && IsControl(s[ControlRun(s) - 1])
  {
  }

  lemma AfterRunIs(s: string)
    ensures AfterRun(s) == if ControlRun(s) < |s| then ['\''] + Inside(s[ControlRun(s)..]) else ""
  {
    hide ControlRun, Inside;
  }

  lemma ToComeIs(name: string, i: nat)
    requires i <= |name|
    ensures i < |name| ==> ToCome(name, i) == Inside(name[i..])
    ensures i == |name| && name != "" && IsControl(name[|name| - 1]) ==> ToCome(name, i) == ""
  {
    hide Inside, IsControl;
  }

  lemma ByteToCome(name: string, i: nat)
    requires i < |name| && !IsControl(name[i])
    ensures ToCome(name, i) == (if name[i] == '\'' then "'\\''" else [name[i]]) + ToCome(name, i + 1)
  {
    assert name[i..][1..] == name[i + 1..];
  }

  lemma {:induction false} EscapesSnoc(s: string, c: char)
    requires IsControl(c) && forall i :: 0 <= i < |s| ==> IsControl(s[i])
    ensures Escapes(s + [c]) == Escapes(s) + ControlEscape(c)
  {
    if s == "" {
      assert s + [c] == [c] && [c][1..] == "";
      assert Escapes("") == "" && ControlEscape(c) + "" == ControlEscape(c);
    } else {
      EscapesSnoc(s[1..], c);
      assert (s + [c])[1..] == s[1..] + [c];
    }
  }

  lemma {:induction false} RunIs(s: string, n: nat)
    requires n <= |s| && (forall i :: 0 <= i < n ==> IsControl(s[i])) && (n < |s| ==> !IsControl(s[n]))
    ensures ControlRun(s) == n
  {
    if n > 0 {
      RunIs(s[1..], n - 1);
    }
  }

  method ShellEscapeQuoted(name: string, always: bool) returns (out: string)
    ensures out == Quoted(name, always)
  {
    if !NeedsQuoting(name) {
      return if always then "'" + name + "'" else name;
    }
    var hasControl := exists c :: c in name && IsControl(c);
    var hasQuote := '\'' in name;
    if !hasControl && !hasQuote {
      return "'" + name + "'";
    }
    if !hasControl && !HasAny(name, "!\"$&()*;<=>?[\\^`|") {
      return "\"" + name + "\"";
    }
    out := GeneralForm(name);
  }

  // ---- The reader -----------------------------------------------------------------------------------------

  /** How the shell is quoting where it reads: not at all, '...', "..." or $'...'. */
  datatype Quoting = Bare | Single | Double | DollarSingle

  /** Unquoted, these do not stand for themselves (section 2.2). */
  predicate EndsOrExpands(c: char)
  {
    c in "|&;<>()$` \t\n*?[!="
  }

  predicate IsOctal(c: char) { '0' <= c <= '7' }

  /** An escape of section 2.2.4 after its backslash: the byte and how much it took; \c and \x are not read here. */
  function EscapeAt(s: string): Option<(char, nat)>
  {
    if s == "" then None
    else if s[0] == 'a' then Some(('\U{7}', 1))
    else if s[0] == 'b' then Some(('\U{8}', 1))
    else if s[0] == 't' then Some(('\t', 1))
    else if s[0] == 'n' then Some(('\n', 1))
    else if s[0] == 'v' then Some(('\U{b}', 1))
    else if s[0] == 'f' then Some(('\U{c}', 1))
    else if s[0] == 'r' then Some(('\r', 1))
    else if s[0] == 'e' then Some(('\U{1b}', 1))
    else if s[0] == '\\' || s[0] == '\'' || s[0] == '"' then Some((s[0], 1))
    else OctalAt(s)
  }

  /** One to three octal digits. */
  function OctalAt(s: string): Option<(char, nat)>
    requires s != ""
  {
    if !IsOctal(s[0]) then None
    else
      var d := s[0] as int - '0' as int;
      if |s| < 2 || !IsOctal(s[1]) then Some((d as char, 1))
      else
        var d2 := d * 8 + (s[1] as int - '0' as int);
        if |s| < 3 || !IsOctal(s[2]) then Some((d2 as char, 2))
        else Some(((d2 * 8 + (s[2] as int - '0' as int)) as char, 3))
  }

  function Put(c: char, rest: Option<string>): Option<string>
  {
    if rest.Some? then Some([c] + rest.value) else None
  }

  /**
   The bytes a quoted text stands for, none where it is not a word by itself. What becomes of a \000 is
   left open: `keepsNul` keeps the byte, otherwise it and the rest of its $'...' are dropped.
   */
  function Read(keepsNul: bool, quoting: Quoting, text: string): Option<string>
    decreases |text|
  {
    if text == "" then (if quoting == Bare then Some("") else None)
    else
      var (c, rest) := (text[0], text[1..]);
      match quoting
      case Bare =>
        if c == '\'' then Read(keepsNul, Single, rest)
        else if c == '"' then Read(keepsNul, Double, rest)
        else if c == '$' && rest != "" && rest[0] == '\'' then Read(keepsNul, DollarSingle, rest[1..])
        else if c == '\\' then
          if rest == "" then None
          else if rest[0] == '\n' then Read(keepsNul, Bare, rest[1..])
          else Put(rest[0], Read(keepsNul, Bare, rest[1..]))
        else if EndsOrExpands(c) then None
        else Put(c, Read(keepsNul, Bare, rest))
      case Single =>
        if c == '\'' then Read(keepsNul, Bare, rest) else Put(c, Read(keepsNul, Single, rest))
      case Double =>
        if c == '"' then Read(keepsNul, Bare, rest)
        else if c == '$' || c == '`' then None
        else if c == '\\' && rest != "" && rest[0] in "$`\"\\" then Put(rest[0], Read(keepsNul, Double, rest[1..]))
        else if c == '\\' && rest != "" && rest[0] == '\n' then Read(keepsNul, Double, rest[1..])
        else Put(c, Read(keepsNul, Double, rest))
      case DollarSingle =>
        if c == '\'' then Read(keepsNul, Bare, rest)
        else if c != '\\' then Put(c, Read(keepsNul, DollarSingle, rest))
        else
          match EscapeAt(rest)
          case None => None
          case Some((byte, n)) =>
            if n > |rest| then None
            else if byte == '\0' && !keepsNul then Read(keepsNul, Bare, AfterQuote(rest[n..]))
            else Put(byte, Read(keepsNul, DollarSingle, rest[n..]))
  }

  /** What follows the next unescaped single quote. */
  function AfterQuote(s: string): (r: string)
    ensures |r| <= |s|
    decreases |s|
  {
    if s == "" then ""
    else if s[0] == '\'' then s[1..]
    else if s[0] == '\\' && |s| > 1 then AfterQuote(s[2..])
    else AfterQuote(s[1..])
  }

  /** A text read as one word: not empty, no comment, no tilde prefix, no brace by itself. */
  function Word(keepsNul: bool, text: string): Option<string>
  {
    if text == "" || text[0] == '#' || text[0] == '~' || text == "{" || text == "}" then None
    else Read(keepsNul, Bare, text)
  }

  lemma Regroup(a: string, b: string, c: string, d: string)
    ensures a + b + c + d == a + (b + (c + d))
    ensures a + b + c == a + (b + c)
  {
  }

  // ---- One step of the reader ---------------------------------------------------------------------------------

  lemma SingleTakes(k: bool, c: char, rest: string)
    ensures Read(k, Single, [c] + rest) == if c == '\'' then Read(k, Bare, rest) else Put(c, Read(k, Single, rest))
  {
    assert ([c] + rest)[1..] == rest;
  }

  lemma BareTakes(k: bool, c: char, rest: string)
    requires !(c in "\"$\\") && (c == '\'' || !EndsOrExpands(c))
    ensures Read(k, Bare, [c] + rest) == if c == '\'' then Read(k, Single, rest) else Put(c, Read(k, Bare, rest))
  {
    assert ([c] + rest)[1..] == rest;
  }

  lemma BareTakesEscaped(k: bool, c: char, rest: string)
    requires c != '\n'
    ensures Read(k, Bare, ['\\'] + ([c] + rest)) == Put(c, Read(k, Bare, rest))
  {
    assert (['\\'] + ([c] + rest))[1..] == [c] + rest && ([c] + rest)[1..] == rest;
  }

  lemma BareOpensDollar(k: bool, rest: string)
    ensures Read(k, Bare, ['$'] + (['\''] + rest)) == Read(k, DollarSingle, rest)
  {
    assert (['$'] + (['\''] + rest))[1..] == ['\''] + rest && (['\''] + rest)[1..] == rest;
  }

  lemma BareOpensDouble(k: bool, rest: string)
    ensures Read(k, Bare, ['"'] + rest) == Read(k, Double, rest)
  {
    assert (['"'] + rest)[1..] == rest;
  }

  lemma DoubleTakes(k: bool, c: char, rest: string)
    requires !(c in "$\\`")
    ensures Read(k, Double, [c] + rest) == if c == '"' then Read(k, Bare, rest) else Put(c, Read(k, Double, rest))
  {
    assert ([c] + rest)[1..] == rest;
  }

  lemma DollarEnds(k: bool, rest: string)
    ensures Read(k, DollarSingle, ['\''] + rest) == Read(k, Bare, rest)
  {
    assert (['\''] + rest)[1..] == rest;
  }

  lemma DollarTakes(k: bool, e: string, c: char, rest: string)
    requires EscapeAt(e + rest) == Some((c, |e|)) && (k || c != '\0')
    ensures Read(k, DollarSingle, ['\\'] + (e + rest)) == Put(c, Read(k, DollarSingle, rest))
  {
    hide EscapeAt;
    assert (['\\'] + (e + rest))[1..] == e + rest && (e + rest)[|e|..] == rest;
  }

  lemma FirstAndRest(s: string)
    requires s != ""
    ensures s == [s[0]] + s[1..] && s[0] in s && forall c :: c in s[1..] ==> c in s
  {
  }

  // ---- Round trip -------------------------------------------------------------------------------------------

  lemma {:induction false} BareReads(k: bool, s: string)
    requires forall c :: c in s ==> !IsSpecial(c)
    ensures Read(k, Bare, s) == Some(s)
  {
    if s != "" {
      FirstAndRest(s);
      BareReads(k, s[1..]);
      BareTakes(k, s[0], s[1..]);
    }
  }

  lemma {:induction false} SingleReads(k: bool, s: string)
    requires '\'' !in s
    ensures Read(k, Single, s + "'") == Some(s)
  {
    if s == "" {
      SingleTakes(k, '\'', "");
      assert s + "'" == ['\''] + "";
    } else {
      FirstAndRest(s);
      SingleReads(k, s[1..]);
      SingleTakes(k, s[0], s[1..] + "'");
      assert s + "'" == [s[0]] + (s[1..] + "'");
    }
  }

  lemma {:induction false} DoubleReads(k: bool, s: string)
    requires forall c :: c in s ==> !(c in "\"$\\`")
    ensures Read(k, Double, s + "\"") == Some(s)
  {
    if s == "" {
      DoubleTakes(k, '"', "");
      assert s + "\"" == ['"'] + "";
    } else {
      FirstAndRest(s);
      DoubleReads(k, s[1..]);
      DoubleTakes(k, s[0], s[1..] + "\"");
      assert s + "\"" == [s[0]] + (s[1..] + "\"");
    }
  }

  lemma EscapeReads(c: char, rest: string)
    requires IsControl(c) && rest != "" && !IsOctal(rest[0])
    ensures var e := ControlEscape(c);
            2 <= |e| <= 4 && e == ['\\'] + e[1..] && EscapeAt(e[1..] + rest) == Some((c, |e| - 1))
  {
    var n := c as int;
    assert n == 64 * (n / 64) + 8 * (n / 8 % 8) + n % 8;
  }

  /** A run of escapes up to the closing quote. */
  lemma {:induction false} EscapesRead(k: bool, run: string, tail: string)
    requires forall i :: 0 <= i < |run| ==> IsControl(run[i]) && (k || run[i] != '\0')
    requires Read(k, Bare, tail).Some?
    ensures Read(k, DollarSingle, Escapes(run) + (['\''] + tail)) == Some(run + Read(k, Bare, tail).value)
  {
    if run == "" {
      DollarEnds(k, tail);
      assert Escapes(run) + (['\''] + tail) == ['\''] + tail;
      assert run + Read(k, Bare, tail).value == Read(k, Bare, tail).value;
    } else {
      var (e, rest) := (ControlEscape(run[0]), Escapes(run[1..]) + (['\''] + tail));
      var word := Read(k, Bare, tail).value;
      EscapesRead(k, run[1..], tail);
      EscapesStart(run[1..], tail);
      EscapeReads(run[0], rest);
      assert Escapes(run) == e + Escapes(run[1..]);
      hide ControlEscape, Escapes, EscapeAt, IsControl, Read;
      DollarTakes(k, e[1..], run[0], rest);
      Regroup(['\\'], e[1..], Escapes(run[1..]), ['\''] + tail);
      FirstAndRest(run);
      Regroup([run[0]], run[1..], word, "");
    }
  }

  lemma EscapeStarts(c: char)
    requires IsControl(c)
    ensures ControlEscape(c) != "" && ControlEscape(c)[0] == '\\'
  {
  }

  lemma EscapesStart(run: string, tail: string)
    requires forall i :: 0 <= i < |run| ==> IsControl(run[i])
    ensures var rest := Escapes(run) + (['\''] + tail); rest != "" && !IsOctal(rest[0])
  {
    if run != "" {
      EscapeStarts(run[0]);
      hide ControlEscape, IsControl;
      assert Escapes(run)[0] == '\\';
    }
  }

  /** The general form reads back. */
  lemma {:induction false} InsideReads(k: bool, s: string)
    requires k || '\0' !in s
    ensures Read(k, Single, Inside(s)) == Some(s)
    decreases |s|, 2
  {
    if s == "" {
      SingleTakes(k, '\'', "");
      assert Inside(s) == ['\''] + "";
    } else if IsControl(s[0]) {
      RunReads(k, s);
    } else if s[0] == '\'' {
      FirstAndRest(s);
      InsideReads(k, s[1..]);
      assert Inside(s) == "'\\''" + Inside(s[1..]);
      hide Inside;
      QuoteReads(k, Inside(s[1..]));
    } else {
      FirstAndRest(s);
      InsideReads(k, s[1..]);
      assert Inside(s) == [s[0]] + Inside(s[1..]);
      hide Inside;
      SingleTakes(k, s[0], Inside(s[1..]));
    }
  }

  /** A ' taken out of the quotes. */
  lemma QuoteReads(k: bool, rest: string)
    ensures Read(k, Single, "'\\''" + rest) == Put('\'', Read(k, Single, rest))
  {
    assert "'\\''" + rest == ['\''] + (['\\'] + (['\''] + (['\''] + rest)));
    hide Read;
    SingleTakes(k, '\'', ['\\'] + (['\''] + (['\''] + rest)));
    BareTakesEscaped(k, '\'', ['\''] + rest);
    BareTakes(k, '\'', rest);
  }

  lemma {:induction false} AfterRunReads(k: bool, s: string)
    requires s != "" && IsControl(s[0]) && (k || '\0' !in s)
    ensures Read(k, Bare, AfterRun(s)) == Some(s[ControlRun(s)..])
    decreases |s|, 0
  {
    var n := ControlRun(s);
    if n < |s| {
      InsideReads(k, s[n..]);
      hide Inside, ControlRun;
      BareTakes(k, '\'', Inside(s[n..]));
    } else {
      assert s[n..] == "" && AfterRun(s) == "";
    }
  }

  lemma InRun(k: bool, s: string)
    requires k || '\0' !in s
    ensures var run := s[..ControlRun(s)];
            forall i :: 0 <= i < |run| ==> IsControl(run[i]) && (k || run[i] != '\0')
  {
  }

  /** Control bytes taken out of the quotes. */
  lemma {:induction false} RunReads(k: bool, s: string)
    requires s != "" && IsControl(s[0]) && (k || '\0' !in s)
    ensures Read(k, Single, Inside(s)) == Some(s)
    decreases |s|, 1
  {
    hide Inside, Escapes, ControlRun, Read, AfterRun, IsControl;
    var n, tail := ControlRun(s), AfterRun(s);
    InsideOfRun(s);
    AfterRunReads(k, s);
    InRun(k, s);
    EscapesRead(k, s[..n], tail);
    OpensDollar(k, Escapes(s[..n]), tail);
    assert s[..n] + s[n..] == s;
  }

  /** From inside single quotes to $'...'. */
  lemma OpensDollar(k: bool, escapes: string, tail: string)
    ensures Read(k, Single, "'$'" + escapes + ['\''] + tail) == Read(k, DollarSingle, escapes + (['\''] + tail))
  {
    var text := escapes + (['\''] + tail);
    Regroup("'$'", escapes, ['\''], tail);
    assert "'$'" + text == ['\''] + (['$'] + (['\''] + text));
    hide Read;
    SingleTakes(k, '\'', ['$'] + (['\''] + text));
    BareOpensDollar(k, text);
  }

  // ---- NUL bytes --------------------------------------------------------------------------------------------

  /** Where a \000 is dropped, no text without NUL bytes of its own reads as a word with one. */
  lemma {:induction false} NoNulIsRead(quoting: Quoting, text: string)
    requires '\0' !in text && Read(false, quoting, text).Some?
    ensures '\0' !in Read(false, quoting, text).value
    decreases |text|, 1
  {
    if text != "" {
      var rest := text[1..];
      assert text == [text[0]] + rest;
      NoNulIsReadOn(quoting, text[0], rest);
    }
  }

  lemma {:induction false} NoNulIsReadOn(quoting: Quoting, c: char, rest: string)
    requires c != '\0' && '\0' !in rest && Read(false, quoting, [c] + rest).Some?
    ensures '\0' !in Read(false, quoting, [c] + rest).value
    decreases |rest| + 1, 0
  {
    var text := [c] + rest;
    assert text[1..] == rest;
    forall q: Quoting, i: nat | i <= |rest| && Read(false, q, rest[i..]).Some?
      ensures '\0' !in Read(false, q, rest[i..]).value
    {
      NoNulIsRead(q, rest[i..]);
    }
    assert rest[0..] == rest;
    if quoting == DollarSingle && c == '\\' && EscapeAt(rest).Some? && EscapeAt(rest).value.0 == '\0' {
      var n := EscapeAt(rest).value.1;
      AfterQuoteIsIn(rest[n..]);
      NoNulIsRead(Bare, AfterQuote(rest[n..]));
    }
  }

  lemma {:induction false} AfterQuoteIsIn(s: string)
    ensures forall c :: c in AfterQuote(s) ==> c in s
    decreases |s|
  {
    if s != "" && s[0] != '\'' {
      AfterQuoteIsIn(if s[0] == '\\' && |s| > 1 then s[2..] else s[1..]);
    }
  }

  lemma {:induction false} InsideHasNoNul(s: string)
    ensures '\0' !in Inside(s)
    decreases |s|
  {
    if s != "" {
      if IsControl(s[0]) {
        var n := ControlRun(s);
        EscapesHaveNoNul(s[..n]);
        InsideHasNoNul(s[n..]);
      } else {
        InsideHasNoNul(s[1..]);
      }
    }
  }

  lemma {:induction false} EscapesHaveNoNul(s: string)
    requires forall i :: 0 <= i < |s| ==> IsControl(s[i])
    ensures '\0' !in Escapes(s)
  {
    if s != "" {
      EscapesHaveNoNul(s[1..]);
    }
  }

  // ---- The property -----------------------------------------------------------------------------------------

  /** A quoted name needing its quotes starts with one. */
  lemma WordIsRead(k: bool, text: string)
    requires text != "" && (text[0] == '\'' || text[0] == '"')
    ensures Word(k, text) == Read(k, Bare, text)
  {
  }

  /**
   Whatever the name and whether or not quoting is asked for anyway, what is written is read back as one
   word, the name itself; where the shell drops \000, exactly when the name holds no NUL byte.
   */
  lemma QuotedNamesReadBack(keepsNul: bool, name: string, always: bool)
    ensures Word(keepsNul, Quoted(name, always)) == Some(name) <==> keepsNul || '\0' !in name
  {
    if keepsNul || '\0' !in name {
      ReadsBack(keepsNul, name, always);
    } else {
      QuotedHasNoNul(name, always);
      var text := Quoted(name, always);
      if Word(false, text).Some? {
        NoNulIsRead(Bare, text);
      }
    }
  }

  lemma QuotedHasNoNul(name: string, always: bool)
    requires '\0' in name
    ensures '\0' !in Quoted(name, always)
  {
    assert IsControl('\0') && IsSpecial('\0');
    InsideHasNoNul(name);
  }

  lemma ReadsBack(k: bool, name: string, always: bool)
    requires k || '\0' !in name
    ensures Word(k, Quoted(name, always)) == Some(name)
  {
    if !NeedsQuoting(name) && !always {
      BareReads(k, name);
    } else if Quoted(name, always) == "'" + name + "'" && '\'' !in name {
      SingleReads(k, name);
      BareTakes(k, '\'', name + "'");
      assert "'" + name + "'" == ['\''] + (name + "'");
      WordIsRead(k, "'" + name + "'");
    } else if Quoted(name, always) == "\"" + name + "\"" && !HasAny(name, "!\"$&()*;<=>?[\\^`|") {
      DoubleReads(k, name);
      BareOpensDouble(k, name + "\"");
      assert "\"" + name + "\"" == ['"'] + (name + "\"");
      WordIsRead(k, "\"" + name + "\"");
    } else {
      InsideReads(k, name);
      BareTakes(k, '\'', Inside(name));
      WordIsRead(k, "'" + Inside(name));
    }
  }

  // ---- The forms ----------------------------------------------------------------------------------------------

  /** Whether a byte of the name is among these, or is a control byte. */
  predicate HoldsControl(name: string)
  {
    exists i :: 0 <= i < |name| && (name[i] < ' ' || name[i] == '\U{7f}')
  }

  predicate HoldsOneOf(name: string, chars: string)
  {
    exists i :: 0 <= i < |name| && name[i] in chars
  }

  /** A name a shell reads as it stands: no special byte in it, no # or ~ in front, and no brace by itself. */
  predicate IsPlain(name: string)
  {
    && name != "" && name[0] != '#' && name[0] != '~' && name != "{" && name != "}"
    && !HoldsControl(name) && !HoldsOneOf(name, " !\"$&'()*;<=>?[\\^`|")
  }

  /** What a shell cannot take as it stands needs quotes, and nothing else does. */
  lemma NeedsQuotingIs(name: string)
    ensures NeedsQuoting(name) <==> !IsPlain(name)
  {
    if c :| c in name && IsSpecial(c) {
      var i :| 0 <= i < |name| && name[i] == c;
    }
    if i :| 0 <= i < |name| && (name[i] < ' ' || name[i] == '\U{7f}' || name[i] in " !\"$&'()*;<=>?[\\^`|") {
      assert name[i] in name && IsSpecial(name[i]);
    }
  }

  lemma ControlIs(name: string)
    ensures HoldsControl(name) <==> exists c :: c in name && IsControl(c)
  {
    if c :| c in name && IsControl(c) {
      var i :| 0 <= i < |name| && name[i] == c;
    }
    if i :| 0 <= i < |name| && (name[i] < ' ' || name[i] == '\U{7f}') {
      assert name[i] in name && IsControl(name[i]);
    }
  }

  lemma OneOfIs(name: string, chars: string)
    ensures HoldsOneOf(name, chars) <==> HasAny(name, chars)
  {
    if c :| c in name && c in chars {
      var i :| 0 <= i < |name| && name[i] == c;
    }
    if i :| 0 <= i < |name| && name[i] in chars {
      assert name[i] in name && name[i] in chars;
    }
  }

  /**
   A plain name is written as it is unless quotes are asked for. A name without control bytes is put between
   single quotes, or, holding a single quote and nothing else that double quotes do not protect, between double ones.
   */
  lemma QuotedForms(name: string, always: bool)
    ensures var (out, control, quote) := (Quoted(name, always), HoldsControl(name), '\'' in name);
            && (IsPlain(name) ==> out == if always then "'" + name + "'" else name)
            && (!IsPlain(name) && !control && !quote ==> out == "'" + name + "'")
            && (!control && quote && !HoldsOneOf(name, "!\"$&()*;<=>?[\\^`|") ==> out == "\"" + name + "\"")
            && (control || (quote && HoldsOneOf(name, "!\"$&()*;<=>?[\\^`|")) ==> out == "'" + Inside(name))
  {
    NeedsQuotingIs(name);
    ControlIs(name);
    OneOfIs(name, "!\"$&()*;<=>?[\\^`|");
    PlainHoldsNone(name);
    hide IsPlain, NeedsQuoting, HoldsControl, HoldsOneOf, HasAny, Inside, IsControl;
  }

  lemma PlainHoldsNone(name: string)
    ensures IsPlain(name) ==> !HoldsControl(name) && '\'' !in name
  {
    if '\'' in name {
      var i :| 0 <= i < |name| && name[i] == '\'';
      assert HoldsOneOf(name, " !\"$&'()*;<=>?[\\^`|");
    }
  }

  /**
   The general form: bytes stand for themselves, a quote is taken out and escaped, and the longest run of control
   bytes is taken out into $'...', the quotes opening again only when more follows.
   */
  lemma GeneralFormIs(c: char, rest: string)
    ensures Inside("") == "'"
    ensures !(c < ' ' || c == '\U{7f}') ==> Inside([c] + rest) == (if c == '\'' then "'\\''" else [c]) + Inside(rest)
  {
    assert ([c] + rest)[1..] == rest;
  }

  lemma RunOfControlsIs(run: string, rest: string)
    requires run != "" && (forall i :: 0 <= i < |run| ==> run[i] < ' ' || run[i] == '\U{7f}')
    requires rest != "" ==> !(rest[0] < ' ' || rest[0] == '\U{7f}')
    ensures Inside(run + rest) == "'$'" + Escapes(run) + "'" + (if rest != "" then "'" + Inside(rest) else "")
  {
    var s := run + rest;
    assert forall i :: 0 <= i < |run| ==> s[i] == run[i] && IsControl(s[i]);
    assert rest != "" ==> s[|run|] == rest[0];
    RunIs(s, |run|);
    assert s[..|run|] == run && s[|run|..] == rest;
    hide Escapes, ControlRun;
  }

  lemma LetterEscape(c: char)
    requires 7 <= c as int <= 13
    ensures ControlEscape(c) == ["\\a", "\\b", "\\t", "\\n", "\\v", "\\f", "\\r"][c as int - 7]
  {
  }

  lemma OctalEscape(c: char)
    requires IsControl(c) && !(7 <= c as int <= 13)
    ensures var (e, n) := (ControlEscape(c), c as int);
            && |e| == 4 && e[0] == '\\' && (forall i :: 1 <= i < 4 ==> '0' <= e[i] <= '7')
            && n == 64 * (e[1] as int - '0' as int) + 8 * (e[2] as int - '0' as int) + (e[3] as int - '0' as int)
  {
    var n := c as int;
    assert n == 64 * (n / 64) + 8 * (n / 8 % 8) + n % 8;
  }

  /** Seven control bytes have letters; the others are three octal digits. */
  lemma EscapesAre(c: char, run: string)
    requires forall i :: 0 <= i < |run| ==> run[i] < ' ' || run[i] == '\U{7f}'
    requires c < ' ' || c == '\U{7f}'
    ensures Escapes("") == "" && Escapes([c] + run) == ControlEscape(c) + Escapes(run)
    ensures var (e, n) := (ControlEscape(c), c as int);
            if 7 <= n <= 13 then e == ["\\a", "\\b", "\\t", "\\n", "\\v", "\\f", "\\r"][n - 7]
            else
              && |e| == 4 && e[0] == '\\' && (forall i :: 1 <= i < 4 ==> '0' <= e[i] <= '7')
              && n == 64 * (e[1] as int - '0' as int) + 8 * (e[2] as int - '0' as int) + (e[3] as int - '0' as int)
  {
    hide ControlEscape;
    assert ([c] + run)[1..] == run;
    if 7 <= c as int <= 13 {
      LetterEscape(c);
    } else {
      OctalEscape(c);
    }
  }
}
