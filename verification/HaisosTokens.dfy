/** The tokens of a haisosfile line (src/haisos/HaisosFileParser.cpp:10-141): comments, substitution and quoting. */
module HaisosTokens {
  import opened Basics

  predicate IsBlank(c: char) { c == ' ' || c == '\t' }

  predicate IsQuote(c: char) { c == '\'' || c == '"' }

  predicate IsTrimmed(c: char) { c == ' ' || c == '\t' || c == '\r' || c == '\n' }

  function TrimLeft(s: string): string
  {
    if s != "" && IsTrimmed(s[0]) then TrimLeft(s[1..]) else s
  }

  function TrimRight(s: string): string
  {
    if s != "" && IsTrimmed(s[|s| - 1]) then TrimRight(s[..|s| - 1]) else s
  }

  function Trim(s: string): string
  {
    TrimRight(TrimLeft(s))
  }

  /** The first place of a character. */
  function Find(s: string, c: char): (r: Option<nat>)
    ensures r.Some? ==> r.value < |s| && s[r.value] == c && forall i :: 0 <= i < r.value ==> s[i] != c
    ensures r.None? ==> c !in s
  {
    if s == "" then None
    else if s[0] == c then Some(0)
    else
      var r := Find(s[1..], c);
      assert r.None? ==> c !in [s[0]] + s[1..];
      if r.Some? then Some(r.value + 1) else None
  }

  lemma FindIs(s: string, c: char, n: nat)
    requires n < |s| && s[n] == c && forall i :: 0 <= i < n ==> s[i] != c
    ensures Find(s, c) == Some(n)
  {
    assert c in s;
  }

  // ---- Comments -----------------------------------------------------------------------------------------------

  /** A line up to its comment; `starts` says whether a token may start here. */
  function Stripped(starts: bool, s: string): string
    decreases |s|
  {
    if s == "" then ""
    else if starts && IsQuote(s[0]) then
      match Find(s[1..], s[0])
      case None => s
      case Some(n) => s[..n + 2] + Stripped(false, s[n + 2..])
    else if starts && s[0] == '#' then ""
    else [s[0]] + Stripped(IsBlank(s[0]), s[1..])
  }

  /** Where a character next stands, from a place on. */
  function FoundFrom(line: string, c: char, from: nat): (r: Option<nat>)
    requires from <= |line|
    ensures r.Some? ==> from <= r.value < |line|
  {
    match Find(line[from..], c)
    case None => None
    case Some(n) => Some(from + n)
  }

  method FindFrom(line: string, c: char, from: nat) returns (at: Option<nat>)
    requires from <= |line|
    ensures at == FoundFrom(line, c, from)
  {
    var i := from;
    while i < |line|
      invariant from <= i <= |line| && forall j :: from <= j < i ==> line[j] != c
    {
      if line[i] == c {
        FindIs(line[from..], c, i - from);
        return Some(i);
      }
      i := i + 1;
    }
    at := None;
  }

  method StripComment(line: string) returns (stripped: string)
    ensures stripped == Stripped(true, line)
  {
    var i := 0;
    StripFromStart(line);
    hide StripFrom, FoundFrom, Stripped;
    while i < |line|
      invariant 0 <= i <= |line| && StripFrom(line, i) == Stripped(true, line)
    {
      StripStep(line, i);
      if StartsToken(line, i) && IsQuote(line[i]) {
        var close := FindFrom(line, line[i], i + 1);
        if close == None {
          return line;
        }
        i := close.value;
      } else if StartsToken(line, i) && line[i] == '#' {
        return line[..i];
      }
      i := i + 1;
    }
    stripped := line;
    StripStep(line, i);
  }

  /** The line without its comment, what is before `i` being looked at already. */
  function StripFrom(line: string, i: nat): string
    requires i <= |line|
  {
    line[..i] + Stripped(StartsToken(line, i), line[i..])
  }

  lemma StripFromStart(line: string)
    ensures StripFrom(line, 0) == Stripped(true, line)
  {
    assert line[0..] == line && line[..0] == "";
  }

  /** What the loop does at a place of the line. */
  lemma StripStep(line: string, i: nat)
    requires i <= |line|
    ensures if i == |line| then StripFrom(line, i) == line
            else if StartsToken(line, i) && IsQuote(line[i]) then
              match FoundFrom(line, line[i], i + 1)
              case None => StripFrom(line, i) == line
              case Some(close) => StripFrom(line, i) == StripFrom(line, close + 1)
            else if StartsToken(line, i) && line[i] == '#' then StripFrom(line, i) == line[..i]
            else StripFrom(line, i) == StripFrom(line, i + 1)
  {
    hide Stripped, FoundFrom, IsQuote, StartsToken, IsBlank;
    if i == |line| {
      NothingLeft(line);
    } else {
      StrippedHere(line, i);
      if StartsToken(line, i) && IsQuote(line[i]) {
        var close := FoundFrom(line, line[i], i + 1);
        if close.None? {
          Adjoins(line, i, |line|, "");
        } else {
          AfterQuote(line, i, close.value);
          Adjoins(line, i, close.value + 1, Stripped(false, line[close.value + 1..]));
        }
      } else if StartsToken(line, i) && line[i] == '#' {
        Adjoins(line, i, i, "");
      } else {
        NextStarts(line, i);
        Adjoins(line, i, i + 1, Stripped(IsBlank(line[i]), line[i + 1..]));
      }
    }
  }

  lemma NothingLeft(line: string)
    ensures StripFrom(line, |line|) == line
  {
    assert line[|line|..] == "" && line[..|line|] + "" == line;
  }

  lemma AfterQuote(line: string, i: nat, close: nat)
    requires i < |line| && IsQuote(line[i]) && FoundFrom(line, line[i], i + 1) == Some(close)
    ensures close < |line| && !StartsToken(line, close + 1)
  {
    FoundIs(line, line[i], i + 1);
    hide FoundFrom;
  }

  lemma NextStarts(line: string, i: nat)
    requires i < |line|
    ensures StartsToken(line, i + 1) == IsBlank(line[i])
  {
  }

  lemma FoundIs(line: string, c: char, from: nat)
    requires from <= |line|
    ensures FoundFrom(line, c, from).Some? ==> line[FoundFrom(line, c, from).value] == c
  {
  }

  predicate StartsToken(line: string, i: nat)
    requires i <= |line|
  {
    i == 0 || IsBlank(line[i - 1])
  }

  lemma Adjoins(line: string, i: nat, j: nat, x: string)
    requires i <= j <= |line|
    ensures line[..i] + (line[i..j] + x) == line[..j] + x
    ensures j == |line| ==> line[..j] + "" == line && line[i..j] + "" == line[i..]
    ensures j == i ==> line[..i] + "" == line[..i]
  {
    assert line[..i] + line[i..j] == line[..j];
  }

  lemma StrippedHere(line: string, i: nat)
    requires i < |line|
    ensures var (starts, rest) := (StartsToken(line, i), line[i..]);
            if starts && IsQuote(line[i]) then
              match FoundFrom(line, line[i], i + 1)
              case None => Stripped(starts, rest) == line[i..|line|] + ""
              case Some(close) => Stripped(starts, rest) == line[i..close + 1] + Stripped(false, line[close + 1..])
            else if starts && line[i] == '#' then Stripped(starts, rest) == line[i..i] + ""
            else Stripped(starts, rest) == line[i..i + 1] + Stripped(IsBlank(line[i]), line[i + 1..])
  {
    hide Find;
    var rest := line[i..];
    assert rest[1..] == line[i + 1..] && rest[0] == line[i] && [line[i]] == line[i..i + 1];
    assert rest + "" == rest && line[i..|line|] == rest;
    assert line[i..i] == "" && "" + "" == "";
    if IsQuote(line[i]) && Find(line[i + 1..], line[i]).Some? {
      var n := Find(line[i + 1..], line[i]).value;
      assert rest[..n + 2] == line[i..i + n + 2] && rest[n + 2..] == line[i + n + 2..];
    }
  }

  // ---- Substitution -------------------------------------------------------------------------------------------

  /** The text with every ${name} replaced, and the first name that is not known. */
  datatype Substituted = Substituted(text: string, unknown: Option<string>)

  function Before(prefix: string, unknown: Option<string>, rest: Substituted): Substituted
  {
    Substituted(prefix + rest.text, FirstOf(unknown, rest.unknown))
  }

  function Substitution(text: string, values: map<string, string>): Substituted
    decreases |text|
  {
    if text == "" then Substituted("", None)
    else if |text| >= 2 && text[0] == '$' && text[1] == '{' then
      match Find(text[2..], '}')
      case None => Substituted(text, None)
      case Some(n) =>
        var name := text[2..2 + n];
        Before(ValueOf(name, values), UnknownIn(name, values), Substitution(text[n + 3..], values))
    else Before([text[0]], None, Substitution(text[1..], values))
  }

  method Substitute(text: string, values: map<string, string>) returns (result: string, unknown: Option<string>)
    ensures Substituted(result, unknown) == Substitution(text, values)
  {
    result, unknown := "", None;
    var i := 0;
    assert text[0..] == text;
    assert SubstitutedFrom("", None, text, 0, values) == Substitution(text, values);
    hide Substitution, SubstitutedFrom;
    while i < |text|
      invariant 0 <= i <= |text|
      invariant SubstitutedFrom(result, unknown, text, i, values) == Substitution(text, values)
    {
      var added, missing, next := TakeNext(result, unknown, text, i, values);
      result, unknown, i := result + added, FirstOf(unknown, missing), next;
    }
    SubstitutionEnds(result, unknown, text, i, values);
  }

  function FirstOf(a: Option<string>, b: Option<string>): Option<string>
  {
    if a.Some? then a else b
  }

  /** What the loop adds at a place of the text: a reference's value, the rest when one is never closed, or one byte. */
  method TakeNext(ghost result: string, ghost unknown: Option<string>, text: string, i: nat, values: map<string, string>)
    returns (added: string, missing: Option<string>, next: nat)
    requires i < |text|
    ensures i < next <= |text|
    ensures SubstitutedFrom(result, unknown, text, i, values)
         == SubstitutedFrom(result + added, FirstOf(unknown, missing), text, next, values)
  {
    hide Substitution, SubstitutedFrom, FoundFrom, ValueOf, UnknownIn;
    if IsReference(text, i) {
      var close := FindFrom(text, '}', i + 2);
      if close == None {
        NeverClosed(result, unknown, text, i, values);
        SubstitutionEnds(result + text[i..], unknown, text, |text|, values);
        return text[i..], None, |text|;
      }
      ReferenceIs(result, unknown, text, i, values);
      var name := text[i + 2..close.value];
      return ValueOf(name, values), UnknownIn(name, values), close.value + 1;
    }
    PlainIs(result, unknown, text, i, values);
    return [text[i]], None, i + 1;
  }

  /** What a reference is replaced with; nothing when it is not known. */
  function ValueOf(name: string, values: map<string, string>): string
  {
    if name in values then values[name] else ""
  }

  function UnknownIn(name: string, values: map<string, string>): Option<string>
  {
    if name in values then None else Some(name)
  }

  predicate IsReference(text: string, i: nat)
    requires i < |text|
  {
    text[i] == '$' && i + 1 < |text| && text[i + 1] == '{'
  }

  /** The whole text's substitution, what is before `i` having given `result`. */
  function SubstitutedFrom(result: string, unknown: Option<string>, text: string, i: nat, values: map<string, string>): Substituted
    requires i <= |text|
  {
    Before(result, unknown, Substitution(text[i..], values))
  }

  lemma SubstitutionEnds(result: string, unknown: Option<string>, text: string, i: nat, values: map<string, string>)
    requires i == |text|
    ensures SubstitutedFrom(result, unknown, text, i, values) == Substituted(result, unknown)
  {
    assert text[i..] == "" && result + "" == result;
  }

  lemma NeverClosed(result: string, unknown: Option<string>, text: string, i: nat, values: map<string, string>)
    requires i < |text| && IsReference(text, i) && FoundFrom(text, '}', i + 2) == None
    ensures SubstitutedFrom(result, unknown, text, i, values) == Substituted(result + text[i..], unknown)
  {
    SubstitutionHere(text, i, values);
    hide Substitution, FoundFrom;
  }

  lemma ReferenceIs(result: string, unknown: Option<string>, text: string, i: nat, values: map<string, string>)
    requires i < |text| && IsReference(text, i) && FoundFrom(text, '}', i + 2).Some?
    ensures var close := FoundFrom(text, '}', i + 2).value;
            var name := text[i + 2..close];
            SubstitutedFrom(result, unknown, text, i, values) ==
            SubstitutedFrom(result + ValueOf(name, values), FirstOf(unknown, UnknownIn(name, values)),
                            text, close + 1, values)
  {
    hide Substitution, FoundFrom, Before, ValueOf, UnknownIn, Find;
    SubstitutionHere(text, i, values);
    var close := FoundFrom(text, '}', i + 2).value;
    var name := text[i + 2..close];
    BeforeTwice(result, unknown, ValueOf(name, values), UnknownIn(name, values), Substitution(text[close + 1..], values));
  }

  lemma PlainIs(result: string, unknown: Option<string>, text: string, i: nat, values: map<string, string>)
    requires i < |text| && !IsReference(text, i)
    ensures SubstitutedFrom(result, unknown, text, i, values) == SubstitutedFrom(result + [text[i]], unknown, text, i + 1, values)
  {
    hide Substitution, FoundFrom, Before, Find;
    SubstitutionHere(text, i, values);
    BeforeTwice(result, unknown, [text[i]], None, Substitution(text[i + 1..], values));
  }

  lemma SubstitutionHere(text: string, i: nat, values: map<string, string>)
    requires i < |text|
    ensures var rest := text[i..];
            if IsReference(text, i) then
              match FoundFrom(text, '}', i + 2)
              case None => Substitution(rest, values) == Substituted(rest, None)
              case Some(close) =>
                var name := text[i + 2..close];
                Substitution(rest, values) ==
                Before(ValueOf(name, values), UnknownIn(name, values), Substitution(text[close + 1..], values))
            else Substitution(rest, values) == Before([text[i]], None, Substitution(text[i + 1..], values))
  {
    hide Find, Before, ValueOf, UnknownIn;
    var rest := text[i..];
    assert rest[0] == text[i] && rest[1..] == text[i + 1..];
    if IsReference(text, i) {
      assert rest[1] == text[i + 1] && rest[2..] == text[i + 2..];
      if Find(text[i + 2..], '}').Some? {
        var n := Find(text[i + 2..], '}').value;
        assert rest[2..2 + n] == text[i + 2..i + 2 + n] && rest[n + 3..] == text[i + 3 + n..];
      }
    }
  }

  lemma BeforeTwice(a: string, u: Option<string>, b: string, v: Option<string>, rest: Substituted)
    ensures Before(a, u, Before(b, v, rest)) == Before(a + b, FirstOf(u, v), rest)
  {
    assert a + (b + rest.text) == a + b + rest.text;
  }

  // ---- Tokens -------------------------------------------------------------------------------------------------

  datatype Split = Tokens(tokens: seq<string>) | Unterminated(text: string) | TextAfterQuote(text: string)

  function WithFirst(token: string, rest: Split): Split
  {
    if rest.Tokens? then Tokens([token] + rest.tokens) else rest
  }

  function BlankRun(s: string): (n: nat)
    ensures n <= |s| && (forall i :: 0 <= i < n ==> IsBlank(s[i])) && (n < |s| ==> !IsBlank(s[n]))
  {
    if s == "" || !IsBlank(s[0]) then 0 else 1 + BlankRun(s[1..])
  }

  function TokenRun(s: string): (n: nat)
    ensures n <= |s| && (forall i :: 0 <= i < n ==> !IsBlank(s[i])) && (n < |s| ==> IsBlank(s[n]))
  {
    if s == "" || IsBlank(s[0]) then 0 else 1 + TokenRun(s[1..])
  }

  function SplitOf(s: string): Split
    decreases |s|
  {
    if s == "" then Tokens([])
    else if IsBlank(s[0]) then SplitOf(s[1..])
    else if IsQuote(s[0]) then
      match Find(s[1..], s[0])
      case None => Unterminated(s)
      case Some(n) =>
        if n + 2 < |s| && !IsBlank(s[n + 2]) then TextAfterQuote(s)
        else WithFirst(s[1..n + 1], SplitOf(s[n + 2..]))
    else
      var n := TokenRun(s);
      WithFirst(s[..n], SplitOf(s[n..]))
  }

  method SplitTokens(text: string) returns (split: Split)
    ensures split == SplitOf(text)
  {
    var tokens: seq<string> := [];
    var i: nat := 0;
    assert text[0..] == text;
    assert SplitFrom([], text, 0) == SplitOf(text);
    hide SplitOf, SplitFrom, FoundFrom, TokenRun;
    while true
      invariant i <= |text| && SplitFrom(tokens, text, i) == SplitOf(text)
      decreases |text| - i
    {
      i := SkipBlanks(tokens, text, i);
      if i >= |text| {
        SplitStep(tokens, text, i);
        return Tokens(tokens);
      }
      var token, next, failure := TakeToken(tokens, text, i);
      if failure.Some? {
        return failure.value;
      }
      tokens := tokens + [token];
      i := next;
    }
  }

  /** One token and where it ends, or how it fails. */
  method TakeToken(ghost tokens: seq<string>, text: string, i: nat) returns (token: string, next: nat, failure: Option<Split>)
    requires i < |text| && !IsBlank(text[i])
    ensures failure == None ==>
              i < next <= |text| && SplitFrom(tokens, text, i) == SplitFrom(tokens + [token], text, next)
    ensures failure.Some? ==> SplitFrom(tokens, text, i) == failure.value
  {
    hide SplitOf, SplitFrom, FoundFrom, TokenRun, Find;
    SplitStep(tokens, text, i);
    token, failure := "", None;
    if IsQuote(text[i]) {
      var close := FindFrom(text, text[i], i + 1);
      if close == None {
        return "", i, Some(Unterminated(text[i..]));
      }
      next := close.value + 1;
      if next < |text| && !IsBlank(text[next]) {
        return "", i, Some(TextAfterQuote(text[i..]));
      }
      token := text[i + 1..close.value];
    } else {
      next := SkipToken(text, i);
      token := text[i..next];
    }
  }

  /** The whole text's tokens, what is before `i` having given `tokens`. */
  function SplitFrom(tokens: seq<string>, text: string, i: nat): Split
    requires i <= |text|
  {
    Prepended(tokens, SplitOf(text[i..]))
  }

  /** What the loop does where a token starts, or at the end. */
  lemma SplitStep(tokens: seq<string>, text: string, i: nat)
    requires i <= |text| && (i < |text| ==> !IsBlank(text[i]))
    ensures if i == |text| then SplitFrom(tokens, text, i) == Tokens(tokens)
            else if IsQuote(text[i]) then
              match FoundFrom(text, text[i], i + 1)
              case None => SplitFrom(tokens, text, i) == Unterminated(text[i..])
              case Some(close) =>
                if close + 1 < |text| && !IsBlank(text[close + 1]) then SplitFrom(tokens, text, i) == TextAfterQuote(text[i..])
                else SplitFrom(tokens, text, i) == SplitFrom(tokens + [text[i + 1..close]], text, close + 1)
            else
              var end := i + TokenRun(text[i..]);
              SplitFrom(tokens, text, i) == SplitFrom(tokens + [text[i..end]], text, end)
  {
    if i < |text| {
      SplitHere(text, i);
      hide SplitOf, TokenRun;
      if IsQuote(text[i]) {
        var close := FoundFrom(text, text[i], i + 1);
        if close.Some? {
          PrependedOne(tokens, text[i + 1..close.value], SplitOf(text[close.value + 1..]));
        }
        hide FoundFrom;
      } else {
        var end := i + TokenRun(text[i..]);
        PrependedOne(tokens, text[i..end], SplitOf(text[end..]));
      }
    }
  }

  lemma SplitHere(text: string, i: nat)
    requires i < |text| && !IsBlank(text[i])
    ensures var rest := text[i..];
            if IsQuote(text[i]) then
              match FoundFrom(text, text[i], i + 1)
              case None => SplitOf(rest) == Unterminated(rest)
              case Some(close) =>
                if close + 1 < |text| && !IsBlank(text[close + 1]) then SplitOf(rest) == TextAfterQuote(rest)
                else SplitOf(rest) == WithFirst(text[i + 1..close], SplitOf(text[close + 1..]))
            else
              var end := i + TokenRun(rest);
              SplitOf(rest) == WithFirst(text[i..end], SplitOf(text[end..]))
  {
    hide Find, TokenRun, WithFirst;
    var rest := text[i..];
    assert rest[0] == text[i] && rest[1..] == text[i + 1..];
    if IsQuote(text[i]) {
      if Find(text[i + 1..], text[i]).Some? {
        var n := Find(text[i + 1..], text[i]).value;
        assert i + n + 2 < |text| ==> rest[n + 2] == text[i + n + 2];
        assert rest[1..n + 1] == text[i + 1..i + 1 + n] && rest[n + 2..] == text[i + n + 2..];
      }
    } else {
      var n := TokenRun(rest);
      assert rest[..n] == text[i..i + n] && rest[n..] == text[i + n..];
    }
  }

  function Prepended(tokens: seq<string>, rest: Split): Split
  {
    if rest.Tokens? then Tokens(tokens + rest.tokens) else rest
  }

  lemma PrependedOne(tokens: seq<string>, token: string, rest: Split)
    ensures Prepended(tokens, WithFirst(token, rest)) == Prepended(tokens + [token], rest)
  {
    if rest.Tokens? {
      assert tokens + ([token] + rest.tokens) == tokens + [token] + rest.tokens;
    }
  }

  method SkipBlanks(ghost tokens: seq<string>, text: string, from: nat) returns (i: nat)
    requires from <= |text|
    ensures from <= i <= |text| && SplitFrom(tokens, text, i) == SplitFrom(tokens, text, from)
    ensures i < |text| ==> !IsBlank(text[i])
  {
    i := from;
    while i < |text| && IsBlank(text[i])
      invariant from <= i <= |text| && SplitFrom(tokens, text, i) == SplitFrom(tokens, text, from)
    {
      assert text[i..][1..] == text[i + 1..];
      i := i + 1;
    }
  }

  method SkipToken(text: string, from: nat) returns (i: nat)
    requires from < |text| && !IsBlank(text[from])
    ensures from < i == from + TokenRun(text[from..]) <= |text|
  {
    i := from;
    while i < |text| && !IsBlank(text[i])
      invariant from <= i <= |text| && forall j :: from <= j < i ==> !IsBlank(text[j])
    {
      i := i + 1;
    }
    TokenRunIs(text[from..], i - from);
  }

  lemma TokenRunIs(s: string, n: nat)
    requires n <= |s| && (forall i :: 0 <= i < n ==> !IsBlank(s[i])) && (n < |s| ==> IsBlank(s[n]))
    ensures TokenRun(s) == n
  {
  }

  // ---- Round trip -----------------------------------------------------------------------------------------------

  /** A token and the quotes it is written in. */
  datatype QuotedToken = QuotedToken(quote: char, token: string)
  {
    predicate Valid()
    {
      IsQuote(quote) && quote !in token && HoldsNoReference(token)
    }

    function Text(): string
    {
      [quote] + token + [quote]
    }
  }

  predicate HoldsNoReference(s: string)
  {
    forall i :: 0 <= i < |s| - 1 ==> !(s[i] == '$' && s[i + 1] == '{')
  }

  /** Any token without a ${ can be written, unless it holds quotes of both kinds. */
  lemma CanBeQuoted(token: string)
    requires HoldsNoReference(token)
    ensures (exists q :: QuotedToken(q, token).Valid()) <==> !('\'' in token && '"' in token)
  {
    if '\'' !in token {
      assert QuotedToken('\'', token).Valid();
    } else if '"' !in token {
      assert QuotedToken('"', token).Valid();
    }
  }

  function Joined(ts: seq<QuotedToken>): string
  {
    if ts == [] then "" else if |ts| == 1 then ts[0].Text() else ts[0].Text() + " " + Joined(ts[1..])
  }

  function TokensOf(ts: seq<QuotedToken>): seq<string>
  {
    if ts == [] then [] else [ts[0].token] + TokensOf(ts[1..])
  }

  ghost predicate AllValid(ts: seq<QuotedToken>)
  {
    forall i :: 0 <= i < |ts| ==> ts[i].Valid()
  }

  lemma ClosingQuote(t: QuotedToken, rest: string)
    requires t.Valid()
    ensures var s := t.Text() + rest;
            && s[0] == t.quote && Find(s[1..], t.quote) == Some(|t.token|)
            && s[..|t.token| + 2] == t.Text() && s[|t.token| + 2..] == rest && s[1..|t.token| + 1] == t.token
  {
    var s := t.Text() + rest;
    assert s[1..] == t.token + [t.quote] + rest;
    assert forall i :: 0 <= i < |t.token| ==> s[1..][i] == t.token[i] && t.token[i] in t.token;
    FindIs(s[1..], t.quote, |t.token|);
  }

  lemma BlankIsKept(starts: bool, rest: string)
    ensures Stripped(starts, " " + rest) == " " + Stripped(true, rest)
  {
    assert (" " + rest)[1..] == rest;
  }

  lemma QuotedIsKept(t: QuotedToken, rest: string)
    requires t.Valid()
    ensures Stripped(true, t.Text() + (" " + rest)) == t.Text() + (" " + Stripped(true, rest))
  {
    ClosingQuote(t, " " + rest);
    BlankIsKept(false, rest);
  }

  /** The comment goes, and nothing before it. */
  lemma {:induction false} CommentGoes(ts: seq<QuotedToken>, comment: string)
    requires AllValid(ts)
    ensures Stripped(true, Joined(ts) + (" #" + comment)) == Joined(ts) + " "
    decreases |ts|
  {
    assert Stripped(true, "#" + comment) == "";
    assert " #" + comment == " " + ("#" + comment);
    if ts == [] {
      BlankIsKept(true, "#" + comment);
      assert "" + (" #" + comment) == " #" + comment && "" + " " == " ";
    } else if |ts| == 1 {
      QuotedIsKept(ts[0], "#" + comment);
      assert " " + "" == " ";
    } else {
      CommentGoes(ts[1..], comment);
      QuotedIsKept(ts[0], Joined(ts[1..]) + (" #" + comment));
      Regroup(ts[0].Text(), " ", Joined(ts[1..]), " #" + comment);
      Regroup(ts[0].Text(), " ", Joined(ts[1..]), " ");
    }
  }

  lemma Regroup(a: string, b: string, c: string, d: string)
    ensures a + b + c + d == a + (b + (c + d))
  {
  }

  lemma {:induction false} JoinedIsQuoted(ts: seq<QuotedToken>)
    requires AllValid(ts) && ts != []
    ensures |Joined(ts)| >= 2 && IsQuote(Joined(ts)[0]) && IsQuote(Joined(ts)[|Joined(ts)| - 1])
    decreases |ts|
  {
    if |ts| > 1 {
      JoinedIsQuoted(ts[1..]);
      assert Joined(ts)[|Joined(ts)| - 1] == Joined(ts[1..])[|Joined(ts[1..])| - 1];
    }
  }

  lemma TrimTakesTheBlank(ts: seq<QuotedToken>)
    requires AllValid(ts)
    ensures Trim(Joined(ts) + " ") == Joined(ts)
  {
    var s := Joined(ts) + " ";
    if ts == [] {
      assert s == " " && s[1..] == "";
      assert TrimLeft(s) == TrimLeft("") == "";
      assert Trim(s) == TrimRight("") == "";
    } else {
      JoinedIsQuoted(ts);
      assert s[0] == Joined(ts)[0] && s[..|s| - 1] == Joined(ts);
      var text := Joined(ts);
      hide Joined;
      assert TrimLeft(s) == s;
      assert TrimRight(text) == text;
      assert TrimRight(s) == TrimRight(text);
    }
  }

  lemma NoReferenceIn(a: string, b: string)
    requires HoldsNoReference(a) && HoldsNoReference(b) && (a == "" || b == "" || !(a[|a| - 1] == '$' && b[0] == '{'))
    ensures HoldsNoReference(a + b)
  {
  }

  lemma {:induction false} JoinedHoldsNoReference(ts: seq<QuotedToken>)
    requires AllValid(ts)
    ensures HoldsNoReference(Joined(ts))
    decreases |ts|
  {
    if ts != [] {
      var t := ts[0];
      assert t.Valid();
      NoReferenceIn([t.quote], t.token);
      NoReferenceIn([t.quote] + t.token, [t.quote]);
      if |ts| > 1 {
        JoinedHoldsNoReference(ts[1..]);
        NoReferenceIn(t.Text(), " ");
        NoReferenceIn(t.Text() + " ", Joined(ts[1..]));
      }
    }
  }

  /** A text without references is left as it is. */
  lemma {:induction false} NothingSubstituted(text: string, values: map<string, string>)
    requires HoldsNoReference(text)
    ensures Substitution(text, values) == Substituted(text, None)
  {
    if text != "" {
      NothingSubstituted(text[1..], values);
      assert [text[0]] + text[1..] == text;
    }
  }

  lemma QuotedSplits(t: QuotedToken, rest: string)
    requires t.Valid() && (rest == "" || IsBlank(rest[0]))
    ensures SplitOf(t.Text() + rest) == WithFirst(t.token, SplitOf(rest))
  {
    ClosingQuote(t, rest);
    var s := t.Text() + rest;
    assert rest != "" ==> s[|t.token| + 2] == rest[0];
    hide Find;
  }

  lemma {:induction false} JoinedSplits(ts: seq<QuotedToken>)
    requires AllValid(ts)
    ensures SplitOf(Joined(ts)) == Tokens(TokensOf(ts))
    decreases |ts|
  {
    if |ts| == 1 {
      QuotedSplits(ts[0], "");
      assert ts[0].Text() + "" == Joined(ts) && TokensOf(ts) == [ts[0].token] + [];
    } else if ts != [] {
      JoinedSplits(ts[1..]);
      var rest := " " + Joined(ts[1..]);
      assert Joined(ts) == ts[0].Text() + rest;
      assert rest[1..] == Joined(ts[1..]) && rest[0] == ' ';
      assert SplitOf(rest) == SplitOf(Joined(ts[1..]));
      QuotedSplits(ts[0], rest);
    }
  }

  /** Tokens written in quotes, with blanks between them and any comment after, are read back as they are. */
  lemma QuotedTokensReadBack(ts: seq<QuotedToken>, comment: string, values: map<string, string>)
    requires AllValid(ts)
    ensures var line := Trim(Stripped(true, Joined(ts) + (" #" + comment)));
            var substituted := Substitution(line, values);
            substituted.unknown == None && SplitOf(substituted.text) == Tokens(TokensOf(ts))
  {
    CommentGoes(ts, comment);
    TrimTakesTheBlank(ts);
    JoinedHoldsNoReference(ts);
    NothingSubstituted(Joined(ts), values);
    JoinedSplits(ts);
  }
}
