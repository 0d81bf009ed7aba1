/**
 What the three readings of a haisosfile line mean (src/haisos/HaisosFileParser.cpp:26-45, 48-76, 101-141), said
 of whole texts: where a comment starts, what references are replaced with, and which texts have which tokens.
 */
module HaisosLaws {
  import opened Basics
  import opened HaisosTokens

  // ---- Comments -----------------------------------------------------------------------------------------------

  /** A quote that starts a token and does not itself stand in quotes. */
  ghost predicate OpensQuotes(line: string, i: nat)
    requires i < |line|
    decreases i, 1
  {
    StartsToken(line, i) && IsQuote(line[i]) && !InQuotes(line, i)
  }

  /** After a quote that opens, up to and with the next of its kind, or to the end when there is none. */
  ghost predicate InQuotes(line: string, i: nat)
    requires i <= |line|
    decreases i, 0
  {
    exists a :: 0 <= a < i && OpensQuotes(line, a) && !Closed(line, a, i)
  }

  /** The quote at `a` has another of its kind before `i`. */
  ghost predicate Closed(line: string, a: nat, i: nat)
    requires a < i <= |line|
  {
    exists j :: a < j < i && line[j] == line[a]
  }

  /** A '#' that starts a token, and not one in quotes. */
  ghost predicate StartsComment(line: string, i: nat)
    requires i < |line|
  {
    StartsToken(line, i) && line[i] == '#' && !InQuotes(line, i)
  }

  /** The text is what is before the first comment from `i` on. */
  ghost predicate IsUpToComment(line: string, i: nat, text: string)
  {
    && i <= |text| && text <= line
    && (|text| < |line| ==> StartsComment(line, |text|))
    && forall j :: i <= j < |text| ==> !StartsComment(line, j)
  }

  /** What is left of a line is all of it up to its first comment. */
  lemma StrippedIsUpToComment(line: string)
    ensures IsUpToComment(line, 0, Stripped(true, line))
  {
    hide Stripped, IsUpToComment, StartsComment, StripFrom;
    StripFromStart(line);
    NothingOpensEarlier(line);
    RestIsUpToComment(line, 0);
  }

  lemma NothingOpensEarlier(line: string)
    ensures !InQuotes(line, 0)
  {
  }

  lemma {:induction false} RestIsUpToComment(line: string, i: nat)
    requires i <= |line| && !InQuotes(line, i)
    ensures IsUpToComment(line, i, StripFrom(line, i))
    decreases |line| - i
  {
    hide Stripped, FoundFrom, StripFrom, InQuotes, OpensQuotes, Closed, StartsComment, IsUpToComment;
    StripStep(line, i);
    if i == |line| {
      EndsUpTo(line, i);
    } else if StartsToken(line, i) && IsQuote(line[i]) {
      var close := FoundFrom(line, line[i], i + 1);
      if close == None {
        NeverClosedIn(line, i);
      } else {
        QuotesClose(line, i, close.value);
        RestIsUpToComment(line, close.value + 1);
        Further(line, i, close.value + 1, StripFrom(line, close.value + 1));
      }
    } else if StartsToken(line, i) && line[i] == '#' {
      CommentStarts(line, i);
    } else {
      StaysOutside(line, i);
      RestIsUpToComment(line, i + 1);
      Further(line, i, i + 1, StripFrom(line, i + 1));
    }
  }

  lemma EndsUpTo(line: string, i: nat)
    requires i == |line|
    ensures IsUpToComment(line, i, line)
  {
  }

  lemma CommentStarts(line: string, i: nat)
    requires i < |line| && StartsToken(line, i) && line[i] == '#' && !InQuotes(line, i)
    ensures IsUpToComment(line, i, line[..i])
  {
    hide InQuotes, StartsToken;
  }

  lemma Further(line: string, i: nat, k: nat, text: string)
    requires i <= k <= |line| && IsUpToComment(line, k, text)
    requires forall j :: i <= j < k ==> !StartsComment(line, j)
    ensures IsUpToComment(line, i, text)
  {
    hide StartsComment;
  }

  /** An opening quote that is closed nowhere keeps the rest of the line. */
  lemma NeverClosedIn(line: string, i: nat)
    requires i < |line| && StartsToken(line, i) && IsQuote(line[i]) && !InQuotes(line, i)
    requires FoundFrom(line, line[i], i + 1) == None
    ensures IsUpToComment(line, i, line)
  {
    assert OpensQuotes(line, i);
    assert forall j :: i < j < |line| ==> line[j] == line[i + 1..][j - i - 1];
    hide OpensQuotes, Find;
    forall j | i < j < |line|
      ensures !StartsComment(line, j)
    {
      assert !Closed(line, i, j);
      assert InQuotes(line, j);
    }
  }

  /** From an opening quote to the next of its kind all stands in quotes, and after that nothing does. */
  lemma QuotesClose(line: string, i: nat, close: nat)
    requires i < |line| && StartsToken(line, i) && IsQuote(line[i]) && !InQuotes(line, i)
    requires FoundFrom(line, line[i], i + 1) == Some(close)
    ensures close < |line| && !InQuotes(line, close + 1)
    ensures forall j :: i <= j <= close ==> !StartsComment(line, j)
  {
    assert OpensQuotes(line, i);
    assert line[close] == line[i] && forall j :: i < j < close ==> line[j] != line[i] by {
      assert forall j :: i < j < |line| ==> line[j] == line[i + 1..][j - i - 1];
    }
    hide FoundFrom, OpensQuotes;
    forall j | i < j <= close
      ensures InQuotes(line, j)
    {
      assert !Closed(line, i, j);
    }
    forall a | 0 <= a < close + 1 && OpensQuotes(line, a)
      ensures Closed(line, a, close + 1)
    {
      if a < i {
        assert Closed(line, a, i);
      } else if a > i {
        OpensOutside(line, a);
      }
    }
  }

  lemma OpensOutside(line: string, a: nat)
    requires a < |line| && OpensQuotes(line, a)
    ensures !InQuotes(line, a)
  {
  }

  lemma StaysOutside(line: string, i: nat)
    requires i < |line| && !InQuotes(line, i) && !(StartsToken(line, i) && (IsQuote(line[i]) || line[i] == '#'))
    ensures !InQuotes(line, i + 1) && !StartsComment(line, i)
  {
    assert !OpensQuotes(line, i);
    forall a | 0 <= a < i + 1 && OpensQuotes(line, a)
      ensures Closed(line, a, i + 1)
    {
      assert Closed(line, a, i);
    }
  }

  // ---- References ---------------------------------------------------------------------------------------------

  /** A piece of text without references, and the name of the reference after it. */
  datatype Part = Part(literal: string, name: string)

  ghost predicate IsPart(p: Part)
  {
    HoldsNoReference(p.literal) && '}' !in p.name
  }

  ghost predicate AreParts(parts: seq<Part>)
  {
    forall i :: 0 <= i < |parts| ==> IsPart(parts[i])
  }

  /** No reference in it is closed. */
  ghost predicate HoldsNoClosed(s: string)
  {
    forall i :: 0 <= i < |s| && IsReference(s, i) ==> '}' !in s[i + 2..]
  }

  function Written(parts: seq<Part>, last: string): string
  {
    if parts == [] then last else parts[0].literal + ("${" + (parts[0].name + ("}" + Written(parts[1..], last))))
  }

  function Replaced(parts: seq<Part>, last: string, values: map<string, string>): string
  {
    if parts == [] then last
    else
      var (p, rest) := (parts[0], Replaced(parts[1..], last, values));
      p.literal + ((if p.name in values then values[p.name] else "") + rest)
  }

  /** The name is the first reference's that is not known. */
  ghost predicate IsFirstUnknown(parts: seq<Part>, values: map<string, string>, name: string)
  {
    exists k :: 0 <= k < |parts| && parts[k].name == name && name !in values && forall j :: 0 <= j < k ==> parts[j].name in values
  }

  /** Every text is literal pieces and references in turn. */
  lemma {:induction false} EveryTextIsWritten(text: string) returns (parts: seq<Part>, last: string)
    ensures AreParts(parts) && HoldsNoClosed(last) && Written(parts, last) == text
    decreases |text|
  {
    hide Written, AreParts, HoldsNoClosed, HoldsNoReference, Find;
    if text == "" {
      NoParts(text);
      return [], text;
    }
    var rest := text[1..];
    assert text == [text[0]] + rest;
    if IsReference(text, 0) {
      var close := Find(text[2..], '}');
      if close == None {
        NothingCloses(text);
        NoParts(text);
        return [], text;
      }
      var name, after := text[2..2 + close.value], text[3 + close.value..];
      parts, last := EveryTextIsWritten(after);
      NameIsWhole(text, close.value);
      ReferenceBefore(name, parts, last);
      parts := [Part("", name)] + parts;
    } else {
      parts, last := EveryTextIsWritten(rest);
      if parts == [] {
        NoParts(last);
        PlainBefore(text[0], last);
        last := text;
        NoParts(last);
      } else {
        PlainBeforeLiteral(text[0], parts, last);
        parts := [Part([text[0]] + parts[0].literal, parts[0].name)] + parts[1..];
      }
    }
  }

  lemma NoParts(last: string)
    ensures AreParts([]) && Written([], last) == last && HoldsNoClosed("")
  {
  }

  lemma NothingCloses(text: string)
    requires |text| >= 2 && IsReference(text, 0) && '}' !in text[2..]
    ensures HoldsNoClosed(text)
  {
    forall i | 0 <= i < |text| && IsReference(text, i)
      ensures '}' !in text[i + 2..]
    {
      assert text[i + 2..] == text[2..][i..];
    }
  }

  lemma NameIsWhole(text: string, n: nat)
    requires |text| >= 2 && IsReference(text, 0) && Find(text[2..], '}') == Some(n)
    ensures n + 3 <= |text| && '}' !in text[2..2 + n]
    ensures text == "" + ("${" + (text[2..2 + n] + ("}" + text[3 + n..])))
  {
    assert text[2 + n] == '}';
    assert text == text[..2] + (text[2..2 + n] + ([text[2 + n]] + text[3 + n..]));
    assert text[..2] == "${";
  }

  lemma ReferenceBefore(name: string, parts: seq<Part>, last: string)
    requires AreParts(parts) && '}' !in name
    ensures AreParts([Part("", name)] + parts)
    ensures Written([Part("", name)] + parts, last) == "" + ("${" + (name + ("}" + Written(parts, last))))
  {
    assert ([Part("", name)] + parts)[1..] == parts;
  }

  lemma PlainBefore(c: char, last: string)
    requires HoldsNoClosed(last) && !IsReference([c] + last, 0)
    ensures HoldsNoClosed([c] + last)
  {
    var s := [c] + last;
    forall i | 0 <= i < |s| && IsReference(s, i)
      ensures '}' !in s[i + 2..]
    {
      OneOn(c, last, i);
    }
  }

  lemma OneOn(c: char, last: string, i: nat)
    requires 0 < i <= |last| && IsReference([c] + last, i)
    ensures IsReference(last, i - 1) && ([c] + last)[i + 2..] == last[i + 1..]
  {
    var s := [c] + last;
    assert s[i] == last[i - 1] && (i < |last| ==> s[i + 1] == last[i]);
  }

  lemma PlainBeforeLiteral(c: char, parts: seq<Part>, last: string)
    requires parts != [] && AreParts(parts) && !IsReference([c] + Written(parts, last), 0)
    ensures var more := [Part([c] + parts[0].literal, parts[0].name)] + parts[1..];
            AreParts(more) && Written(more, last) == [c] + Written(parts, last)
  {
    var (literal, more) := (parts[0].literal, [Part([c] + parts[0].literal, parts[0].name)] + parts[1..]);
    assert IsPart(parts[0]);
    assert more[1..] == parts[1..];
    assert ([c] + Written(parts, last))[1] == Written(parts, last)[0];
    assert literal != "" ==> Written(parts, last)[0] == literal[0];
    NoReferenceIn([c], literal);
  }

  /** References are replaced with their values, nothing else is changed, and the first unknown name is told. */
  lemma {:induction false} SubstitutionReplaces(parts: seq<Part>, last: string, values: map<string, string>)
    requires AreParts(parts) && HoldsNoClosed(last)
    ensures var s := Substitution(Written(parts, last), values);
            && s.text == Replaced(parts, last, values)
            && (s.unknown == None <==> forall k :: 0 <= k < |parts| ==> parts[k].name in values)
            && (s.unknown.Some? ==> IsFirstUnknown(parts, values, s.unknown.value))
    decreases |parts|
  {
    if parts == [] {
      OpenIsKept(last, values);
    } else {
      var (p, rest) := (parts[0], parts[1..]);
      assert IsPart(p);
      SubstitutionReplaces(rest, last, values);
      var tail := Substitution(Written(rest, last), values);
      ReferenceIsReplaced(p.name, Written(rest, last), values);
      LiteralIsKept(p.literal, "${" + (p.name + ("}" + Written(rest, last))), values);
      hide Substitution, Written, HoldsNoReference, HoldsNoClosed;
      FirstOfParts(parts, values, tail.unknown);
    }
  }

  /** The first reference comes first. */
  lemma FirstOfParts(parts: seq<Part>, values: map<string, string>, later: Option<string>)
    requires parts != []
    requires later == None <==> forall k :: 0 <= k < |parts[1..]| ==> parts[1..][k].name in values
    requires later.Some? ==> IsFirstUnknown(parts[1..], values, later.value)
    ensures var u := FirstOf(UnknownIn(parts[0].name, values), later);
            && (u == None <==> forall k :: 0 <= k < |parts| ==> parts[k].name in values)
            && (u.Some? ==> IsFirstUnknown(parts, values, u.value))
  {
    var rest := parts[1..];
    if parts[0].name in values && later.Some? {
      var k :| 0 <= k < |rest| && rest[k].name == later.value && later.value !in values && forall j :: 0 <= j < k ==> rest[j].name in values;
      assert parts[k + 1].name == later.value;
      assert forall j :: 0 < j < k + 1 ==> parts[j] == rest[j - 1];
    } else if parts[0].name in values {
      assert forall k :: 0 < k < |parts| ==> parts[k] == rest[k - 1];
    }
  }

  /** A literal before a reference, or before nothing. */
  lemma {:induction false} LiteralIsKept(literal: string, rest: string, values: map<string, string>)
    requires HoldsNoReference(literal) && (rest == "" || rest[0] == '$')
    ensures Substitution(literal + rest, values) == Before(literal, None, Substitution(rest, values))
    decreases |literal|
  {
    hide *;
    if literal == "" {
      assert literal + rest == rest;
      BeforeNothing(Substitution(rest, values));
    } else {
      var (c, front, s) := (literal[0], literal[1..], literal + rest);
      LiteralStarts(literal, rest);
      LiteralIsKept(front, rest, values);
      PlainIsTaken(s, values);
      assert literal == [c] + front;
      BeforeTwice([c], None, front, None, Substitution(rest, values));
      NoneFirst();
    }
  }

  lemma NoneFirst()
    ensures FirstOf(None, None) == None
  {
  }

  lemma BeforeNothing(rest: Substituted)
    ensures Before("", None, rest) == rest
  {
    assert "" + rest.text == rest.text;
  }

  lemma LiteralStarts(literal: string, rest: string)
    requires HoldsNoReference(literal) && literal != "" && (rest == "" || rest[0] == '$')
    ensures var s := literal + rest; !IsReference(s, 0) && s[0] == literal[0] && s[1..] == literal[1..] + rest
    ensures HoldsNoReference(literal[1..])
  {
    var (front, s) := (literal[1..], literal + rest);
    assert forall i :: 0 <= i < |front| ==> front[i] == literal[i + 1];
    assert front != "" ==> s[1] == literal[1];
    assert front == "" && rest != "" ==> s[1] == rest[0];
  }

  lemma PlainIsTaken(s: string, values: map<string, string>)
    requires s != "" && !IsReference(s, 0)
    ensures Substitution(s, values) == Before([s[0]], None, Substitution(s[1..], values))
  {
    hide Before;
  }

  lemma ReferenceIsReplaced(name: string, rest: string, values: map<string, string>)
    requires '}' !in name
    ensures Substitution("${" + (name + ("}" + rest)), values) ==
            Before(ValueOf(name, values), UnknownIn(name, values), Substitution(rest, values))
  {
    hide Before, Find;
    ReferenceParts(name, rest);
  }

  lemma ReferenceParts(name: string, rest: string)
    requires '}' !in name
    ensures var s := "${" + (name + ("}" + rest));
            s[0] == '$' && s[1] == '{' && Find(s[2..], '}') == Some(|name|) && s[2..2 + |name|] == name && s[|name| + 3..] == rest
  {
    hide Find;
    var (s, t) := ("${" + (name + ("}" + rest)), name + ("}" + rest));
    assert s[2..] == t && s[2..2 + |name|] == t[..|name|] && s[|name| + 3..] == t[|name| + 1..];
    assert t[..|name|] == name && t[|name| + 1..] == rest;
    assert forall i :: 0 <= i < |name| ==> t[i] == name[i] && name[i] in name;
    FindIs(t, '}', |name|);
  }

  /** An unclosed reference stays as it is written. */
  lemma {:induction false} OpenIsKept(last: string, values: map<string, string>)
    requires HoldsNoClosed(last)
    ensures Substitution(last, values) == Substituted(last, None)
    decreases |last|
  {
    if last != "" {
      if IsReference(last, 0) {
        assert Find(last[2..], '}') == None;
      } else {
        var rest := last[1..];
        forall i | 0 <= i < |rest| && IsReference(rest, i)
          ensures '}' !in rest[i + 2..]
        {
          assert IsReference(last, i + 1) && rest[i + 2..] == last[i + 3..];
        }
        OpenIsKept(rest, values);
        assert last == [last[0]] + rest;
      }
    }
  }

  // ---- Tokens -------------------------------------------------------------------------------------------------

  /** A token with the blanks before it, bare or in quotes. */
  datatype Word = Word(blanks: string, quote: Option<char>, token: string)
  {
    function Text(): string
    {
      blanks + match quote
               case None => token
               case Some(q) => [q] + token + [q]
    }
  }

  ghost predicate AllBlank(s: string)
  {
    forall i :: 0 <= i < |s| ==> IsBlank(s[i])
  }

  ghost predicate IsWord(w: Word)
  {
    AllBlank(w.blanks) && match w.quote
                          case Some(q) => IsQuote(q) && q !in w.token
                          case None => w.token != "" && !IsQuote(w.token[0]) && forall i :: 0 <= i < |w.token| ==> !IsBlank(w.token[i])
  }

  /** Words with blanks between them, and blanks after. */
  ghost predicate AreWords(ws: seq<Word>, last: string)
  {
    && AllBlank(last) && (forall i :: 0 <= i < |ws| ==> IsWord(ws[i]))
    && forall i :: 0 < i < |ws| ==> ws[i].blanks != ""
  }

  function WordsText(ws: seq<Word>, last: string): string
  {
    if ws == [] then last else ws[0].Text() + WordsText(ws[1..], last)
  }

  function WordsTokens(ws: seq<Word>): seq<string>
  {
    if ws == [] then [] else [ws[0].token] + WordsTokens(ws[1..])
  }

  /** Words, bare and quoted, are split into their tokens. */
  lemma {:induction false} WordsSplit(ws: seq<Word>, last: string)
    requires AreWords(ws, last)
    ensures SplitOf(WordsText(ws, last)) == Tokens(WordsTokens(ws))
    decreases |ws|
  {
    if ws == [] {
      BlanksSplit(last, "");
      assert last + "" == last;
    } else {
      var (w, rest) := (ws[0], WordsText(ws[1..], last));
      assert forall i :: 0 <= i < |ws[1..]| ==> ws[1..][i] == ws[i + 1];
      WordsSplit(ws[1..], last);
      StartsBlank(ws[1..], last);
      assert IsWord(w);
      hide SplitOf, AreWords, IsWord, WordsTokens;
      OneWordSplits(w, rest);
    }
  }

  lemma StartsBlank(ws: seq<Word>, last: string)
    requires AreWords(ws, last) && (ws != [] ==> ws[0].blanks != "")
    ensures WordsText(ws, last) == "" || IsBlank(WordsText(ws, last)[0])
  {
    if ws != [] {
      assert IsWord(ws[0]) && WordsText(ws, last)[0] == ws[0].blanks[0];
    }
  }

  lemma {:induction false} BlanksSplit(blanks: string, rest: string)
    requires AllBlank(blanks)
    ensures SplitOf(blanks + rest) == SplitOf(rest)
    decreases |blanks|
  {
    if blanks == "" {
      assert blanks + rest == rest;
    } else {
      assert (blanks + rest)[1..] == blanks[1..] + rest && IsBlank((blanks + rest)[0]);
      BlanksSplit(blanks[1..], rest);
    }
  }

  lemma OneWordSplits(w: Word, rest: string)
    requires IsWord(w) && (rest == "" || IsBlank(rest[0]))
    ensures SplitOf(w.Text() + rest) == WithFirst(w.token, SplitOf(rest))
  {
    match w.quote
    case None =>
      assert w.Text() + rest == w.blanks + (w.token + rest);
      BlanksSplit(w.blanks, w.token + rest);
      BareSplits(w.token, rest);
    case Some(q) =>
      assert w.Text() + rest == w.blanks + ([q] + w.token + [q] + rest);
      BlanksSplit(w.blanks, [q] + w.token + [q] + rest);
      InQuotesSplits(q, w.token, rest);
  }

  lemma BareSplits(token: string, rest: string)
    requires token != "" && !IsQuote(token[0]) && (forall i :: 0 <= i < |token| ==> !IsBlank(token[i]))
    requires rest == "" || IsBlank(rest[0])
    ensures SplitOf(token + rest) == WithFirst(token, SplitOf(rest))
  {
    var s := token + rest;
    TokenRunIs(s, |token|);
    assert s[0] == token[0] && s[..|token|] == token && s[|token|..] == rest;
    hide TokenRun, WithFirst;
  }

  lemma InQuotesSplits(q: char, token: string, rest: string)
    requires IsQuote(q) && q !in token && (rest == "" || IsBlank(rest[0]))
    ensures SplitOf([q] + token + [q] + rest) == WithFirst(token, SplitOf(rest))
  {
    hide Find, WithFirst;
    QuotedParts(q, token, rest);
    var s := [q] + token + [q] + rest;
    assert rest != "" ==> s[|token| + 2] == rest[0];
  }

  lemma QuotedParts(q: char, token: string, rest: string)
    requires q !in token
    ensures var s := [q] + token + [q] + rest;
            s[0] == q && Find(s[1..], q) == Some(|token|) && s[1..|token| + 1] == token && s[|token| + 2..] == rest
  {
    hide Find;
    var s := [q] + token + [q] + rest;
    assert s[1..] == token + [q] + rest;
    assert forall i :: 0 <= i < |token| ==> s[1..][i] == token[i] && token[i] in token;
    FindIs(s[1..], q, |token|);
  }

  /** A text that has tokens is words with blanks between them. */
  lemma {:induction false} TokensAreWords(s: string) returns (ws: seq<Word>, last: string)
    requires SplitOf(s).Tokens?
    ensures AreWords(ws, last) && WordsText(ws, last) == s && WordsTokens(ws) == SplitOf(s).tokens
    decreases |s|
  {
    if s == "" {
      return [], "";
    }
    if IsBlank(s[0]) {
      ws, last := TokensAreWords(s[1..]);
      assert s == [s[0]] + s[1..];
      hide SplitOf;
      if ws == [] {
        last := [s[0]] + last;
      } else {
        BlankBefore(s[0], ws, last);
        ws := [ws[0].(blanks := [s[0]] + ws[0].blanks)] + ws[1..];
      }
    } else if IsQuote(s[0]) {
      var n := Find(s[1..], s[0]).value;
      var (w, rest) := (Word("", Some(s[0]), s[1..n + 1]), s[n + 2..]);
      QuotedWordIs(s, n);
      ws, last := TokensAreWords(rest);
      hide SplitOf;
      WordBefore(w, ws, last);
      ws := [w] + ws;
    } else {
      var n := TokenRun(s);
      var (w, rest) := (Word("", None, s[..n]), s[n..]);
      BareWordIs(s, n);
      ws, last := TokensAreWords(rest);
      hide SplitOf;
      WordBefore(w, ws, last);
      ws := [w] + ws;
    }
  }

  /** A text has these tokens exactly when it is words with these tokens and blanks between them. */
  lemma SplitsAsWords(s: string, ts: seq<string>)
    ensures SplitOf(s) == Tokens(ts) <==>
            exists ws, last :: AreWords(ws, last) && WordsText(ws, last) == s && WordsTokens(ws) == ts
  {
    hide *;
    if SplitOf(s) == Tokens(ts) {
      var ws, last := TokensAreWords(s);
    }
    forall ws, last | AreWords(ws, last) && WordsText(ws, last) == s && WordsTokens(ws) == ts
      ensures SplitOf(s) == Tokens(ts)
    {
      WordsSplit(ws, last);
    }
  }

  lemma QuotedWordIs(s: string, n: nat)
    requires s != "" && IsQuote(s[0]) && Find(s[1..], s[0]) == Some(n)
    ensures IsWord(Word("", Some(s[0]), s[1..n + 1])) && s == Word("", Some(s[0]), s[1..n + 1]).Text() + s[n + 2..]
  {
    hide Find;
    var (q, token) := (s[0], s[1..n + 1]);
    UpToQuote(s, n);
    QuotedText(q, token);
    assert s == [q] + token + [q] + s[n + 2..];
  }

  lemma UpToQuote(s: string, n: nat)
    requires s != "" && Find(s[1..], s[0]) == Some(n)
    ensures n + 1 < |s| && s[n + 1] == s[0] && s[0] !in s[1..n + 1]
  {
    hide Find;
    assert s[1..n + 1] == s[1..][..n];
  }

  lemma QuotedText(q: char, token: string)
    ensures Word("", Some(q), token).Text() == [q] + token + [q]
  {
  }

  lemma BareWordIs(s: string, n: nat)
    requires s != "" && !IsBlank(s[0]) && !IsQuote(s[0]) && n == TokenRun(s)
    ensures n > 0 && IsWord(Word("", None, s[..n])) && s == Word("", None, s[..n]).Text() + s[n..]
  {
    hide TokenRun;
    var token := s[..n];
    assert "" + token == token && s == token + s[n..];
  }

  lemma BlankBefore(c: char, ws: seq<Word>, last: string)
    requires IsBlank(c) && ws != [] && AreWords(ws, last)
    ensures var more := [ws[0].(blanks := [c] + ws[0].blanks)] + ws[1..];
            AreWords(more, last) && WordsText(more, last) == [c] + WordsText(ws, last) && WordsTokens(more) == WordsTokens(ws)
  {
    var w := ws[0].(blanks := [c] + ws[0].blanks);
    var more := [w] + ws[1..];
    assert IsWord(ws[0]) && IsWord(w);
    assert forall i :: 1 <= i < |ws| ==> more[i] == ws[i];
    assert more[1..] == ws[1..] && w.Text() == [c] + ws[0].Text();
  }

  lemma WordBefore(w: Word, ws: seq<Word>, last: string)
    requires IsWord(w) && AreWords(ws, last)
    requires WordsText(ws, last) == "" || IsBlank(WordsText(ws, last)[0])
    ensures AreWords([w] + ws, last) && WordsText([w] + ws, last) == w.Text() + WordsText(ws, last)
    ensures WordsTokens([w] + ws) == [w.token] + WordsTokens(ws)
  {
    assert ([w] + ws)[1..] == ws;
    if ws != [] {
      assert IsWord(ws[0]);
      if ws[0].blanks == "" {
        FirstIsNotBlank(ws[0], WordsText(ws[1..], last));
      }
    }
  }

  lemma FirstIsNotBlank(w: Word, rest: string)
    requires IsWord(w) && w.blanks == ""
    ensures w.Text() + rest != "" && !IsBlank((w.Text() + rest)[0])
  {
  }

  // ---- Broken quotes ------------------------------------------------------------------------------------------

  /** The characters that part tokens, quote them, and are trimmed from a line. */
  lemma ClassesAre(c: char)
    ensures IsBlank(c) <==> c == ' ' || c == '\t'
    ensures IsQuote(c) <==> c == '\'' || c == '"'
    ensures IsTrimmed(c) <==> c == ' ' || c == '\t' || c == '\r' || c == '\n'
  {
  }

  lemma {:induction false} FailureStands(ws: seq<Word>, last: string, t: string)
    requires AreWords(ws, last) && (ws != [] ==> last != "") && t != "" && !SplitOf(t).Tokens?
    ensures SplitOf(WordsText(ws, last) + t) == SplitOf(t)
    decreases |ws|
  {
    hide *;
    if ws == [] {
      NoWordsText(last);
      BlanksSplit(last, t);
    } else {
      var (w, rest) := (ws[0], WordsText(ws[1..], last));
      TailIs(ws, last);
      FailureStands(ws[1..], last, t);
      StartsBlank(ws[1..], last);
      NotEmptyAfter(ws[1..], last);
      assert w.Text() + rest + t == w.Text() + (rest + t);
      assert (rest + t)[0] == rest[0];
      OneWordSplits(w, rest + t);
      NotFirst(w.token, SplitOf(rest + t));
    }
  }

  lemma NotFirst(token: string, rest: Split)
    ensures !rest.Tokens? ==> WithFirst(token, rest) == rest
  {
  }

  lemma NoWordsText(last: string)
    ensures WordsText([], last) == last && (AreWords([], last) ==> AllBlank(last))
  {
  }

  lemma TailIs(ws: seq<Word>, last: string)
    requires AreWords(ws, last) && ws != []
    ensures IsWord(ws[0]) && AreWords(ws[1..], last) && (ws[1..] != [] ==> ws[1..][0].blanks != "")
    ensures WordsText(ws, last) == ws[0].Text() + WordsText(ws[1..], last)
  {
    hide IsWord;
    assert forall i :: 0 <= i < |ws[1..]| ==> ws[1..][i] == ws[i + 1];
  }

  lemma NotEmptyAfter(ws: seq<Word>, last: string)
    requires AreWords(ws, last) && last != ""
    ensures WordsText(ws, last) != ""
  {
    if ws != [] {
      assert IsWord(ws[0]);
    }
  }

  /** A quote that starts the text and is never closed, or closed with text right after it. */
  ghost predicate IsBroken(t: string)
  {
    && t != "" && (t[0] == '\'' || t[0] == '"')
    && forall n :: 1 <= n < |t| && t[n] == t[0] && t[0] !in t[1..n] ==> n + 1 < |t| && t[n + 1] != ' ' && t[n + 1] != '\t'
  }

  lemma BrokenFails(t: string)
    requires IsBroken(t)
    ensures SplitOf(t) == if t[0] in t[1..] then TextAfterQuote(t) else Unterminated(t)
  {
    if Find(t[1..], t[0]).Some? {
      UpToQuote(t, Find(t[1..], t[0]).value);
    }
  }

  lemma QuoteFails(s: string)
    requires s != "" && IsQuote(s[0])
    requires Find(s[1..], s[0]).Some? ==> Find(s[1..], s[0]).value + 2 < |s| && !IsBlank(s[Find(s[1..], s[0]).value + 2])
    ensures IsBroken(s)
  {
    forall n | 1 <= n < |s| && s[n] == s[0] && s[0] !in s[1..n]
      ensures n + 1 < |s| && !IsBlank(s[n + 1])
    {
      var rest := s[1..];
      assert forall i :: 0 <= i < n - 1 ==> rest[i] == s[1..n][i];
      FindIs(rest, s[0], n - 1);
    }
  }

  /** Every text without tokens is words, blanks, and then a broken quote, whose text and kind are told. */
  lemma {:induction false} FailuresAreBroken(s: string) returns (ws: seq<Word>, last: string, t: string)
    requires !SplitOf(s).Tokens?
    ensures AreWords(ws, last) && (ws != [] ==> last != "") && s == WordsText(ws, last) + t
    ensures IsBroken(t) && SplitOf(s) == SplitOf(t)
    decreases |s|
  {
    if IsBlank(s[0]) {
      ws, last, t := FailuresAreBroken(s[1..]);
      BlankInFront(s, ws, last, t);
      hide *;
      if ws == [] {
        last := [s[0]] + last;
      } else {
        ws := [ws[0].(blanks := [s[0]] + ws[0].blanks)] + ws[1..];
      }
    } else if IsQuote(s[0]) {
      var close := Find(s[1..], s[0]);
      if close == None || (close.value + 2 < |s| && !IsBlank(s[close.value + 2])) {
        QuoteFails(s);
        return [], "", s;
      }
      QuotedWordIs(s, close.value);
      ws, last, t := FailuresAreBroken(s[close.value + 2..]);
      ws := WordInFront(s, Word("", Some(s[0]), s[1..close.value + 1]), ws, last, s[close.value + 2..], t);
    } else {
      var n := TokenRun(s);
      BareWordIs(s, n);
      ws, last, t := FailuresAreBroken(s[n..]);
      ws := WordInFront(s, Word("", None, s[..n]), ws, last, s[n..], t);
    }
  }

  lemma BlankInFront(s: string, ws: seq<Word>, last: string, t: string)
    requires s != "" && IsBlank(s[0]) && AreWords(ws, last) && s[1..] == WordsText(ws, last) + t
    ensures SplitOf(s) == SplitOf(s[1..])
    ensures if ws == [] then AreWords([], [s[0]] + last) && s == WordsText([], [s[0]] + last) + t && [s[0]] + last != ""
            else
              var more := [ws[0].(blanks := [s[0]] + ws[0].blanks)] + ws[1..];
              AreWords(more, last) && s == WordsText(more, last) + t
  {
    assert s == [s[0]] + s[1..];
    hide SplitOf;
    if ws != [] {
      BlankBefore(s[0], ws, last);
      hide *;
      assert [s[0]] + (WordsText(ws, last) + t) == [s[0]] + WordsText(ws, last) + t;
    } else {
      assert [s[0]] + (last + t) == [s[0]] + last + t;
    }
  }

  lemma WordInFront(s: string, w: Word, ws: seq<Word>, last: string, rest: string, t: string) returns (more: seq<Word>)
    requires IsWord(w) && s == w.Text() + rest && AreWords(ws, last) && (ws != [] ==> last != "") && IsBroken(t)
    requires rest != "" && IsBlank(rest[0]) && rest == WordsText(ws, last) + t && SplitOf(rest) == SplitOf(t) && !SplitOf(rest).Tokens?
    ensures AreWords(more, last) && last != "" && s == WordsText(more, last) + t && SplitOf(s) == SplitOf(t)
  {
    hide *;
    more := [w] + ws;
    var text := WordsText(ws, last);
    BlanksBeforeQuote(ws, last, t, rest);
    OneWordSplits(w, rest);
    NotFirst(w.token, SplitOf(rest));
    WordBefore(w, ws, last);
    assert w.Text() + (text + t) == w.Text() + text + t;
  }

  lemma BlanksBeforeQuote(ws: seq<Word>, last: string, t: string, rest: string)
    requires (ws != [] ==> last != "") && IsBroken(t) && rest == WordsText(ws, last) + t && rest != "" && IsBlank(rest[0])
    ensures last != "" && (WordsText(ws, last) == "" || IsBlank(WordsText(ws, last)[0]))
  {
    var text := WordsText(ws, last);
    assert IsQuote(t[0]) && !IsBlank(t[0]);
    hide IsBroken, IsQuote, IsBlank;
    assert text == "" ==> rest == t;
    assert ws == [] ==> text == last;
  }

  /** A line has no tokens exactly when it is words, blanks, and then a broken quote. */
  lemma SplitFailsAtBrokenQuotes(s: string)
    ensures !SplitOf(s).Tokens? <==>
            exists ws, last, t :: AreWords(ws, last) && (ws != [] ==> last != "") && IsBroken(t) && s == WordsText(ws, last) + t
    ensures forall ws, last, t ::
              AreWords(ws, last) && (ws != [] ==> last != "") && IsBroken(t) && s == WordsText(ws, last) + t ==>
              SplitOf(s) == if t[0] in t[1..] then TextAfterQuote(t) else Unterminated(t)
  {
    hide *;
    if !SplitOf(s).Tokens? {
      var ws, last, t := FailuresAreBroken(s);
    }
    forall ws, last, t | AreWords(ws, last) && (ws != [] ==> last != "") && IsBroken(t) && s == WordsText(ws, last) + t
      ensures t != "" && SplitOf(s) == if t[0] in t[1..] then TextAfterQuote(t) else Unterminated(t)
    {
      BrokenIsSome(t);
      BrokenFails(t);
      FailureStands(ws, last, t);
    }
  }

  lemma BrokenIsSome(t: string)
    ensures IsBroken(t) ==> t != ""
  {
  }

  // ---- Trimming -----------------------------------------------------------------------------------------------

  ghost predicate AllTrimmed(s: string)
  {
    forall i :: 0 <= i < |s| ==> s[i] == ' ' || s[i] == '\t' || s[i] == '\r' || s[i] == '\n'
  }

  lemma {:induction false} LeftTrimmed(a: string, s: string)
    requires AllTrimmed(a) && (s == "" || !IsTrimmed(s[0]))
    ensures TrimLeft(a + s) == s
  {
    if a == "" {
      assert a + s == s;
    } else {
      assert (a + s)[1..] == a[1..] + s;
      LeftTrimmed(a[1..], s);
    }
  }

  lemma {:induction false} RightTrimmed(s: string, b: string)
    requires AllTrimmed(b) && (s == "" || !IsTrimmed(s[|s| - 1]))
    ensures TrimRight(s + b) == s
    decreases |b|
  {
    if b == "" {
      assert s + b == s;
    } else {
      assert (s + b)[..|s + b| - 1] == s + b[..|b| - 1];
      RightTrimmed(s, b[..|b| - 1]);
    }
  }

  /** Trimming takes the white space off both ends, and nothing else. */
  lemma TrimTakesBothEnds(a: string, s: string, b: string)
    requires AllTrimmed(a) && AllTrimmed(b) && (s != "" ==> !AllTrimmed(s[..1]) && !AllTrimmed(s[|s| - 1..]))
    ensures Trim(a + s + b) == s
  {
    hide TrimLeft, TrimRight;
    if s == "" {
      assert a + s + b == (a + b) + "" && AllTrimmed(a + b);
      LeftTrimmed(a + b, "");
      RightTrimmed("", "");
      assert "" + "" == "";
    } else {
      assert s[..1] == [s[0]] && s[|s| - 1..] == [s[|s| - 1]];
      assert a + s + b == a + (s + b) && (s + b)[0] == s[0];
      LeftTrimmed(a, s + b);
      RightTrimmed(s, b);
    }
  }
}
