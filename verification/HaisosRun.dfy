/**
 The RUN directive of a haisosfile and the order its directives must come in
 (src/haisos/HaisosFileParser.cpp:259-283, 444-483).
 */
module HaisosRun {
  import opened Basics
  import opened HaisosTokens

  // ---- RUN --------------------------------------------------------------------------------------------------

  datatype RunEntry = RunEntry(interactive: bool, programPath: string, args: seq<string>)

  datatype RunResult = Run(entry: RunEntry) | NoProgram | NotAbsolute(path: string) | UnknownName(name: string) | BadQuotes(split: Split)

  /** The word a line starts with, and what comes after the blank behind it. */
  function KeyOf(line: string): string
  {
    line[..TokenRun(line)]
  }

  function RestOf(line: string): string
  {
    if TokenRun(line) == |line| then "" else Trim(line[TokenRun(line) + 1..])
  }

  function EntryOf(tokens: seq<string>): RunResult
  {
    var interactive := tokens != [] && tokens[0] == "-i";
    var left := if interactive then tokens[1..] else tokens;
    if left == [] then NoProgram
    else if left[0] == "" || left[0][0] != '/' then NotAbsolute(left[0])
    else Run(RunEntry(interactive, left[0], left[1..]))
  }

  function RunOf(rest: string, values: map<string, string>): RunResult
  {
    if rest == "" then NoProgram
    else
      var substituted := Substitution(rest, values);
      if substituted.unknown.Some? then UnknownName(substituted.unknown.value)
      else
        var split := SplitOf(substituted.text);
        if split.Tokens? then EntryOf(split.tokens) else BadQuotes(split)
  }

  /** The RUN branch of ParseHaisosFile. */
  method ParseRun(rest: string, values: map<string, string>) returns (r: RunResult)
    ensures r == RunOf(rest, values)
    ensures r.Run? ==> r.entry.programPath != "" && r.entry.programPath[0] == '/'
  {
    if rest == "" {
      return NoProgram;
    }
    var text, unknown := Substitute(rest, values);
    if unknown.Some? {
      return UnknownName(unknown.value);
    }
    var split := SplitTokens(text);
    if !split.Tokens? {
      return BadQuotes(split);
    }
    var tokens, interactive := split.tokens, false;
    if tokens != [] && tokens[0] == "-i" {
      interactive := true;
      tokens := tokens[1..];
    }
    if tokens == [] {
      return NoProgram;
    }
    if tokens[0] == "" || tokens[0][0] != '/' {
      return NotAbsolute(tokens[0]);
    }
    r := Run(RunEntry(interactive, tokens[0], tokens[1..]));
  }

  // ---- Round trip -------------------------------------------------------------------------------------------

  lemma {:induction false} WordIsKept(starts: bool, word: string, rest: string)
    requires forall i :: 0 <= i < |word| ==> !IsBlank(word[i])
    requires starts && word != "" ==> !IsQuote(word[0]) && word[0] != '#'
    ensures Stripped(starts, word + (" " + rest)) == word + (" " + Stripped(true, rest))
    decreases |word|
  {
    hide Stripped, IsBlank, IsQuote;
    if word == "" {
      assert word + (" " + rest) == " " + rest;
      BlankIsKept(starts, rest);
    } else {
      var (s, c, front) := (word + (" " + rest), word[0], word[1..]);
      assert s[0] == c && s[1..] == front + (" " + rest) && word == [c] + front;
      PlainIsKept(starts, s);
      WordIsKept(false, front, rest);
    }
  }

  lemma PlainIsKept(starts: bool, s: string)
    requires s != "" && (starts ==> !IsQuote(s[0]) && s[0] != '#')
    ensures Stripped(starts, s) == [s[0]] + Stripped(IsBlank(s[0]), s[1..])
  {
  }

  lemma {:induction false} WordRun(word: string, rest: string)
    requires forall i :: 0 <= i < |word| ==> !IsBlank(word[i])
    ensures TokenRun(word + (" " + rest)) == |word|
  {
    TokenRunIs(word + (" " + rest), |word|);
  }

  /** What neither starts nor ends in white space is not trimmed, nor a blank behind it kept. */
  lemma TrimIs(s: string)
    requires s != "" && !IsTrimmed(s[0]) && !IsTrimmed(s[|s| - 1])
    ensures Trim(s) == s && Trim(s + " ") == s
  {
    assert (s + " ")[..|s|] == s && (s + " ")[0] == s[0];
    assert TrimLeft(s + " ") == s + " ";
    assert TrimRight(s + " ") == TrimRight(s);
  }

  function Flag(interactive: bool): string
  {
    if interactive then "-i " else ""
  }

  /** A RUN line as it would be written: the option bare, the program and its arguments in quotes. */
  function RunText(interactive: bool, ts: seq<QuotedToken>): string
  {
    "RUN " + (Flag(interactive) + Joined(ts))
  }

  lemma FlagIsKept(interactive: bool, rest: string)
    ensures Stripped(true, Flag(interactive) + rest) == Flag(interactive) + Stripped(true, rest)
  {
    if interactive {
      WordIsKept(true, "-i", rest);
      assert "-i" + (" " + rest) == "-i " + rest && "-i" + (" " + Stripped(true, rest)) == "-i " + Stripped(true, rest);
    } else {
      assert "" + rest == rest && "" + Stripped(true, rest) == Stripped(true, rest);
    }
  }

  lemma Regrouped(o: string, j: string, c: string)
    ensures "RUN " + (o + j) + c == "RUN" + (" " + (o + (j + c)))
    ensures "RUN" + (" " + (o + (j + c))) == "RUN " + (o + (j + c))
  {
    assert "RUN " == "RUN" + " ";
    Regroup("RUN", " ", o + j, c);
    assert o + j + c == o + (j + c);
  }

  lemma LastOf(a: string, b: string)
    requires b != ""
    ensures a + b != "" && (a + b)[|a + b| - 1] == b[|b| - 1]
    ensures a != "" ==> (a + b)[0] == a[0]
    ensures a == "" ==> a + b == b
  {
  }

  /** The text of a line, or of its part behind the word: not blank at either end. */
  lemma RunEnds(interactive: bool, ts: seq<QuotedToken>)
    requires AllValid(ts) && ts != []
    ensures var rest := Flag(interactive) + Joined(ts);
            rest != "" && !IsTrimmed(rest[0]) && !IsTrimmed(rest[|rest| - 1])
    ensures var text := RunText(interactive, ts);
            text != "" && !IsTrimmed(text[0]) && !IsTrimmed(text[|text| - 1])
  {
    hide Joined, Flag, AllValid, IsTrimmed, IsQuote;
    JoinedIsQuoted(ts);
    QuotesAreKept(Joined(ts)[0]);
    QuotesAreKept(Joined(ts)[|Joined(ts)| - 1]);
    FlagStarts(interactive);
    LastOf(Flag(interactive), Joined(ts));
    LastOf("RUN ", Flag(interactive) + Joined(ts));
  }

  lemma QuotesAreKept(c: char)
    ensures IsQuote(c) ==> !IsTrimmed(c)
  {
  }

  lemma FlagStarts(interactive: bool)
    ensures Flag(interactive) == "" || !IsTrimmed(Flag(interactive)[0])
    ensures !IsTrimmed("RUN "[0])
  {
  }

  lemma CommentOfRunGoes(interactive: bool, ts: seq<QuotedToken>, comment: string)
    requires AllValid(ts) && ts != []
    ensures Trim(Stripped(true, RunText(interactive, ts) + (" #" + comment))) == RunText(interactive, ts)
  {
    hide Stripped, Joined, Flag, Trim, AllValid, IsTrimmed, IsBlank, IsQuote;
    var (o, j, c) := (Flag(interactive), Joined(ts), " #" + comment);
    CommentGoes(ts, comment);
    RunEnds(interactive, ts);
    FlagIsKept(interactive, j + c);
    RunIsKept(o + (j + c));
    Regrouped(o, j, c);
    Regrouped(o, j, " ");
    TrimIs(RunText(interactive, ts));
  }

  lemma RunIsKept(rest: string)
    ensures Stripped(true, "RUN" + (" " + rest)) == "RUN" + (" " + Stripped(true, rest))
  {
    WordIsKept(true, "RUN", rest);
  }

  lemma FlagSplits(rest: string)
    ensures SplitOf("-i" + (" " + rest)) == WithFirst("-i", SplitOf(rest))
  {
    var s := "-i" + (" " + rest);
    WordRun("-i", rest);
    assert s[..2] == "-i" && s[2..] == " " + rest && s[0] == '-';
    BlankSplits(rest);
    hide TokenRun;
  }

  lemma BlankSplits(rest: string)
    ensures SplitOf(" " + rest) == SplitOf(rest)
  {
    assert (" " + rest)[1..] == rest;
  }

  lemma SplitsOfFlag(interactive: bool, ts: seq<QuotedToken>)
    requires AllValid(ts) && ts != []
    ensures SplitOf(Flag(interactive) + Joined(ts)) ==
            Tokens((if interactive then ["-i"] else []) + TokensOf(ts))
  {
    hide *;
    JoinedSplits(ts);
    FlagText(interactive, Joined(ts));
    if interactive {
      FlagSplits(Joined(ts));
      WithFirstOf("-i", TokensOf(ts));
    } else {
      assert [] + TokensOf(ts) == TokensOf(ts);
    }
  }

  lemma FlagText(interactive: bool, rest: string)
    ensures Flag(interactive) + rest == if interactive then "-i" + (" " + rest) else rest
  {
    assert "-i " + rest == "-i" + (" " + rest);
  }

  lemma WithFirstOf(token: string, tokens: seq<string>)
    ensures WithFirst(token, Tokens(tokens)) == Tokens([token] + tokens)
  {
  }

  /** A program and its arguments written as a RUN line, with any comment after, are the entry read back. */
  lemma RunReadsBack(interactive: bool, ts: seq<QuotedToken>, comment: string, values: map<string, string>)
    requires AllValid(ts) && ts != [] && ts[0].token != "" && ts[0].token[0] == '/'
    ensures var line := Trim(Stripped(true, RunText(interactive, ts) + (" #" + comment)));
            KeyOf(line) == "RUN"
            && RunOf(RestOf(line), values) == Run(RunEntry(interactive, ts[0].token, TokensOf(ts[1..])))
  {
    CommentOfRunGoes(interactive, ts, comment);
    hide Stripped;
    RunLineIs(interactive, ts);
    RestReadsBack(interactive, ts, values);
  }

  lemma RunLineIs(interactive: bool, ts: seq<QuotedToken>)
    requires AllValid(ts) && ts != []
    ensures KeyOf(RunText(interactive, ts)) == "RUN" && RestOf(RunText(interactive, ts)) == Flag(interactive) + Joined(ts)
  {
    hide Joined, Flag, Trim, TokenRun, AllValid, IsTrimmed;
    var rest := Flag(interactive) + Joined(ts);
    RunEnds(interactive, ts);
    TrimIs(rest);
    AfterWord(rest);
  }

  lemma AfterWord(rest: string)
    ensures var line := "RUN " + rest;
            TokenRun(line) == 3 && |line| > 3 && line[..3] == "RUN" && line[4..] == rest
  {
    hide TokenRun;
    assert "RUN " + rest == "RUN" + (" " + rest);
    WordRun("RUN", rest);
  }

  lemma RestReadsBack(interactive: bool, ts: seq<QuotedToken>, values: map<string, string>)
    requires AllValid(ts) && ts != [] && ts[0].token != "" && ts[0].token[0] == '/'
    ensures RunOf(Flag(interactive) + Joined(ts), values) ==
            Run(RunEntry(interactive, ts[0].token, TokensOf(ts[1..])))
  {
    RunEnds(interactive, ts);
    JoinedHoldsNoReference(ts);
    JoinedIsQuoted(ts);
    NoReferenceIn(Flag(interactive), Joined(ts));
    assert TokensOf(ts) == [ts[0].token] + TokensOf(ts[1..]);
    SplitsOfFlag(interactive, ts);
    hide Joined, Flag, SplitOf, TokensOf, HoldsNoReference;
    NothingSubstituted(Flag(interactive) + Joined(ts), values);
    EntryIs(interactive, ts[0].token, TokensOf(ts[1..]));
  }

  lemma EntryIs(interactive: bool, program: string, args: seq<string>)
    requires program != "" && program[0] == '/'
    ensures EntryOf((if interactive then ["-i"] else []) + ([program] + args)) == Run(RunEntry(interactive, program, args))
  {
    if interactive {
      assert (["-i"] + ([program] + args))[1..] == [program] + args;
    } else {
      assert [] + ([program] + args) == [program] + args;
    }
    assert ([program] + args)[1..] == args;
  }

  // ---- What a RUN line can come to ----------------------------------------------------------------------------

  /** A word, one blank and the rest, whose ends are trimmed. */
  lemma KeyAndRest(word: string, blank: char, rest: string)
    requires (blank == ' ' || blank == '\t') && forall i :: 0 <= i < |word| ==> word[i] != ' ' && word[i] != '\t'
    ensures KeyOf(word + [blank] + rest) == word && RestOf(word + [blank] + rest) == Trim(rest)
    ensures KeyOf(word) == word && RestOf(word) == ""
  {
    var line := word + [blank] + rest;
    assert line[|word|] == blank && line[..|word|] == word && line[|word| + 1..] == rest && word[..|word|] == word;
    TokenRunIs(line, |word|);
    TokenRunIs(word, |word|);
    hide TokenRun, Trim;
  }

  /**
   A RUN line's text is substituted and split, a first token -i is the option, and the token after it the program,
   which must start with a '/'. Each way to fail is told in this order.
   */
  lemma RunIs(rest: string, values: map<string, string>, interactive: bool, left: seq<string>)
    ensures rest == "" ==> RunOf(rest, values) == NoProgram
    ensures var s := Substitution(rest, values);
            rest != "" ==>
              && (s.unknown.Some? ==> RunOf(rest, values) == UnknownName(s.unknown.value))
              && (s.unknown.None? && !SplitOf(s.text).Tokens? ==> RunOf(rest, values) == BadQuotes(SplitOf(s.text)))
              && (s.unknown.None? && SplitOf(s.text) == Tokens((if interactive then ["-i"] else []) + left)
                  && (left != [] && left[0] == "-i" ==> interactive) ==>
                    RunOf(rest, values) ==
                      if left == [] then NoProgram
                      else if left[0] == "" || left[0][0] != '/' then NotAbsolute(left[0])
                      else Run(RunEntry(interactive, left[0], left[1..])))
  {
    hide Substitution, SplitOf;
    assert [] + left == left;
    assert (["-i"] + left)[1..] == left;
  }

  // ---- Order ------------------------------------------------------------------------------------------------

  /** ROOT, FS and MOUNT; the file directives, of which OUTCOPY is one; RUN; and those that may stand anywhere. */
  datatype Directive = FileSystemDirective | FileDirective | OutCopy | RunDirective | OtherDirective

  /** The first must not come before the second. */
  predicate Forbids(first: Directive, second: Directive)
  {
    || ((first.FileDirective? || first.OutCopy?) && second.FileSystemDirective?)
    || (first.RunDirective? && second.FileDirective?)
  }

  predicate IsForbidden(directives: seq<Directive>, j: nat)
    requires j < |directives|
  {
    exists i :: 0 <= i < j && Forbids(directives[i], directives[j])
  }

  /** The ordering checks of ParseHaisosFile's loop: the first directive that is out of order. */
  method CheckOrder(directives: seq<Directive>) returns (outOfOrder: Option<nat>)
    ensures outOfOrder.None? ==> forall j :: 0 <= j < |directives| ==> !IsForbidden(directives, j)
    ensures outOfOrder.Some? ==>
              outOfOrder.value < |directives| && IsForbidden(directives, outOfOrder.value)
              && forall j :: 0 <= j < outOfOrder.value ==> !IsForbidden(directives, j)
  {
    var sawFile, sawRun := false, false;
    for n := 0 to |directives|
      invariant sawFile <==> exists i :: 0 <= i < n && (directives[i].FileDirective? || directives[i].OutCopy?)
      invariant sawRun <==> exists i :: 0 <= i < n && directives[i].RunDirective?
      invariant forall j :: 0 <= j < n ==> !IsForbidden(directives, j)
    {
      var d := directives[n];
      if d.FileSystemDirective? && sawFile {
        return Some(n);
      }
      if d.FileDirective? || d.OutCopy? {
        if !d.OutCopy? && sawRun {
          return Some(n);
        }
        sawFile := true;
      }
      if d.RunDirective? {
        sawRun := true;
      }
    }
    outOfOrder := None;
  }
}
