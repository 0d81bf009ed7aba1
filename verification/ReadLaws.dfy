/**
 What the `read` builtin makes of backslashes, words and delimiters
 (src/components/BuiltinCommands/commands/hsh/HshBuiltinRead.cpp:80-172).
 */
module ReadLaws {
  import opened ReadBuiltin

  // ---- Backslashes ----------------------------------------------------------------------------

  /** A backslash that none protects protects the byte, unless -r is given. */
  predicate Protected(line: string, i: nat, raw: bool)
    requires i <= |line|
  {
    !raw && BackslashesBefore(line, i) % 2 == 1
  }

  /** Whether the byte stays: a protected newline does not, nor does a backslash that protects. */
  predicate Stays(line: string, i: nat, raw: bool)
    requires i < |line|
  {
    if Protected(line, i, raw) then line[i] != '\n' else raw || line[i] != '\\'
  }

  /** The bytes from the `i`-th on that stay, the protected ones marked as never splitting. */
  function Staying(line: string, i: nat, raw: bool): seq<Piece>
    requires i <= |line|
    decreases |line| - i
  {
    if i == |line| then []
    else (if Stays(line, i, raw) then [Piece(line[i], !Protected(line, i, raw))] else []) + Staying(line, i + 1, raw)
  }

  /** Each byte of a line is kept, dropped or protected by the backslashes right before it. */
  lemma {:induction false} BackslashesProtect(line: string, i: nat, raw: bool)
    requires i <= |line| && !Protected(line, i, raw)
    ensures Cooked(line[i..], raw) == Staying(line, i, raw)
    decreases |line| - i
  {
    var rest := line[i..];
    if i < |line| {
      assert rest[0] == line[i] && rest[1..] == line[i + 1..];
      if raw || line[i] != '\\' {
        BackslashesProtect(line, i + 1, raw);
      } else if i + 1 < |line| {
        assert rest[1] == line[i + 1] && rest[2..] == line[i + 2..];
        assert Protected(line, i + 1, raw);
        BackslashesProtect(line, i + 2, raw);
      }
    }
  }

  // ---- Words ----------------------------------------------------------------------------------

  /** The bytes of a text in which nothing is protected. */
  function Plain(s: string): seq<Piece>
  {
    seq(|s|, i requires 0 <= i < |s| => Piece(s[i], true))
  }

  predicate IsBlankChar(c: char) { c == ' ' || c == '\t' || c == '\n' }

  predicate AllBlank(s: string)
  {
    forall i :: 0 <= i < |s| ==> IsBlankChar(s[i])
  }

  predicate NoneIn(s: string, ifs: string)
  {
    forall i :: 0 <= i < |s| ==> s[i] !in ifs
  }

  /** IFS characters, at most one of them no blank. */
  predicate DelimitsOnce(d: string, ifs: string)
  {
    && d != "" && (forall i :: 0 <= i < |d| ==> d[i] in ifs)
    && forall i, j :: 0 <= i < j < |d| ==> IsBlankChar(d[i]) || IsBlankChar(d[j])
  }

  /** A word may be empty between two delimiters, if the blanks there do not make them one. */
  predicate MayStand(word: string, before: string, after: string)
  {
    word != "" || (!AllBlank(before) && after != "" && !IsBlankChar(after[0]))
  }

  /** Words without IFS characters with delimiters between them, behind the delimiter `before`. */
  predicate AreWords(words: seq<string>, delimiters: seq<string>, before: string, ifs: string)
    requires |words| == |delimiters| + 1
  {
    && NoneIn(words[0], ifs)
    && (delimiters != [] ==>
          && DelimitsOnce(delimiters[0], ifs) && MayStand(words[0], before, delimiters[0])
          && AreWords(words[1..], delimiters[1..], delimiters[0], ifs))
  }

  function Written(words: seq<string>, delimiters: seq<string>): string
    requires |words| == |delimiters| + 1
  {
    if delimiters == [] then words[0] else words[0] + delimiters[0] + Written(words[1..], delimiters[1..])
  }

  function CutsFor(words: seq<string>, delimiters: seq<string>): Cuts
    requires |words| == |delimiters| + 1
  {
    if delimiters == [] then Done(Plain(words[0]))
    else Next(Cut(Plain(words[0]), Plain(delimiters[0])), CutsFor(words[1..], delimiters[1..]))
  }

  lemma PlainAdds(a: string, b: string)
    ensures Plain(a + b) == Plain(a) + Plain(b)
  {
  }

  lemma {:induction false} CharsOfPlain(s: string)
    ensures CharsOf(Plain(s)) == s
  {
    if s != "" {
      CharsOfPlain(s[..|s| - 1]);
      assert Plain(s)[..|s| - 1] == Plain(s[..|s| - 1]);
    }
  }

  /** A plain character splits when it is in IFS, and as white space when it is a blank in IFS. */
  lemma PlainSplits(c: char, ifs: string)
    ensures IsIfs(Piece(c, true), ifs) <==> c in ifs
    ensures IsWhite(Piece(c, true), ifs) <==> c in ifs && IsBlankChar(c)
    ensures !IsIfs(Piece(c, false), ifs) && !IsWhite(Piece(c, false), ifs)
  {
  }

  lemma DelimiterIs(d: string, ifs: string)
    requires DelimitsOnce(d, ifs)
    ensures IsDelimiter(Plain(d), ifs) && (AllWhite(Plain(d), ifs) <==> AllBlank(d))
  {
    var p := Plain(d);
    forall i | 0 <= i < |d|
      ensures IsIfs(p[i], ifs) && (IsWhite(p[i], ifs) <==> IsBlankChar(d[i]))
    {
      PlainSplits(d[i], ifs);
    }
    hide IsBlankChar, IsIfs, IsWhite;
    if !AllBlank(d) {
      var k :| 0 <= k < |d| && !IsBlankChar(d[k]);
      assert AllWhite(p[..k], ifs) && AllWhite(p[k + 1..], ifs);
      assert !IsWhite(p[k], ifs);
    }
  }

  lemma WordIsField(word: string, ifs: string)
    requires NoneIn(word, ifs)
    ensures forall i :: 0 <= i < |word| ==> !IsIfs(Plain(word)[i], ifs) && !IsWhite(Plain(word)[i], ifs)
  {
  }

  /** What stands behind a delimiter does not go into it. */
  lemma {:induction false} WrittenStarts(words: seq<string>, delimiters: seq<string>, before: string, ifs: string)
    requires |words| == |delimiters| + 1 && AreWords(words, delimiters, before, ifs)
    ensures var t := Plain(Written(words, delimiters));
            t != [] ==> (IsIfs(t[0], ifs) ==> !AllBlank(before)) && !IsWhite(t[0], ifs)
  {
    if words[0] != "" {
      assert Written(words, delimiters)[0] == words[0][0];
    } else if delimiters != [] {
      assert Written(words, delimiters)[0] == delimiters[0][0];
    }
  }

  lemma {:induction false} WordsTile(words: seq<string>, delimiters: seq<string>, before: string, ifs: string)
    requires |words| == |delimiters| + 1 && AreWords(words, delimiters, before, ifs)
    ensures var cuts := CutsFor(words, delimiters);
            && CutsTile(Plain(Written(words, delimiters)), ifs, cuts)
            && Count(cuts) == |delimiters| && Left(cuts) == Plain(words[|words| - 1])
            && ValuesOf(cuts, Plain(words[|words| - 1])) == words
    decreases |words|
  {
    hide StartsWith, AfterCut, Plain, CharsOf, NoneIn, DelimitsOnce, MayStand;
    CharsOfPlain(words[0]);
    if delimiters == [] {
      assert words == [words[0]];
    } else {
      WordsTile(words[1..], delimiters[1..], delimiters[0], ifs);
      WordStarts(words, delimiters, before, ifs);
      assert words == [words[0]] + words[1..];
    }
  }

  lemma WordStarts(words: seq<string>, delimiters: seq<string>, before: string, ifs: string)
    requires |words| == |delimiters| + 1 && AreWords(words, delimiters, before, ifs) && delimiters != []
    ensures var (t, cut) := (Plain(Written(words, delimiters)), Cut(Plain(words[0]), Plain(delimiters[0])));
            && StartsWith(t, ifs, cut) && AfterCut(t, cut) == Plain(Written(words[1..], delimiters[1..]))
  {
    WordIsField(words[0], ifs);
    DelimiterIs(delimiters[0], ifs);
    WrittenStarts(words[1..], delimiters[1..], delimiters[0], ifs);
    hide AreWords, Written, IsDelimiter, AllWhite, IsIfs, IsWhite, AllBlank;
    var rest := Written(words[1..], delimiters[1..]);
    assert Written(words, delimiters) == words[0] + delimiters[0] + rest by { WrittenIs(words, delimiters); }
    PlainAdds(words[0] + delimiters[0], rest);
    PlainAdds(words[0], delimiters[0]);
    var t := Plain(words[0]) + Plain(delimiters[0]) + Plain(rest);
    assert t[|words[0]| + |delimiters[0]|..] == Plain(rest);
  }

  lemma WrittenIs(words: seq<string>, delimiters: seq<string>)
    requires |words| == |delimiters| + 1 && delimiters != []
    ensures Written(words, delimiters) == words[0] + delimiters[0] + Written(words[1..], delimiters[1..])
  {
  }

  /**
   Words with a delimiter between each two are read into as many names, word by word. The first word may be empty
   as if a delimiter that is no blank stood before it.
   */
  lemma WordsAreRead(words: seq<string>, delimiters: seq<string>, ifs: string)
    requires |words| == |delimiters| + 1
    requires AreWords(words, delimiters, ",", ifs)
    ensures var tiling := TilingOf(Plain(Written(words, delimiters)), ifs, |words| - 1);
            ValuesOf(tiling.cuts, tiling.last) == words
  {
    var (t, last) := (Plain(Written(words, delimiters)), words[|words| - 1]);
    var cuts := CutsFor(words, delimiters);
    WordsTile(words, delimiters, ",", ifs);
    WrittenStarts(words, delimiters, ",", ifs);
    LastHasNone(words, delimiters, ",", ifs);
    WordIsField(last, ifs);
    var tiling := Tiling([], cuts, Plain(last), []);
    assert t[0..] == t && Plain(last) + [] == Plain(last);
    hide AreWords, CutsTile, Count, Left, ValuesOf, CutsFor, Written, TilingOf, IsIfs, IsWhite;
    assert IsTiling(t, ifs, |words| - 1, tiling);
    TilingIsUnique(t, ifs, |words| - 1, tiling);
  }

  lemma {:induction false} LastHasNone(words: seq<string>, delimiters: seq<string>, before: string, ifs: string)
    requires |words| == |delimiters| + 1 && AreWords(words, delimiters, before, ifs)
    ensures NoneIn(words[|words| - 1], ifs)
    decreases |words|
  {
    if delimiters != [] {
      LastHasNone(words[1..], delimiters[1..], delimiters[0], ifs);
    }
  }

  // ---- Escaped lines --------------------------------------------------------------------------

  /** A backslash before each byte. */
  function Escaped(s: string): string
  {
    if s == "" then "" else "\\" + [s[0]] + Escaped(s[1..])
  }

  function Shielded(s: string): seq<Piece>
  {
    seq(|s|, i requires 0 <= i < |s| => Piece(s[i], false))
  }

  lemma {:induction false} EscapedIsShielded(s: string)
    requires '\n' !in s
    ensures Cooked(Escaped(s), false) == Shielded(s)
  {
    if s != "" {
      EscapedIsShielded(s[1..]);
      assert Escaped(s)[2..] == Escaped(s[1..]);
    }
  }

  /** A line with a backslash before every byte is one value, whatever IFS is. */
  lemma EscapedLineReadsBack(s: string, ifs: string)
    requires '\n' !in s
    ensures var tiling := TilingOf(Cooked(Escaped(s), false), ifs, 0);
            ValuesOf(tiling.cuts, tiling.last) == [s]
  {
    EscapedIsShielded(s);
    ShieldedChars(s);
    var t := Shielded(s);
    var tiling := Tiling([], Done(t), t, []);
    assert forall i :: 0 <= i < |t| ==> !IsWhite(t[i], ifs);
    hide Cooked, Shielded, IsWhite, TilingOf;
    assert t[0..] == t && t + [] == t;
    TilingIsUnique(t, ifs, 0, tiling);
  }

  lemma {:induction false} ShieldedChars(s: string)
    ensures CharsOf(Shielded(s)) == s
  {
    if s != "" {
      ShieldedChars(s[..|s| - 1]);
      assert Shielded(s)[..|s| - 1] == Shielded(s[..|s| - 1]);
    }
  }
}
