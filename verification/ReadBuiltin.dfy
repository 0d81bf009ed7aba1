/**
 The `read` builtin (src/components/BuiltinCommands/commands/hsh/HshBuiltinRead.cpp:80-172): which bytes of
 its input it takes, and how the line is split into fields.
 */
module ReadBuiltin {
  import opened Basics

  /** A byte of the line, and whether it may split it: a backslash before it protects it. */
  datatype Piece = Piece(c: char, splits: bool)

  // ---- Taking one line --------------------------------------------------------------------------------------

  /** How many backslashes stand right before place `i`. */
  function BackslashesBefore(s: string, i: nat): nat
    requires i <= |s|
  {
    if i > 0 && s[i - 1] == '\\' then 1 + BackslashesBefore(s, i - 1) else 0
  }

  /** A newline that ends the line: not one an odd number of backslashes stands before, unless -r is given. */
  predicate EndsLine(s: string, i: nat, raw: bool)
    requires i < |s|
  {
    s[i] == '\n' && (raw || BackslashesBefore(s, i) % 2 == 0)
  }

  /** Whether the line is the first `n` bytes: nothing in it ends a line, and what follows does, or nothing does. */
  predicate IsLine(s: string, n: nat, raw: bool)
  {
    && n <= |s|
    && (forall i :: 0 <= i < n ==> !EndsLine(s, i, raw))
    && (n < |s| ==> EndsLine(s, n, raw))
  }

  /** There is one line only. */
  lemma LineIsUnique(s: string, m: nat, n: nat, raw: bool)
    requires IsLine(s, m, raw) && IsLine(s, n, raw)
    ensures m == n
  {
  }

  /** Where the line ends. */
  function LineEnd(s: string, raw: bool): (n: nat)
    ensures IsLine(s, n, raw)
  {
    LineEndFrom(s, 0, raw)
  }

  function LineEndFrom(s: string, i: nat, raw: bool): (n: nat)
    requires i <= |s| && forall j :: 0 <= j < i ==> !EndsLine(s, j, raw)
    ensures IsLine(s, n, raw)
    decreases |s| - i
  {
    if i == |s| || EndsLine(s, i, raw) then i else LineEndFrom(s, i + 1, raw)
  }

  /** The line's bytes, its backslashes done with. */
  function Cooked(line: string, raw: bool): seq<Piece>
    decreases |line|
  {
    if line == "" then []
    else if raw || line[0] != '\\' then [Piece(line[0], true)] + Cooked(line[1..], raw)
    else if |line| == 1 then []
    else if line[1] == '\n' then Cooked(line[2..], raw)
    else [Piece(line[1], false)] + Cooked(line[2..], raw)
  }

  /** The shell's standard input, read a byte at a time. */
  class Input {
    var left: string

    constructor (bytes: string)
      ensures left == bytes
    {
      left := bytes;
    }

    /** The next byte; none at the end of the input or on a read error. */
    method Read() returns (c: Option<char>)
      modifies this
      ensures old(left) == "" ==> c == None && left == ""
      ensures old(left) != "" ==> c == Some(old(left)[0]) && left == old(left)[1..]
    {
      if left == "" {
        return None;
      }
      c, left := Some(left[0]), left[1..];
    }
  }

  /** The line, its newline taken too and not one byte more. */
  method ReadLine(input: Input, raw: bool) returns (text: seq<Piece>, newline: bool)
    modifies input
    ensures IsLine(old(input.left), LineEnd(old(input.left), raw), raw)
    ensures var n := LineEnd(old(input.left), raw);
            newline == (n < |old(input.left)|) && text == Cooked(old(input.left)[..n], raw)
            && input.left == old(input.left)[if newline then n + 1 else n..]
  {
    hide IsRead, IsLine, LineEnd, Cooked;
    ghost var s := input.left;
    ghost var i := 0;
    text, newline := [], false;
    NoneRead(s, raw);
    while true
      invariant i <= |s| && input.left == s[i..] && IsRead(s, i, raw, text)
      decreases |s| - i
    {
      var byte := input.Read();
      if byte == None {
        LineIsRead(s, i, raw, text);
        return;
      }
      var c := byte.value;
      if c == '\n' {
        newline := true;
        LineIsRead(s, i, raw, text);
        return;
      }
      if !raw && c == '\\' {
        byte := input.Read();
        if byte == None {
          LoneBackslash(s, i, text);
          return;
        }
        c := byte.value;
        EscapedByte(s, i, text);
        i := i + 2;
        if c != '\n' {
          text := text + [Piece(c, false)];
        }
      } else {
        PlainByte(s, i, raw, text);
        i := i + 1;
        text := text + [Piece(c, true)];
      }
    }
  }

  /** The first `i` bytes are read: none of them ends the line, no backslash waits, and `text` is what they give. */
  ghost predicate IsRead(s: string, i: nat, raw: bool, text: seq<Piece>)
    requires i <= |s|
  {
    && (raw || BackslashesBefore(s, i) % 2 == 0)
    && (forall j :: 0 <= j < i ==> !EndsLine(s, j, raw))
    && forall n :: i <= n <= |s| ==> Cooked(s[..n], raw) == text + Cooked(s[i..n], raw)
  }

  lemma NoneRead(s: string, raw: bool)
    ensures IsRead(s, 0, raw, [])
  {
    assert forall n :: 0 <= n <= |s| ==> s[..n] == s[0..n];
  }

  /** At a newline that no backslash protects, or at the end, the line is read. */
  lemma LineIsRead(s: string, i: nat, raw: bool, text: seq<Piece>)
    requires i <= |s| && IsRead(s, i, raw, text) && (i < |s| ==> s[i] == '\n')
    ensures IsLine(s, i, raw) && LineEnd(s, raw) == i && Cooked(s[..i], raw) == text
  {
    assert s[i..i] == "";
    LineIsUnique(s, i, LineEnd(s, raw), raw);
  }

  lemma PlainByte(s: string, i: nat, raw: bool, text: seq<Piece>)
    requires i < |s| && s[i] != '\n' && (raw || s[i] != '\\') && IsRead(s, i, raw, text)
    ensures IsRead(s, i + 1, raw, text + [Piece(s[i], true)])
  {
    hide Cooked;
    forall n | i + 1 <= n <= |s|
      ensures Cooked(s[..n], raw) == text + [Piece(s[i], true)] + Cooked(s[i + 1..n], raw)
    {
      assert s[i..n][1..] == s[i + 1..n];
      CookedPlain(s[i..n], raw);
    }
  }

  lemma CookedPlain(line: string, raw: bool)
    requires line != "" && (raw || line[0] != '\\')
    ensures Cooked(line, raw) == [Piece(line[0], true)] + Cooked(line[1..], raw)
  {
  }

  lemma EscapedByte(s: string, i: nat, text: seq<Piece>)
    requires i + 1 < |s| && s[i] == '\\' && IsRead(s, i, false, text)
    ensures IsRead(s, i + 2, false, if s[i + 1] == '\n' then text else text + [Piece(s[i + 1], false)])
  {
    hide Cooked, BackslashesBefore, EndsLine;
    BackslashEscapes(s, i);
    var more := if s[i + 1] == '\n' then text else text + [Piece(s[i + 1], false)];
    forall n | i + 2 <= n <= |s|
      ensures Cooked(s[..n], false) == more + Cooked(s[i + 2..n], false)
    {
      CookedFurther(s, i, n, text);
    }
  }

  /** A backslash that none protects protects the byte after it, which ends no line then. */
  lemma BackslashEscapes(s: string, i: nat)
    requires i + 1 < |s| && s[i] == '\\' && BackslashesBefore(s, i) % 2 == 0
    ensures BackslashesBefore(s, i + 2) % 2 == 0 && !EndsLine(s, i, false) && !EndsLine(s, i + 1, false)
  {
    assert BackslashesBefore(s, i + 1) == 1 + BackslashesBefore(s, i);
  }

  lemma CookedFurther(s: string, i: nat, n: nat, text: seq<Piece>)
    requires i + 2 <= n <= |s| && s[i] == '\\' && Cooked(s[..n], false) == text + Cooked(s[i..n], false)
    ensures Cooked(s[..n], false) ==
            (if s[i + 1] == '\n' then text else text + [Piece(s[i + 1], false)]) + Cooked(s[i + 2..n], false)
  {
    hide Cooked;
    assert s[i..n][2..] == s[i + 2..n];
    CookedEscape(s[i..n]);
    assert text + ([] + Cooked(s[i + 2..n], false)) == text + Cooked(s[i + 2..n], false);
  }

  lemma CookedEscape(line: string)
    requires |line| >= 2 && line[0] == '\\'
    ensures Cooked(line, false) == (if line[1] == '\n' then [] else [Piece(line[1], false)]) + Cooked(line[2..], false)
  {
    assert [] + Cooked(line[2..], false) == Cooked(line[2..], false);
  }

  lemma LoneBackslash(s: string, i: nat, text: seq<Piece>)
    requires i + 1 == |s| && s[i] == '\\' && IsRead(s, i, false, text)
    ensures IsLine(s, |s|, false) && LineEnd(s, false) == |s| && Cooked(s[..|s|], false) == text
  {
    assert s[i..|s|] == "\\";
    assert Cooked(s[i..|s|], false) == [];
    LineIsUnique(s, |s|, LineEnd(s, false), false);
  }

  // ---- Splitting it -------------------------------------------------------------------------------------------

  predicate IsWhite(p: Piece, ifs: string)
  {
    p.splits && (p.c == ' ' || p.c == '\t' || p.c == '\n') && p.c in ifs
  }

  predicate IsIfs(p: Piece, ifs: string)
  {
    p.splits && p.c in ifs
  }

  predicate AllWhite(t: seq<Piece>, ifs: string)
  {
    forall i :: 0 <= i < |t| ==> IsWhite(t[i], ifs)
  }

  /** IFS white space around at most one other IFS character: what delimits once. */
  predicate IsDelimiter(d: seq<Piece>, ifs: string)
  {
    AllWhite(d, ifs)
    || exists k :: 0 <= k < |d| && AllWhite(d[..k], ifs) && IsIfs(d[k], ifs) && !IsWhite(d[k], ifs) && AllWhite(d[k + 1..], ifs)
  }

  datatype Cut = Cut(field: seq<Piece>, delimiter: seq<Piece>)

  /** The text starts with this field and this delimiter, into which as much as can is taken. */
  predicate StartsWith(t: seq<Piece>, ifs: string, cut: Cut)
  {
    var n := |cut.field| + |cut.delimiter|;
    && cut.field + cut.delimiter <= t
    && (forall i :: 0 <= i < |cut.field| ==> !IsIfs(cut.field[i], ifs))
    && IsDelimiter(cut.delimiter, ifs)
    && (cut.delimiter == [] ==> n == |t|)
    && (n < |t| ==> !IsWhite(t[n], ifs) && (AllWhite(cut.delimiter, ifs) ==> !IsIfs(t[n], ifs)))
  }

  /** What follows a field and its delimiter. */
  function AfterCut(t: seq<Piece>, cut: Cut): seq<Piece>
  {
    if |cut.field| + |cut.delimiter| <= |t| then t[|cut.field| + |cut.delimiter|..] else []
  }

  /** Fields with their delimiters, and what is left of the text after them. */
  datatype Cuts = Done(left: seq<Piece>) | Next(cut: Cut, rest: Cuts)

  predicate CutsTile(t: seq<Piece>, ifs: string, cuts: Cuts)
  {
    match cuts
    case Done(left) => t == left
    case Next(cut, rest) => StartsWith(t, ifs, cut) && CutsTile(AfterCut(t, cut), ifs, rest)
  }

  function Count(cuts: Cuts): nat
  {
    match cuts
    case Done(_) => 0
    case Next(_, rest) => 1 + Count(rest)
  }

  function Left(cuts: Cuts): seq<Piece>
  {
    match cuts
    case Done(left) => left
    case Next(_, rest) => Left(rest)
  }

  /** A line in tiles: leading white space, fields and delimiters, the last value, trailing white space. */
  datatype Tiling = Tiling(lead: seq<Piece>, cuts: Cuts, last: seq<Piece>, trail: seq<Piece>)

  predicate IsTiling(t: seq<Piece>, ifs: string, fields: nat, tiling: Tiling)
  {
    && tiling.lead <= t && AllWhite(tiling.lead, ifs)
    && (|tiling.lead| < |t| ==> !IsWhite(t[|tiling.lead|], ifs))
    && Count(tiling.cuts) == fields && CutsTile(t[|tiling.lead|..], ifs, tiling.cuts)
    && Left(tiling.cuts) == tiling.last + tiling.trail
    && AllWhite(tiling.trail, ifs)
    && (tiling.last != [] ==> !IsWhite(tiling.last[|tiling.last| - 1], ifs))
  }

  function WhiteRun(t: seq<Piece>, ifs: string): (n: nat)
    ensures n <= |t| && (forall i :: 0 <= i < n ==> IsWhite(t[i], ifs)) && (n < |t| ==> !IsWhite(t[n], ifs))
  {
    if t == [] || !IsWhite(t[0], ifs) then 0 else 1 + WhiteRun(t[1..], ifs)
  }

  function FieldRun(t: seq<Piece>, ifs: string): (n: nat)
    ensures n <= |t| && (forall i :: 0 <= i < n ==> !IsIfs(t[i], ifs)) && (n < |t| ==> IsIfs(t[n], ifs))
  {
    if t == [] || IsIfs(t[0], ifs) then 0 else 1 + FieldRun(t[1..], ifs)
  }

  /** One delimiter event, as long as it goes. */
  function DelimiterRun(t: seq<Piece>, ifs: string): (n: nat)
    ensures n <= |t|
  {
    var w := WhiteRun(t, ifs);
    if w < |t| && IsIfs(t[w], ifs) then w + 1 + WhiteRun(t[w + 1..], ifs) else w
  }

  function CutOf(t: seq<Piece>, ifs: string): (cut: Cut)
    ensures |cut.field| + |cut.delimiter| <= |t|
  {
    var f := FieldRun(t, ifs);
    Cut(t[..f], t[f..f + DelimiterRun(t[f..], ifs)])
  }

  function CutsOf(t: seq<Piece>, ifs: string, fields: nat): Cuts
    decreases fields
  {
    if fields == 0 then Done(t)
    else
      var cut := CutOf(t, ifs);
      Next(cut, CutsOf(AfterCut(t, cut), ifs, fields - 1))
  }

  /** The length of the first `n` pieces without the white space at their end. */
  function TrimmedLength(t: seq<Piece>, ifs: string, n: nat): (m: nat)
    requires n <= |t|
    ensures m <= n && (forall i :: m <= i < n ==> IsWhite(t[i], ifs)) && (m > 0 ==> !IsWhite(t[m - 1], ifs))
  {
    if n == 0 || !IsWhite(t[n - 1], ifs) then n else TrimmedLength(t, ifs, n - 1)
  }

  function TilingOf(t: seq<Piece>, ifs: string, fields: nat): Tiling
  {
    var w := WhiteRun(t, ifs);
    var cuts := CutsOf(t[w..], ifs, fields);
    var left := Left(cuts);
    var n := TrimmedLength(left, ifs, |left|);
    Tiling(t[..w], cuts, left[..n], left[n..])
  }

  lemma WhiteRunIs(t: seq<Piece>, ifs: string, n: nat)
    requires n <= |t| && (forall i :: 0 <= i < n ==> IsWhite(t[i], ifs)) && (n < |t| ==> !IsWhite(t[n], ifs))
    ensures WhiteRun(t, ifs) == n
  {
  }

  lemma FieldRunIs(t: seq<Piece>, ifs: string, n: nat)
    requires n <= |t| && (forall i :: 0 <= i < n ==> !IsIfs(t[i], ifs)) && (n < |t| ==> IsIfs(t[n], ifs))
    ensures FieldRun(t, ifs) == n
  {
  }

  lemma TrimmedIs(t: seq<Piece>, ifs: string, n: nat)
    requires n <= |t| && (forall i :: n <= i < |t| ==> IsWhite(t[i], ifs)) && (n > 0 ==> !IsWhite(t[n - 1], ifs))
    ensures TrimmedLength(t, ifs, |t|) == n
  {
  }

  /** A run that is a delimiter, and after which nothing more goes into it. */
  predicate IsWholeDelimiter(t: seq<Piece>, ifs: string, n: nat)
  {
    && n <= |t| && IsDelimiter(t[..n], ifs)
    && (n < |t| ==> !IsWhite(t[n], ifs) && (AllWhite(t[..n], ifs) ==> !IsIfs(t[n], ifs)))
  }

  lemma DelimiterRunIsWhole(t: seq<Piece>, ifs: string)
    ensures IsWholeDelimiter(t, ifs, DelimiterRun(t, ifs))
  {
    var w, n := WhiteRun(t, ifs), DelimiterRun(t, ifs);
    var d := t[..n];
    assert forall i :: 0 <= i < n ==> d[i] == t[i];
    if n > w {
      assert forall i :: w + 1 <= i < n ==> t[i] == t[w + 1..][i - w - 1];
      assert AllWhite(d[..w], ifs) && AllWhite(d[w + 1..], ifs) && d[w] == t[w];
      assert n < |t| ==> t[w + 1..][n - w - 1] == t[n];
    } else {
      assert AllWhite(d, ifs);
    }
  }

  lemma DelimiterRunIs(t: seq<Piece>, ifs: string, n: nat)
    requires IsWholeDelimiter(t, ifs, n)
    ensures DelimiterRun(t, ifs) == n
  {
    if AllWhite(t[..n], ifs) {
      WhiteDelimiterIs(t, ifs, n);
    } else {
      SignDelimiterIs(t, ifs, n);
    }
  }

  lemma WhiteDelimiterIs(t: seq<Piece>, ifs: string, n: nat)
    requires IsWholeDelimiter(t, ifs, n) && AllWhite(t[..n], ifs)
    ensures DelimiterRun(t, ifs) == n
  {
    hide IsWhite, IsIfs, WhiteRun;
    assert forall i :: 0 <= i < n ==> t[..n][i] == t[i];
    WhiteRunIs(t, ifs, n);
  }

  lemma SignDelimiterIs(t: seq<Piece>, ifs: string, n: nat)
    requires IsWholeDelimiter(t, ifs, n) && !AllWhite(t[..n], ifs)
    ensures DelimiterRun(t, ifs) == n
  {
    hide IsWhite, IsIfs, WhiteRun;
    var d := t[..n];
    var k :| 0 <= k < |d| && AllWhite(d[..k], ifs) && IsIfs(d[k], ifs) && !IsWhite(d[k], ifs) && AllWhite(d[k + 1..], ifs);
    assert forall i :: 0 <= i < k ==> d[..k][i] == t[i];
    WhiteRunIs(t, ifs, k);
    var rest := t[k + 1..];
    assert forall i :: 0 <= i < n - k - 1 ==> d[k + 1..][i] == rest[i];
    assert n < |t| ==> rest[n - k - 1] == t[n];
    WhiteRunIs(rest, ifs, n - k - 1);
  }

  lemma FirstOfDelimiter(d: seq<Piece>, ifs: string)
    requires IsDelimiter(d, ifs) && d != []
    ensures IsIfs(d[0], ifs)
  {
    if !AllWhite(d, ifs) {
      var k :| 0 <= k < |d| && AllWhite(d[..k], ifs) && IsIfs(d[k], ifs) && !IsWhite(d[k], ifs) && AllWhite(d[k + 1..], ifs);
      assert k > 0 ==> d[..k][0] == d[0];
    }
  }

  /** Slices of a text next to each other. */
  lemma Slices(t: seq<Piece>, f: nat, d: nat)
    requires f + d <= |t|
    ensures t[f..][..d] == t[f..f + d] && t[..f] + t[f..f + d] == t[..f + d] <= t
    ensures f < |t| ==> t[f..][0] == t[f]
    ensures f + d < |t| ==> t[f..][d] == t[f + d]
    ensures t[f..][d..] == t[f + d..]
  {
  }

  lemma CutOfStarts(t: seq<Piece>, ifs: string)
    ensures StartsWith(t, ifs, CutOf(t, ifs))
  {
    hide FieldRun, DelimiterRun, IsDelimiter, AllWhite, IsIfs, IsWhite;
    var f := FieldRun(t, ifs);
    var rest := t[f..];
    var d := DelimiterRun(rest, ifs);
    DelimiterRunIsWhole(rest, ifs);
    DelimiterRunIsSome(rest, ifs);
    Slices(t, f, d);
    assert d == 0 ==> f == |t|;
    WholeStarts(t, ifs, f, d);
  }

  /** What is before the field's end and what is behind the delimiter's. */
  lemma WholeStarts(t: seq<Piece>, ifs: string, f: nat, d: nat)
    requires f + d <= |t| && (forall i :: 0 <= i < f ==> !IsIfs(t[i], ifs)) && (d == 0 ==> f == |t|)
    requires IsWholeDelimiter(t[f..], ifs, d)
    ensures StartsWith(t, ifs, Cut(t[..f], t[f..f + d]))
  {
    hide IsDelimiter, AllWhite, IsIfs, IsWhite;
    Slices(t, f, d);
    assert forall i :: 0 <= i < f ==> t[..f][i] == t[i];
  }

  lemma DelimiterRunIsSome(t: seq<Piece>, ifs: string)
    ensures t != [] && IsIfs(t[0], ifs) ==> DelimiterRun(t, ifs) > 0
  {
    if t != [] && IsIfs(t[0], ifs) && WhiteRun(t, ifs) == 0 {
      assert DelimiterRun(t, ifs) >= 1;
    }
  }

  lemma StartIsCutOf(t: seq<Piece>, ifs: string, cut: Cut)
    requires StartsWith(t, ifs, cut)
    ensures CutOf(t, ifs) == cut
  {
    hide FieldRun, DelimiterRun, IsDelimiter, AllWhite, IsIfs, IsWhite;
    var (f, d) := (|cut.field|, |cut.delimiter|);
    Cutting(t, cut.field, cut.delimiter);
    Slices(t, f, d);
    if cut.delimiter != [] {
      FirstOfDelimiter(cut.delimiter, ifs);
    }
    assert forall i :: 0 <= i < f ==> t[i] == cut.field[i];
    FieldRunIs(t, ifs, f);
    DelimiterRunIs(t[f..], ifs, d);
  }

  lemma Cutting(t: seq<Piece>, field: seq<Piece>, delimiter: seq<Piece>)
    requires field + delimiter <= t
    ensures var (f, d) := (|field|, |delimiter|);
            t[..f] == field && t[f..f + d] == delimiter && (d > 0 ==> t[f] == delimiter[0])
  {
    var n := |field| + |delimiter|;
    assert t[..n] == field + delimiter;
    assert t[..|field|] == t[..n][..|field|] && t[|field|..n] == t[..n][|field|..];
  }

  lemma {:induction false} CutsOfTile(t: seq<Piece>, ifs: string, fields: nat)
    ensures var cuts := CutsOf(t, ifs, fields); Count(cuts) == fields && CutsTile(t, ifs, cuts)
    decreases fields
  {
    hide CutOf, StartsWith, AfterCut;
    if fields > 0 {
      CutOfStarts(t, ifs);
      CutsOfTile(AfterCut(t, CutOf(t, ifs)), ifs, fields - 1);
    }
  }

  lemma {:induction false} CutsAreUnique(t: seq<Piece>, ifs: string, cuts: Cuts)
    requires CutsTile(t, ifs, cuts)
    ensures CutsOf(t, ifs, Count(cuts)) == cuts
    decreases cuts
  {
    hide CutOf, StartsWith, AfterCut;
    if cuts.Next? {
      StartIsCutOf(t, ifs, cuts.cut);
      CutsAreUnique(AfterCut(t, cuts.cut), ifs, cuts.rest);
    }
  }

  lemma TilingOfTiles(t: seq<Piece>, ifs: string, fields: nat)
    ensures IsTiling(t, ifs, fields, TilingOf(t, ifs, fields))
  {
    hide IsWhite, CutsOf, CutsTile, Count, Left, AllWhite, TrimmedLength, WhiteRun;
    var w := WhiteRun(t, ifs);
    var cuts := CutsOf(t[w..], ifs, fields);
    CutsOfTile(t[w..], ifs, fields);
    LeadIsWhite(t, ifs);
    TrimmedTiles(Left(cuts), ifs);
    assert |t[..w]| == w;
  }

  lemma LeadIsWhite(t: seq<Piece>, ifs: string)
    ensures var w := WhiteRun(t, ifs); AllWhite(t[..w], ifs) && (w < |t| ==> !IsWhite(t[w], ifs))
  {
    hide IsWhite;
  }

  lemma TrimmedTiles(left: seq<Piece>, ifs: string)
    ensures var n := TrimmedLength(left, ifs, |left|);
            left[..n] + left[n..] == left && AllWhite(left[n..], ifs)
            && (left[..n] != [] ==> !IsWhite(left[..n][|left[..n]| - 1], ifs))
  {
  }

  /** The line is cut into tiles in just one way. */
  lemma TilingIsUnique(t: seq<Piece>, ifs: string, fields: nat, tiling: Tiling)
    requires IsTiling(t, ifs, fields, tiling)
    ensures tiling == TilingOf(t, ifs, fields)
  {
    var (lead, last) := (|tiling.lead|, |tiling.last|);
    var left := tiling.last + tiling.trail;
    assert t[..lead] == tiling.lead && forall i :: 0 <= i < lead ==> t[i] == tiling.lead[i];
    assert left[..last] == tiling.last && left[last..] == tiling.trail;
    assert forall i :: last <= i < |left| ==> left[i] == tiling.trail[i - last];
    hide IsWhite, CutsOf, CutsTile, WhiteRun, TrimmedLength, Count, Left;
    WhiteRunIs(t, ifs, lead);
    CutsAreUnique(t[lead..], ifs, tiling.cuts);
    TrimmedIs(left, ifs, last);
  }

  // ---- The splitting loops --------------------------------------------------------------------------------------

  function CharsOf(t: seq<Piece>): string
  {
    if t == [] then "" else CharsOf(t[..|t| - 1]) + [t[|t| - 1].c]
  }

  /** One value for each name: the fields and the last value. */
  function ValuesOf(cuts: Cuts, last: seq<Piece>): seq<string>
  {
    match cuts
    case Done(_) => [CharsOf(last)]
    case Next(cut, rest) => [CharsOf(cut.field)] + ValuesOf(rest, last)
  }

  method SkipWhite(text: seq<Piece>, ifs: string, from: nat) returns (at: nat)
    requires from <= |text|
    ensures at == from + WhiteRun(text[from..], ifs) <= |text|
  {
    at := from;
    while at < |text| && IsWhite(text[at], ifs)
      invariant from <= at <= |text| && forall i :: from <= i < at ==> IsWhite(text[i], ifs)
    {
      at := at + 1;
    }
    WhiteRunIs(text[from..], ifs, at - from);
  }

  /** One field, up to its delimiter. */
  method TakeField(text: seq<Piece>, ifs: string, from: nat) returns (field: string, at: nat)
    requires from <= |text|
    ensures at == from + FieldRun(text[from..], ifs) <= |text| && field == CharsOf(text[from..at])
  {
    field, at := "", from;
    while at < |text| && !IsIfs(text[at], ifs)
      invariant from <= at <= |text| && forall i :: from <= i < at ==> !IsIfs(text[i], ifs)
      invariant field == CharsOf(text[from..at])
    {
      assert text[from..at + 1][..at - from] == text[from..at];
      field := field + [text[at].c];
      at := at + 1;
    }
    FieldRunIs(text[from..], ifs, at - from);
  }

  /** One delimiter event. */
  method SkipDelimiter(text: seq<Piece>, ifs: string, from: nat) returns (at: nat)
    requires from <= |text|
    ensures at == from + DelimiterRun(text[from..], ifs) <= |text|
  {
    at := from;
    if at < |text| {
      at := SkipWhite(text, ifs, at);
      assert at < |text| ==> text[from..][at - from] == text[at];
      if at < |text| && IsIfs(text[at], ifs) {
        assert text[from..][at - from + 1..] == text[at + 1..];
        at := SkipWhite(text, ifs, at + 1);
      }
    }
  }

  /** The values of the names, at least one, that a line is read into. */
  method SplitLine(text: seq<Piece>, ifs: string, names: nat) returns (values: seq<string>)
    requires names >= 1
    ensures var tiling := TilingOf(text, ifs, names - 1); values == ValuesOf(tiling.cuts, tiling.last)
  {
    hide *;
    ghost var tiling := TilingOf(text, ifs, names - 1);
    TilingHas(text, ifs, names - 1);
    var at := SkipWhite(text, ifs, 0);
    var next;
    values, next := SplitFields(text, ifs, at, names - 1, tiling.last);
    var last := Trimmed(text, ifs, next);
    values := values + [last];
  }

  /** A tiling's parts, from where the white space before the fields ends. */
  lemma TilingHas(text: seq<Piece>, ifs: string, fields: nat)
    ensures var (tiling, w) := (TilingOf(text, ifs, fields), WhiteRun(text, ifs));
            var left := Left(tiling.cuts);
            && text[0..] == text && tiling.cuts == CutsOf(text[w..], ifs, fields)
            && tiling.last == left[..TrimmedLength(left, ifs, |left|)]
  {
    hide CutsOf, Left, TrimmedLength, WhiteRun;
  }

  /** The values of all names but the last, and where the rest of the line starts. */
  method SplitFields(text: seq<Piece>, ifs: string, from: nat, fields: nat, ghost last: seq<Piece>)
    returns (values: seq<string>, at: nat)
    requires from <= |text|
    ensures at <= |text|
    ensures var cuts := CutsOf(text[from..], ifs, fields);
            Left(cuts) == text[at..] && ValuesOf(cuts, last) == values + [CharsOf(last)]
  {
    hide CutsOf, ValuesOf, Left, CharsOf;
    values, at := [], from;
    ghost var cuts := CutsOf(text[from..], ifs, fields);
    for name := 0 to fields
      invariant at <= |text|
      invariant Left(CutsOf(text[at..], ifs, fields - name)) == Left(cuts)
      invariant values + ValuesOf(CutsOf(text[at..], ifs, fields - name), last) == ValuesOf(cuts, last)
    {
      var field, next := NextField(text, ifs, at, fields - name, last);
      Appends(values, field, ValuesOf(CutsOf(text[next..], ifs, fields - name - 1), last));
      values := values + [field];
      at := next;
    }
    NoMoreFields(text, ifs, at, last);
  }

  /** One field and the delimiter after it. */
  method NextField(text: seq<Piece>, ifs: string, at: nat, ghost fields: nat, ghost last: seq<Piece>) returns (field: string, next: nat)
    requires at <= |text| && fields > 0
    ensures at <= next <= |text|
    ensures var (cuts, rest) := (CutsOf(text[at..], ifs, fields), CutsOf(text[next..], ifs, fields - 1));
            Left(cuts) == Left(rest) && ValuesOf(cuts, last) == [field] + ValuesOf(rest, last)
  {
    var end;
    field, end := TakeField(text, ifs, at);
    next := SkipDelimiter(text, ifs, end);
    OneMoreField(text, ifs, at, end, next, fields, last);
  }

  lemma CutIs(t: seq<Piece>, ifs: string, f: nat, d: nat)
    requires f == FieldRun(t, ifs) && d == DelimiterRun(t[f..], ifs)
    ensures CutOf(t, ifs).field == t[..f] && AfterCut(t, CutOf(t, ifs)) == t[f + d..]
  {
    hide FieldRun, DelimiterRun;
  }

  lemma OneMoreField(text: seq<Piece>, ifs: string, at: nat, end: nat, next: nat, fields: nat, last: seq<Piece>)
    requires at <= end <= next <= |text| && fields > 0
    requires end == at + FieldRun(text[at..], ifs) && next == end + DelimiterRun(text[end..], ifs)
    ensures var (cuts, rest) := (CutsOf(text[at..], ifs, fields), CutsOf(text[next..], ifs, fields - 1));
            Left(cuts) == Left(rest) && ValuesOf(cuts, last) == [CharsOf(text[at..end])] + ValuesOf(rest, last)
  {
    hide CutOf, FieldRun, DelimiterRun, CharsOf, AfterCut;
    var t := text[at..];
    Slices(text, at, end - at);
    Slices(text, at, next - at);
    CutIs(t, ifs, end - at, next - end);
    var (cut, rest) := (CutOf(t, ifs), CutsOf(text[next..], ifs, fields - 1));
    assert CutsOf(t, ifs, fields) == Next(cut, rest);
    hide CutsOf;
  }

  lemma Appends(a: seq<string>, x: string, b: seq<string>)
    ensures a + ([x] + b) == a + [x] + b
  {
  }

  lemma NoMoreFields(text: seq<Piece>, ifs: string, at: nat, last: seq<Piece>)
    requires at <= |text|
    ensures Left(CutsOf(text[at..], ifs, 0)) == text[at..] && ValuesOf(CutsOf(text[at..], ifs, 0), last) == [CharsOf(last)]
  {
  }

  /** The last value: the rest of the line, its trailing white space taken off again. */
  method Trimmed(text: seq<Piece>, ifs: string, at: nat) returns (last: string)
    requires at <= |text|
    ensures var rest := text[at..]; last == CharsOf(rest[..TrimmedLength(rest, ifs, |rest|)])
  {
    var rest := text[at..];
    last := "";
    for i := 0 to |rest|
      invariant last == CharsOf(rest[..i])
    {
      assert rest[..i + 1][..i] == rest[..i];
      last := last + [rest[i].c];
    }
    var n := |rest|;
    while n > 0 && IsWhite(rest[n - 1], ifs)
      invariant 0 <= n <= |rest| && last == CharsOf(rest[..n])
      invariant TrimmedLength(rest, ifs, n) == TrimmedLength(rest, ifs, |rest|)
    {
      assert rest[..n][..n - 1] == rest[..n - 1];
      last := last[..|last| - 1];
      n := n - 1;
    }
  }
}
