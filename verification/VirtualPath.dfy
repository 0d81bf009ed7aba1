/** Lexical paths (src/components/Filesystem/VirtualPath.h), separated by '/' alone as on POSIX hosts. */
module VirtualPath {
  import opened Basics

  /** A segment as it stands in a normalized path. */
  predicate IsSegment(s: string)
  {
    s != "" && s != "." && s != ".." && '/' !in s
  }

  predicate AreSegments(ss: seq<string>)
  {
    forall i :: 0 <= i < |ss| ==> IsSegment(ss[i])
  }

  // ---- Splitting --------------------------------------------------------------------------------

  /** The pieces between the separators, empty ones included. */
  function Pieces(path: string): (ps: seq<string>)
    ensures |ps| >= 1
    ensures forall i :: 0 <= i < |ps| ==> '/' !in ps[i]
  {
    if path == "" then [""]
    else
      var rest := Pieces(path[1..]);
      if path[0] == '/' then [""] + rest else [[path[0]] + rest[0]] + rest[1..]
  }

  /** The segments so far, and whether no ".." has climbed above where they started. */
  datatype Walk = Walk(segments: seq<string>, within: bool)

  /** One piece more. */
  function Taken(w: Walk, piece: string): Walk
  {
    if piece == ".." then
      if w.segments == [] then Walk([], false) else w.(segments := w.segments[..|w.segments| - 1])
    else if piece == "" || piece == "." then w
    else w.(segments := w.segments + [piece])
  }

  function Walked(w: Walk, pieces: seq<string>): Walk
    decreases |pieces|
  {
    if pieces == [] then w else Walked(Taken(w, pieces[0]), pieces[1..])
  }

  lemma WalkedFirst(w: Walk, piece: string, rest: seq<string>)
    ensures Walked(w, [piece] + rest) == Walked(Taken(w, piece), rest)
    ensures Walked(w, [piece]) == Taken(w, piece)
  {
    assert ([piece] + rest)[1..] == rest;
  }

  /** AppendVirtualPathSegments. */
  method AppendVirtualPathSegments(path: string, onto: seq<string>) returns (segments: seq<string>, stayedWithin: bool)
    ensures Walk(segments, stayedWithin) == Walked(Walk(onto, true), Pieces(path))
    ensures stayedWithin <==> !Climbs(|onto|, Pieces(path))
  {
    hide Walked, Taken, Pieces, Climbs;
    segments, stayedWithin := onto, true;
    var segment := "";
    assert "" + path[0..] == path;
    for i := 0 to |path|
      invariant '/' !in segment
      invariant Walked(Walk(onto, true), Pieces(path))
             == Walked(Walk(segments, stayedWithin), Pieces(segment + path[i..]))
    {
      if path[i] == '/' {
        SegmentEnds(Walk(segments, stayedWithin), segment, path, i);
        segments, stayedWithin := EndSegment(segments, stayedWithin, segment);
        segment := "";
      } else {
        assert segment + path[i..] == segment + [path[i]] + path[i + 1..];
        segment := segment + [path[i]];
      }
    }
    LastSegmentEnds(Walk(segments, stayedWithin), segment, path);
    segments, stayedWithin := EndSegment(segments, stayedWithin, segment);
    ClimbingIsNoticed(onto, Pieces(path));
  }

  lemma SegmentEnds(w: Walk, segment: string, path: string, i: nat)
    requires i < |path| && path[i] == '/' && '/' !in segment
    ensures Walked(w, Pieces(segment + path[i..])) == Walked(Taken(w, segment), Pieces("" + path[i + 1..]))
  {
    hide Walked, Taken, Pieces;
    PieceEnds(segment, path[i + 1..]);
    assert segment + path[i..] == segment + ['/'] + path[i + 1..];
    assert "" + path[i + 1..] == path[i + 1..];
    WalkedFirst(w, segment, Pieces(path[i + 1..]));
  }

  lemma LastSegmentEnds(w: Walk, segment: string, path: string)
    requires '/' !in segment
    ensures Walked(w, Pieces(segment + path[|path|..])) == Taken(w, segment)
  {
    hide Walked, Taken, Pieces;
    assert segment + path[|path|..] == segment;
    OnePiece(segment);
    WalkedFirst(w, segment, []);
  }

  /** What the loop does at a separator and at the end. */
  method EndSegment(before: seq<string>, within: bool, segment: string) returns (segments: seq<string>, stayedWithin: bool)
    ensures Walk(segments, stayedWithin) == Taken(Walk(before, within), segment)
  {
    segments, stayedWithin := before, within;
    if segment == ".." {
      if segments == [] {
        stayedWithin := false;
      } else {
        segments := segments[..|segments| - 1];
      }
    } else if segment != "" && segment != "." {
      segments := segments + [segment];
    }
  }

  lemma {:induction false} OnePiece(s: string)
    requires '/' !in s
    ensures Pieces(s) == [s]
  {
    if s != "" {
      OnePiece(s[1..]);
      assert [s[0]] + s[1..] == s;
    }
  }

  /** A separator ends a piece. */
  lemma {:induction false} PieceEnds(s: string, rest: string)
    requires '/' !in s
    ensures Pieces(s + ['/'] + rest) == [s] + Pieces(rest)
  {
    var path := s + ['/'] + rest;
    if s == "" {
      assert path[1..] == rest;
    } else {
      PieceEnds(s[1..], rest);
      assert path[1..] == s[1..] + ['/'] + rest && path[0] == s[0];
      assert [s[0]] + s[1..] == s;
    }
  }

  /** Two paths joined by a separator have the pieces of one and then of the other. */
  lemma {:induction false} PiecesJoin(a: string, b: string)
    ensures Pieces(a + "/" + b) == Pieces(a) + Pieces(b)
  {
    var path := a + "/" + b;
    if a == "" {
      assert path[1..] == b;
    } else {
      PiecesJoin(a[1..], b);
      assert path[1..] == a[1..] + "/" + b && path[0] == a[0];
      assert Pieces(path) == FirstPiece(a[0], Pieces(a[1..]) + Pieces(b));
      assert Pieces(a) == FirstPiece(a[0], Pieces(a[1..]));
      hide Pieces;
      FirstOfTwo(a[0], Pieces(a[1..]), Pieces(b));
    }
  }

  /** What one character more in front does to the pieces. */
  function FirstPiece(c: char, rest: seq<string>): seq<string>
    requires rest != []
  {
    if c == '/' then [""] + rest else [[c] + rest[0]] + rest[1..]
  }

  lemma FirstOfTwo(c: char, a: seq<string>, b: seq<string>)
    requires a != []
    ensures FirstPiece(c, a + b) == FirstPiece(c, a) + b
  {
    assert (a + b)[1..] == a[1..] + b;
  }

  lemma {:induction false} WalkedOn(w: Walk, a: seq<string>, b: seq<string>)
    ensures Walked(w, a + b) == Walked(Walked(w, a), b)
    decreases |a|
  {
    if a == [] {
      assert a + b == b;
    } else {
      WalkedOn(Taken(w, a[0]), a[1..], b);
      assert (a + b)[1..] == a[1..] + b;
    }
  }

  /** Whatever is walked, what is kept are segments. */
  lemma {:induction false} WalkKeepsSegments(w: Walk, pieces: seq<string>)
    requires AreSegments(w.segments) && forall i :: 0 <= i < |pieces| ==> '/' !in pieces[i]
    ensures AreSegments(Walked(w, pieces).segments)
    decreases |pieces|
  {
    if pieces != [] {
      WalkKeepsSegments(Taken(w, pieces[0]), pieces[1..]);
    }
  }

  // ---- Normalizing ------------------------------------------------------------------------------

  /** Where a path leads from a directory, as segments from the root. */
  function Resolved(path: string, from: seq<string>): seq<string>
  {
    Walked(Walk(if path == "" || path[0] != '/' then from else [], true), Pieces(path)).segments
  }

  /** Each segment after a '/'. */
  function Slashed(ss: seq<string>): string
  {
    if ss == [] then "" else "/" + ss[0] + Slashed(ss[1..])
  }

  /** The normalized path of some segments. */
  function Render(ss: seq<string>): string
  {
    if ss == [] then "/" else Slashed(ss)
  }

  function Normalize(path: string, base: string): string
  {
    Render(Resolved(path, Resolved("/" + base, [])))
  }

  /** NormalizeVirtualPath. */
  method NormalizeVirtualPath(path: string, base: string) returns (normalized: string)
    ensures normalized == Normalize(path, base)
  {
    hide Walked, Pieces;
    var segments: seq<string> := [];
    var within;
    if path == "" || path[0] != '/' {
      segments, within := AppendVirtualPathSegments(base, segments);
      RootedIsSame(base);
    }
    segments, within := AppendVirtualPathSegments(path, segments);
    if segments == [] {
      return "/";
    }
    normalized := "";
    for i := 0 to |segments|
      invariant normalized + Slashed(segments[i..]) == Slashed(segments)
    {
      assert segments[i..][1..] == segments[i + 1..];
      normalized := normalized + "/" + segments[i];
    }
  }

  /** The base is taken from the root with or without a '/' before it. */
  lemma RootedIsSame(base: string)
    ensures Resolved("/" + base, []) == Walked(Walk([], true), Pieces(base)).segments
  {
    PiecesJoin("", base);
    assert "" + "/" + base == "/" + base;
  }

  lemma ResolvedAreSegments(path: string, from: seq<string>)
    requires AreSegments(from)
    ensures AreSegments(Resolved(path, from))
  {
    WalkKeepsSegments(Walk(if path == "" || path[0] != '/' then from else [], true), Pieces(path));
  }

  /** Pieces that are segments are kept as they are. */
  lemma {:induction false} SegmentsAreKept(w: Walk, ss: seq<string>)
    requires AreSegments(ss)
    ensures Walked(w, ss) == w.(segments := w.segments + ss)
    decreases |ss|
  {
    if ss != [] {
      SegmentsAreKept(Taken(w, ss[0]), ss[1..]);
      assert w.segments + ss == w.segments + [ss[0]] + ss[1..];
    } else {
      assert w.segments + ss == w.segments;
    }
  }

  lemma {:induction false} PiecesOfSlashed(ss: seq<string>)
    requires AreSegments(ss)
    ensures Pieces(Slashed(ss)) == [""] + ss
  {
    if ss == [] {
      EmptyIsOnePiece();
    } else {
      PiecesOfSlashed(ss[1..]);
      SlashFirst(ss[1..]);
      assert IsSegment(ss[0]) && ss == [ss[0]] + ss[1..];
      hide AreSegments, Pieces;
      OnePieceMore(ss[0], Slashed(ss[1..]), ss[1..]);
    }
  }

  lemma OnePieceMore(name: string, rest: string, more: seq<string>)
    requires '/' !in name && (rest == "" || rest[0] == '/') && Pieces(rest) == [""] + more
    ensures Pieces("/" + name + rest) == [""] + ([name] + more)
  {
    hide Pieces;
    PiecesOfNext(name, rest);
    assert "/" + name + rest == "/" + (name + rest);
    SlashPieces(name + rest);
    if rest == "" {
      EmptyIsOnePiece();
      SameRest([], more);
      assert [name] + more == [name];
    } else {
      SameRest(Pieces(rest[1..]), more);
    }
  }

  lemma SlashPieces(s: string)
    ensures Pieces("/" + s) == [""] + Pieces(s)
  {
    assert ("/" + s)[1..] == s;
  }

  lemma SameRest(a: seq<string>, b: seq<string>)
    requires [""] + a == [""] + b
    ensures a == b
  {
    assert ([""] + a)[1..] == a && ([""] + b)[1..] == b;
  }

  lemma EmptyIsOnePiece()
    ensures Pieces("") == [""] + []
  {
  }

  /** A name and what follows it from a separator on. */
  lemma PiecesOfNext(name: string, rest: string)
    requires '/' !in name && (rest == "" || rest[0] == '/')
    ensures rest == "" ==> Pieces(name + rest) == [name]
    ensures rest != "" ==> Pieces(rest) == [""] + Pieces(rest[1..]) && Pieces(name + rest) == [name] + Pieces(rest[1..])
  {
    if rest == "" {
      OnePiece(name);
      assert name + rest == name;
    } else {
      PieceEnds(name, rest[1..]);
      assert name + rest == name + ['/'] + rest[1..];
    }
  }

  /** A normalized path resolves to its own segments: normalizing is canonical. */
  lemma RenderResolves(ss: seq<string>, from: seq<string>)
    requires AreSegments(ss)
    ensures Resolved(Render(ss), from) == ss
  {
    if ss == [] {
      assert Pieces("/") == ["", ""];
      assert Walked(Walk([], true), ["", ""]) == Walk([], true);
    } else {
      PiecesOfSlashed(ss);
      assert ([""] + ss)[1..] == ss;
      SegmentsAreKept(Walk([], true), ss);
      assert [] + ss == ss;
    }
  }

  /** Different segments have different normalized paths. */
  lemma RenderInjective(a: seq<string>, b: seq<string>)
    requires AreSegments(a) && AreSegments(b) && Render(a) == Render(b)
    ensures a == b
  {
    RenderResolves(a, []);
    RenderResolves(b, []);
  }

  ghost predicate Normal(path: string)
  {
    exists ss :: AreSegments(ss) && path == Render(ss)
  }

  lemma NormalizeIsNormal(path: string, base: string)
    ensures Normal(Normalize(path, base))
  {
    ResolvedAreSegments("/" + base, []);
    ResolvedAreSegments(path, Resolved("/" + base, []));
  }

  /** Paths that filesystems are given are taken from the root. */
  lemma NormalizeAtRoot(path: string)
    ensures Normalize(path, "/") == Render(Resolved(path, []))
  {
    assert Pieces("//") == ["", "", ""];
    assert Walked(Walk([], true), ["", "", ""]) == Walk([], true);
  }

  /** Normalizing twice, from anywhere, is normalizing once. */
  lemma NormalizeIsIdempotent(path: string, base: string, base': string)
    ensures Normalize(Normalize(path, base), base') == Normalize(path, base)
  {
    ResolvedAreSegments("/" + base, []);
    var ss := Resolved(path, Resolved("/" + base, []));
    ResolvedAreSegments(path, Resolved("/" + base, []));
    RenderResolves(ss, Resolved("/" + base', []));
  }

  /** Splitting a + "/" + b is splitting b on top of a. */
  lemma SplitJoins(a: string, b: string, w: Walk)
    ensures Walked(w, Pieces(a + "/" + b)) == Walked(Walked(w, Pieces(a)), Pieces(b))
  {
    PiecesJoin(a, b);
    WalkedOn(w, Pieces(a), Pieces(b));
  }

  /** Whether the walk ever climbed above its start has no say in where it ends. */
  lemma {:induction false} WithinHasNoSay(ss: seq<string>, within: bool, pieces: seq<string>)
    ensures Walked(Walk(ss, within), pieces).segments == Walked(Walk(ss, true), pieces).segments
    decreases |pieces|
  {
    if pieces != [] {
      var (a, b) := (Taken(Walk(ss, within), pieces[0]), Taken(Walk(ss, true), pieces[0]));
      WithinHasNoSay(a.segments, a.within, pieces[1..]);
      WithinHasNoSay(b.segments, b.within, pieces[1..]);
    }
  }

  /** `cd a` and then `cd b`, b relative, lands where `cd a/b` does. */
  lemma ChangingDirectoryComposes(a: string, b: string, from: seq<string>)
    requires a != "" && (b == "" || b[0] != '/')
    ensures Resolved(b, Resolved(a, from)) == Resolved(a + "/" + b, from)
  {
    var w := Walk(if a[0] != '/' then from else [], true);
    SplitJoins(a, b, w);
    assert (a + "/" + b)[0] == a[0];
    var after := Walked(w, Pieces(a));
    WithinHasNoSay(after.segments, after.within, Pieces(b));
  }

  /** The same of the paths a process keeps as its working directory. */
  lemma WorkingDirectoryComposes(a: string, b: string, base: string)
    requires a != "" && (b == "" || b[0] != '/')
    ensures Normalize(b, Normalize(a, base)) == Normalize(a + "/" + b, base)
  {
    var from := Resolved("/" + base, []);
    ResolvedAreSegments("/" + base, []);
    ResolvedAreSegments(a, from);
    var ss := Resolved(a, from);
    RootedIsSame(Render(ss));
    RenderResolves(ss, []);
    hide Pieces, Walked;
    ChangingDirectoryComposes(a, b, from);
  }

  // ---- Bases and parents --------------------------------------------------------------------------

  function RelativeToBase(base: string, path: string): Option<string>
  {
    if path == base then Some("/")
    else
      var prefix := if base == "/" then "/" else base + "/";
      if prefix <= path then Some(path[|prefix| - 1..]) else None
  }

  lemma SlashFirst(ss: seq<string>)
    ensures ss == [] || (Slashed(ss) != "" && Slashed(ss)[0] == '/')
  {
  }

  /** Names without separators, each followed by one or by nothing, agree when one text starts the other. */
  lemma SameName(a: string, x: string, b: string, y: string)
    requires '/' !in a && '/' !in b && x != "" && x[0] == '/' && (y == "" || y[0] == '/')
    requires a + x <= b + y
    ensures a == b && x <= y
  {
    var (l, r) := (a + x, b + y);
    assert forall i :: 0 <= i < |l| ==> l[i] == r[i];
    assert forall i :: 0 <= i < |a| ==> l[i] == a[i] && a[i] in a;
    assert forall i :: 0 <= i < |b| ==> r[i] == b[i] && b[i] in b;
    assert l[|a|] == '/' && (y != "" ==> r[|b|] == '/');
    assert |a| == |b|;
    assert a == l[..|a|] && b == r[..|b|] && x == l[|a|..] && y == r[|b|..];
  }

  /** A path below another is rendered with the other's text and a '/' in front. */
  lemma {:induction false} SlashedPrefix(b: seq<string>, p: seq<string>)
    requires AreSegments(b) && AreSegments(p)
    ensures Slashed(b) + "/" <= Slashed(p) <==> b < p
  {
    if b == [] {
      SlashFirst(p);
    } else if p != [] {
      SlashedPrefix(b[1..], p[1..]);
      SlashFirst(b[1..]);
      SlashFirst(p[1..]);
      SlashedStep(b[0], Slashed(b[1..]), p[0], Slashed(p[1..]));
      assert b < p <==> b[0] == p[0] && b[1..] < p[1..] by { Heads(b, p); }
      hide Slashed, AreSegments;
    }
  }

  lemma SlashedStep(a: string, x: string, b: string, y: string)
    requires IsSegment(a) && IsSegment(b) && (x == "" || x[0] == '/') && (y == "" || y[0] == '/')
    ensures "/" + a + x + "/" <= "/" + b + y <==> a == b && x + "/" <= y
  {
    var (l, r) := (a + (x + "/"), b + y);
    assert "/" + a + x + "/" == "/" + l && "/" + b + y == "/" + r;
    assert "/" + l <= "/" + r <==> l <= r by { Tails('/', l, r); }
    if l <= r {
      SameName(a, x + "/", b, y);
    }
  }

  lemma Tails(c: char, l: string, r: string)
    ensures [c] + l <= [c] + r <==> l <= r
  {
    assert ([c] + l)[1..] == l && ([c] + r)[1..] == r;
    if [c] + l <= [c] + r {
      assert forall i :: 0 <= i < |l| ==> l[i] == ([c] + l)[i + 1] && r[i] == ([c] + r)[i + 1];
    }
  }

  lemma Heads(b: seq<string>, p: seq<string>)
    requires b != [] && p != []
    ensures b < p <==> b[0] == p[0] && b[1..] < p[1..]
    ensures b <= p <==> b[0] == p[0] && b[1..] <= p[1..]
  {
    assert b == [b[0]] + b[1..] && p == [p[0]] + p[1..];
  }

  lemma {:induction false} SlashedAdds(a: seq<string>, b: seq<string>)
    ensures Slashed(a + b) == Slashed(a) + Slashed(b)
  {
    if a == [] {
      assert a + b == b;
    } else {
      SlashedAdds(a[1..], b);
      assert (a + b)[1..] == a[1..] + b;
    }
  }

  lemma SlashedBase(b: seq<string>, p: seq<string>)
    requires b <= p
    ensures Slashed(p) == Slashed(b) + Slashed(p[|b|..])
  {
    assert p == b + p[|b|..];
    SlashedAdds(b, p[|b|..]);
  }

  /** RelativeToBase gives the rest of the path exactly when the base is above it or is it. */
  lemma RelativeIs(b: seq<string>, p: seq<string>)
    requires AreSegments(b) && AreSegments(p)
    ensures RelativeToBase(Render(b), Render(p)) == if b <= p then Some(Render(p[|b|..])) else None
  {
    hide *;
    if b == p {
      RelativeToItself(p);
    } else {
      if Render(b) == Render(p) {
        RenderInjective(b, p);
      }
      if b == [] {
        RelativeToRoot(p);
      } else {
        RelativeToAnother(b, p);
      }
    }
  }

  lemma RelativeToItself(p: seq<string>)
    ensures RelativeToBase(Render(p), Render(p)) == Some(Render(p[|p|..]))
  {
    assert p[|p|..] == [];
  }

  lemma RelativeToRoot(p: seq<string>)
    requires Render([]) != Render(p)
    ensures RelativeToBase(Render([]), Render(p)) == Some(Render(p[0..]))
  {
    SlashFirst(p);
    assert p[0..] == p && Render(p)[0..] == Render(p);
  }

  lemma RelativeToAnother(b: seq<string>, p: seq<string>)
    requires AreSegments(b) && AreSegments(p) && b != [] && b != p && Render(b) != Render(p)
    ensures RelativeToBase(Render(b), Render(p)) == if b <= p then Some(Render(p[|b|..])) else None
  {
    hide Slashed, AreSegments;
    SlashedPrefix(b, p);
    SlashedIsLong(b);
    if b < p {
      SlashedBase(b, p);
      assert Slashed(p)[|Slashed(b)|..] == Slashed(p[|b|..]);
    }
    assert p == [] ==> !(Slashed(b) + "/" <= Render(p));
  }

  lemma SlashedIsLong(b: seq<string>)
    requires AreSegments(b) && b != []
    ensures |Slashed(b)| >= 2
  {
    assert IsSegment(b[0]);
  }

  /** RelativeToBase undoes putting a base in front. */
  lemma RelativeUndoes(b: seq<string>, inner: seq<string>)
    requires AreSegments(b) && AreSegments(inner)
    ensures RelativeToBase(Render(b), Render(b + inner)) == Some(Render(inner))
  {
    RelativeIs(b, b + inner);
    assert (b + inner)[|b|..] == inner;
  }

  /** Where the last '/' is. */
  function LastSlash(path: string): (r: Option<nat>)
    ensures r.Some? ==> r.value < |path| && path[r.value] == '/' && forall i :: r.value < i < |path| ==> path[i] != '/'
    ensures r.None? ==> '/' !in path
  {
    if path == "" then None
    else if path[|path| - 1] == '/' then Some(|path| - 1)
    else LastSlash(path[..|path| - 1])
  }

  function VirtualParentOf(path: string): string
  {
    match LastSlash(path)
    case None => "/"
    case Some(pos) => if pos == 0 then "/" else path[..pos]
  }

  function VirtualLastSegment(path: string): string
  {
    match LastSlash(path)
    case None => path
    case Some(pos) => path[pos + 1..]
  }

  lemma LastSlashIs(path: string, pos: nat)
    requires pos < |path| && path[pos] == '/' && forall i :: pos < i < |path| ==> path[i] != '/'
    ensures LastSlash(path) == Some(pos)
  {
    assert '/' in path;
  }

  lemma AfterLastSlash(a: string, last: string)
    requires '/' !in last
    ensures var path := a + "/" + last;
            LastSlash(path) == Some(|a|) && path[..|a|] == a && path[|a| + 1..] == last
  {
    var path := a + "/" + last;
    assert path[..|a|] == a && path[|a| + 1..] == last;
    assert forall i :: |a| < i < |path| ==> path[i] == last[i - |a| - 1] && last[i - |a| - 1] in last;
    LastSlashIs(path, |a|);
  }

  lemma {:induction false} SlashedSnoc(up: seq<string>, last: string)
    ensures Slashed(up + [last]) == Slashed(up) + "/" + last
  {
    SlashedAdds(up, [last]);
    assert Slashed([last]) == "/" + last by { assert [last][1..] == []; }
  }

  /** The parent of a path has all its segments but the last; the root's is the root. */
  lemma ParentIs(ss: seq<string>)
    requires AreSegments(ss)
    ensures ss == [] ==> VirtualParentOf(Render(ss)) == "/" && VirtualLastSegment(Render(ss)) == ""
    ensures ss != [] ==> VirtualParentOf(Render(ss)) == Render(ss[..|ss| - 1])
    ensures ss != [] ==> VirtualLastSegment(Render(ss)) == ss[|ss| - 1]
  {
    if ss == [] {
      LastSlashIs("/", 0);
    } else {
      var (up, last) := (ss[..|ss| - 1], ss[|ss| - 1]);
      assert IsSegment(last) && ss == up + [last];
      SlashFirst(up);
      assert Slashed(up) == "" <==> up == [];
      hide Slashed, LastSlash;
      SlashedSnoc(up, last);
      AfterLastSlash(Slashed(up), last);
    }
  }

  // ---- One piece at a time --------------------------------------------------------------------

  /** Relative to a normalized path: "..", a name, and what stays where it is. An absolute path leaves its base aside. */
  lemma EachPieceLeads(ss: seq<string>, name: string, path: string, base: string)
    requires AreSegments(ss) && IsSegment(name)
    ensures Normalize("..", Render(ss)) == VirtualParentOf(Render(ss))
    ensures Normalize(name, Render(ss)) == Render(ss + [name])
    ensures Normalize(".", Render(ss)) == Normalize("", Render(ss)) == Render(ss)
    ensures Normalize("/" + path, base) == Normalize(path, "/")
  {
    hide *;
    FromRendered(ss);
    NameIsPlain(name);
    OnePieceLeads("..", ss);
    OnePieceLeads(name, ss);
    OnePieceLeads(".", ss);
    OnePieceLeads("", ss);
    ParentIs(ss);
    RootedLeads(path, base);
    var up := if ss == [] then [] else ss[..|ss| - 1];
    NormalizedTo("..", ss, up);
    NormalizedTo(name, ss, ss + [name]);
    NormalizedTo(".", ss, ss);
    NormalizedTo("", ss, ss);
    RenderedRoot();
  }

  lemma RenderedRoot()
    ensures Render([]) == "/"
  {
  }

  lemma NameIsPlain(name: string)
    requires IsSegment(name)
    ensures name != "" && name != "." && name != ".." && '/' !in name
  {
  }

  lemma FromRendered(ss: seq<string>)
    requires AreSegments(ss)
    ensures Resolved("/" + Render(ss), []) == ss
  {
    hide Pieces, Walked;
    RootedIsSame(Render(ss));
    RenderResolves(ss, []);
  }

  lemma NormalizedTo(path: string, ss: seq<string>, after: seq<string>)
    requires Resolved("/" + Render(ss), []) == ss && Resolved(path, ss) == after
    ensures Normalize(path, Render(ss)) == Render(after)
  {
  }

  /** A path without separators. */
  lemma OnePieceLeads(piece: string, from: seq<string>)
    requires '/' !in piece
    ensures Resolved(piece, from) ==
              if piece == ".." then (if from == [] then [] else from[..|from| - 1])
              else if piece == "" || piece == "." then from else from + [piece]
  {
    OnePiece(piece);
    WalkedFirst(Walk(from, true), piece, []);
    hide Pieces, Walked;
  }

  lemma RootedLeads(path: string, base: string)
    ensures Normalize("/" + path, base) == Normalize(path, "/")
  {
    RootedIsSame(path);
    NormalizeAtRoot(path);
    assert Resolved(path, []) == Walked(Walk([], true), Pieces(path)).segments;
    hide Pieces, Walked;
    assert ("/" + path)[0] == '/';
  }

  /** How many of the pieces are "..", and how many are names. */
  function Ups(pieces: seq<string>): nat
  {
    if pieces == [] then 0 else (if pieces[0] == ".." then 1 else 0) + Ups(pieces[1..])
  }

  function Names(pieces: seq<string>): nat
  {
    if pieces == [] then 0
    else (if pieces[0] != "" && pieces[0] != "." && pieces[0] != ".." then 1 else 0) + Names(pieces[1..])
  }

  /** At some point more ".." have been met than there were segments and names. */
  ghost predicate Climbs(depth: nat, pieces: seq<string>)
  {
    exists k :: 0 <= k <= |pieces| && ClimbsAt(depth, pieces, k)
  }

  predicate ClimbsAt(depth: nat, pieces: seq<string>, k: nat)
    requires k <= |pieces|
  {
    Ups(pieces[..k]) > depth + Names(pieces[..k])
  }

  lemma ClimbsLater(depth: nat, pieces: seq<string>, k: nat)
    requires pieces != [] && 1 <= k <= |pieces|
    ensures pieces[0] != ".." ==>
              (ClimbsAt(depth, pieces, k) <==>
                 ClimbsAt(if pieces[0] == "" || pieces[0] == "." then depth else depth + 1, pieces[1..], k - 1))
    ensures pieces[0] == ".." && depth > 0 ==> (ClimbsAt(depth, pieces, k) <==> ClimbsAt(depth - 1, pieces[1..], k - 1))
  {
    assert pieces[..k][1..] == pieces[1..][..k - 1];
  }

  /** The walk is never back within once it has climbed out. */
  lemma {:induction false} NeverBackWithin(w: Walk, pieces: seq<string>)
    requires !w.within
    ensures !Walked(w, pieces).within
    decreases |pieces|
  {
    if pieces != [] {
      NeverBackWithin(Taken(w, pieces[0]), pieces[1..]);
    }
  }

  /** A path is said to climb above its start exactly when some of its pieces up to a point do. */
  lemma {:induction false} ClimbingIsNoticed(from: seq<string>, pieces: seq<string>)
    ensures Walked(Walk(from, true), pieces).within <==> !Climbs(|from|, pieces)
    decreases |pieces|
  {
    if pieces == [] {
      assert pieces[..0] == [];
    } else {
      var w := Taken(Walk(from, true), pieces[0]);
      if pieces[0] == ".." && from == [] {
        assert pieces[..1] == [".."] && [".."][1..] == [];
        assert ClimbsAt(0, pieces, 1);
        NeverBackWithin(w, pieces[1..]);
      } else {
        ClimbingIsNoticed(w.segments, pieces[1..]);
        ClimbsTogether(|from|, |w.segments|, pieces);
      }
    }
  }

  lemma ClimbsTogether(depth: nat, depth': nat, pieces: seq<string>)
    requires pieces != [] && !(pieces[0] == ".." && depth == 0)
    requires depth' == if pieces[0] == ".." then depth - 1 else if pieces[0] == "" || pieces[0] == "." then depth else depth + 1
    ensures Climbs(depth, pieces) <==> Climbs(depth', pieces[1..])
  {
    assert !ClimbsAt(depth, pieces, 0);
    hide ClimbsAt;
    forall k | 1 <= k <= |pieces|
      ensures ClimbsAt(depth, pieces, k) <==> ClimbsAt(depth', pieces[1..], k - 1)
    {
      ClimbsLater(depth, pieces, k);
    }
    if k :| 0 <= k <= |pieces[1..]| && ClimbsAt(depth', pieces[1..], k) {
      assert ClimbsAt(depth, pieces, k + 1);
    }
  }
}
