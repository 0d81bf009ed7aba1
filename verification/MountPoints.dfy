/**
 Mount tables, overlays and sub-paths (src/components/Filesystem/MountPoints.cpp, ComposedFileSystem.cpp,
 SubFileSystem.cpp): which filesystem a path goes to, and as which path.
 */
module MountPoints {
  import opened Basics
  import opened VirtualPath

  type FileSystem = nat

  /** Where a path goes: the filesystem mounted there and the path inside it. */
  datatype Route = Route(filesystem: FileSystem, innerPath: string)

  /** "/a/b" is at or under "/a/b" and "/", but not under "/a/bc". */
  predicate IsAtOrUnder(path: string, mountPoint: string)
  {
    if mountPoint == "/" then true
    else if !(mountPoint <= path) then false
    else |path| == |mountPoint| || path[|mountPoint|] == '/'
  }

  /** That is what it says of segments. */
  lemma AtOrUnderIs(p: seq<string>, m: seq<string>)
    requires AreSegments(p) && AreSegments(m)
    ensures IsAtOrUnder(Render(p), Render(m)) <==> m <= p
  {
    if m != [] {
      var (t, r) := (Render(m), Render(p));
      SlashFirst(p);
      assert IsSegment(m[0]) && |t| >= 2;
      SlashedPrefix(m, p);
      assert t + "/" <= r <==> m < p by { assert p == [] ==> r == "/"; }
      assert t == r <==> m == p by { if t == r { RenderInjective(m, p); } }
      hide Slashed, AreSegments;
      PrefixOrLonger(t, r);
    }
  }

  lemma PrefixOrLonger(t: string, r: string)
    ensures t <= r && (|r| == |t| || r[|t|] == '/') <==> t == r || t + "/" <= r
  {
    if t <= r && |r| != |t| && r[|t|] == '/' {
      assert r[..|t| + 1] == t + "/";
    }
    if t + "/" <= r {
      assert r[..|t| + 1] == t + "/";
      assert r[..|t|] == (t + "/")[..|t|] == t;
    }
  }

  // ---- What a mount table means -----------------------------------------------------------------------

  type Table = map<string, FileSystem>

  /** The mount on the longest of the path's first `n` segments that is a mount point. */
  function Innermost(table: Table, path: seq<string>, n: nat): Option<Route>
    requires n <= |path|
  {
    if Render(path[..n]) in table then Some(Route(table[Render(path[..n])], Render(path[n..])))
    else if n == 0 then None
    else Innermost(table, path, n - 1)
  }

  function Routed(table: Table, path: seq<string>): Option<Route>
  {
    Innermost(table, path, |path|)
  }

  /** The innermost mount is the one with the longest text of those the path is at or under. */
  lemma {:induction false} InnermostIsLongest(table: Table, path: seq<string>, n: nat, m: seq<string>)
    requires AreSegments(path) && AreSegments(m) && n <= |path|
    requires Render(m) in table && m <= path && |m| <= n
    requires forall k :: |m| < k <= n ==> Render(path[..k]) !in table
    ensures Innermost(table, path, n) == Some(Route(table[Render(m)], Render(path[|m|..])))
  {
    if |m| == n {
      assert path[..n] == m;
    } else {
      InnermostIsLongest(table, path, n - 1, m);
    }
  }

  lemma {:induction false} NoneInnermost(table: Table, path: seq<string>, n: nat)
    requires n <= |path| && forall k :: 0 <= k <= n ==> Render(path[..k]) !in table
    ensures Innermost(table, path, n) == None
  {
    if n > 0 {
      NoneInnermost(table, path, n - 1);
    }
  }

  /** A deeper path has the longer text. */
  lemma LongerText(a: seq<string>, b: seq<string>)
    requires AreSegments(a) && AreSegments(b) && a < b
    ensures |Render(a)| < |Render(b)|
  {
    SlashedPrefix(a, b);
    SlashFirst(b);
    assert b != [];
    if a == [] {
      assert IsSegment(b[0]);
    }
  }

  /** The route splits the path: mount point and inner path joined give it back. */
  lemma {:induction false} RouteSplitsPath(table: Table, path: seq<string>, n: nat)
    requires AreSegments(path) && n <= |path| && Innermost(table, path, n).Some?
    ensures exists k :: 0 <= k <= n && Render(path[..k]) in table
                     && Innermost(table, path, n).value == Route(table[Render(path[..k])], Render(path[k..]))
                     && path[..k] + path[k..] == path
                     && RelativeToBase(Render(path[..k]), Render(path)) == Some(Innermost(table, path, n).value.innerPath)
  {
    if Render(path[..n]) in table {
      assert path[..n] + path[n..] == path;
      RelativeIs(path[..n], path);
    } else {
      RouteSplitsPath(table, path, n - 1);
    }
  }

  // ---- The table itself --------------------------------------------------------------------------------

  datatype Entry = Entry(path: string, filesystem: FileSystem)

  ghost predicate LongestFirst(mounts: seq<Entry>)
  {
    forall i, j :: 0 <= i < j < |mounts| ==> |mounts[i].path| >= |mounts[j].path|
  }

  ghost predicate Distinct(mounts: seq<Entry>)
  {
    forall i, j :: 0 <= i < j < |mounts| ==> mounts[i].path != mounts[j].path
  }

  function TableOf(mounts: seq<Entry>): Table
  {
    if mounts == [] then map[] else TableOf(mounts[1..])[mounts[0].path := mounts[0].filesystem]
  }

  /** The table holds just the entries. */
  ghost predicate Holds(mounts: seq<Entry>, table: Table)
  {
    forall e: Entry :: e in mounts <==> e.path in table && table[e.path] == e.filesystem
  }

  lemma {:induction false} TableHolds(mounts: seq<Entry>)
    requires Distinct(mounts)
    ensures Holds(mounts, TableOf(mounts))
  {
    if mounts != [] {
      TableHolds(mounts[1..]);
      var (first, rest) := (mounts[0], mounts[1..]);
      assert mounts == [first] + rest;
      assert forall e :: e in mounts <==> e == first || e in rest;
      assert forall e :: e in rest ==> e.path != first.path by {
        assert forall i :: 0 <= i < |rest| ==> rest[i] == mounts[i + 1];
      }
    }
  }

  lemma HoldsOne(mounts: seq<Entry>, a: Table, b: Table)
    requires Holds(mounts, a) && Holds(mounts, b)
    ensures a == b
  {
    forall p | p in a
      ensures p in b && b[p] == a[p]
    {
      assert Entry(p, a[p]) in mounts;
    }
    forall p | p in b
      ensures p in a
    {
      assert Entry(p, b[p]) in mounts;
    }
  }

  /** A table that holds just the entries is their table. */
  lemma TableIs(mounts: seq<Entry>, table: Table)
    requires Distinct(mounts) && Holds(mounts, table)
    ensures TableOf(mounts) == table
  {
    TableHolds(mounts);
    hide Holds, TableOf;
    HoldsOne(mounts, TableOf(mounts), table);
  }

  lemma InTableIsEntry(mounts: seq<Entry>, table: Table, path: string)
    requires Holds(mounts, table)
    ensures path in table ==> exists e :: e in mounts && e.path == path
  {
    if path in table {
      assert Entry(path, table[path]) in mounts;
    }
  }

  ghost predicate SameEntries(a: seq<Entry>, b: seq<Entry>)
  {
    forall e: Entry :: e in a <==> e in b
  }

  function Inserted(mounts: seq<Entry>, j: nat, e: Entry): seq<Entry>
    requires j <= |mounts|
  {
    mounts[..j] + [e] + mounts[j..]
  }

  lemma InsertedIn(mounts: seq<Entry>, j: nat, e: Entry)
    requires j <= |mounts|
    ensures forall x :: x in Inserted(mounts, j, e) <==> x in mounts || x == e
  {
    assert mounts == mounts[..j] + mounts[j..];
  }

  lemma InsertedDistinct(mounts: seq<Entry>, j: nat, e: Entry)
    requires j <= |mounts| && Distinct(mounts) && forall i :: 0 <= i < |mounts| ==> mounts[i].path != e.path
    ensures Distinct(Inserted(mounts, j, e))
  {
    var after := Inserted(mounts, j, e);
    assert forall i :: 0 <= i < |after| ==> after[i] == if i < j then mounts[i] else if i == j then e else mounts[i - 1];
    hide Inserted;
  }

  /** std::sort by length, longest first; entries of one length may end in any order. */
  method SortLongestFirst(mounts: seq<Entry>) returns (sorted: seq<Entry>)
    requires Distinct(mounts)
    ensures SameEntries(sorted, mounts) && Distinct(sorted) && LongestFirst(sorted)
  {
    sorted := [];
    for i := 0 to |mounts|
      invariant SameEntries(sorted, mounts[..i]) && Distinct(sorted) && LongestFirst(sorted)
    {
      var j := 0;
      while j < |sorted| && |sorted[j].path| > |mounts[i].path|
        invariant j <= |sorted|
        invariant forall k :: 0 <= k < j ==> |sorted[k].path| > |mounts[i].path|
      {
        j := j + 1;
      }
      InsertionSorts(mounts, i, sorted, j);
      sorted := Inserted(sorted, j, mounts[i]);
    }
    assert mounts[..|mounts|] == mounts;
  }

  lemma InsertionKeepsOrder(sorted: seq<Entry>, j: nat, e: Entry)
    requires j <= |sorted| && LongestFirst(sorted)
    requires forall k :: 0 <= k < j ==> |sorted[k].path| > |e.path|
    requires j < |sorted| ==> |sorted[j].path| <= |e.path|
    ensures LongestFirst(Inserted(sorted, j, e))
  {
    var after := Inserted(sorted, j, e);
    assert forall k :: 0 <= k < |after| ==> after[k] == if k < j then sorted[k] else if k == j then e else sorted[k - 1];
    hide Inserted;
  }

  lemma InsertionSorts(mounts: seq<Entry>, i: nat, sorted: seq<Entry>, j: nat)
    requires i < |mounts| && j <= |sorted| && Distinct(mounts)
    requires SameEntries(sorted, mounts[..i]) && Distinct(sorted) && LongestFirst(sorted)
    requires forall k :: 0 <= k < j ==> |sorted[k].path| > |mounts[i].path|
    requires j < |sorted| ==> |sorted[j].path| <= |mounts[i].path|
    ensures var after := Inserted(sorted, j, mounts[i]);
            SameEntries(after, mounts[..i + 1]) && Distinct(after) && LongestFirst(after)
  {
    var e := mounts[i];
    assert mounts[..i + 1] == mounts[..i] + [e];
    forall k | 0 <= k < |sorted|
      ensures sorted[k].path != e.path
    {
      assert sorted[k] in mounts[..i];
      var j :| 0 <= j < i && mounts[j] == sorted[k];
    }
    hide Inserted, Distinct, LongestFirst;
    InsertedIn(sorted, j, e);
    InsertedDistinct(sorted, j, e);
    InsertionKeepsOrder(sorted, j, e);
  }

  /** The mounts kept when a path is unmounted. */
  function Without(mounts: seq<Entry>, path: string): seq<Entry>
  {
    if mounts == [] then []
    else if mounts[|mounts| - 1].path == path then Without(mounts[..|mounts| - 1], path)
    else Without(mounts[..|mounts| - 1], path) + [mounts[|mounts| - 1]]
  }

  lemma {:induction false} WithoutIs(mounts: seq<Entry>, path: string)
    requires Distinct(mounts) && LongestFirst(mounts)
    ensures Distinct(Without(mounts, path)) && LongestFirst(Without(mounts, path))
    ensures forall e :: e in Without(mounts, path) <==> e in mounts && e.path != path
  {
    if mounts != [] {
      hide Distinct, LongestFirst;
      var (front, last) := (mounts[..|mounts| - 1], mounts[|mounts| - 1]);
      FrontAndLast(mounts);
      WithoutIs(front, path);
      var kept := Without(front, path);
      KeptAndLast(kept, last);
    }
  }

  lemma FrontAndLast(mounts: seq<Entry>)
    requires Distinct(mounts) && LongestFirst(mounts) && mounts != []
    ensures var (front, last) := (mounts[..|mounts| - 1], mounts[|mounts| - 1]);
            && Distinct(front) && LongestFirst(front)
            && (forall e :: e in mounts <==> e in front || e == last)
            && forall e :: e in front ==> |e.path| >= |last.path| && e.path != last.path
  {
    assert mounts == mounts[..|mounts| - 1] + [mounts[|mounts| - 1]];
  }

  lemma KeptAndLast(kept: seq<Entry>, last: Entry)
    requires Distinct(kept) && LongestFirst(kept) && forall e :: e in kept ==> |e.path| >= |last.path| && e.path != last.path
    ensures Distinct(kept + [last]) && LongestFirst(kept + [last])
  {
    assert forall i :: 0 <= i < |kept| ==> kept[i] in kept;
  }

  class MountPoints {
    var mounts: seq<Entry>

    ghost predicate Valid()
      reads this
    {
      LongestFirst(mounts) && Distinct(mounts) && forall i :: 0 <= i < |mounts| ==> Normal(mounts[i].path)
    }

    /** The mounted filesystem at each mount point. */
    ghost function Mounted(): Table
      reads this
    {
      TableOf(mounts)
    }

    constructor ()
      ensures Valid() && Mounted() == map[]
    {
      mounts := [];
    }

    /** A second mount on a path replaces the first. */
    method Mount(path: string, filesystem: Option<FileSystem>)
      requires Valid()
      modifies this
      ensures Valid()
      ensures Mounted() == if filesystem == None then old(Mounted()) else old(Mounted())[Normalize(path, "/") := filesystem.value]
    {
      if filesystem == None {
        return;
      }
      var normalized := NormalizeVirtualPath(path, "/");
      NormalizeIsNormal(path, "/");
      hide TableOf, Normal, LongestFirst;
      for i := 0 to |mounts|
        invariant mounts == old(mounts)
        invariant forall j :: 0 <= j < i ==> mounts[j].path != normalized
      {
        if mounts[i].path == normalized {
          Replaced(mounts, i, filesystem.value);
          mounts := mounts[i := Entry(normalized, filesystem.value)];
          return;
        }
      }
      var e := Entry(normalized, filesystem.value);
      Pushed(mounts, e);
      var sorted := SortLongestFirst(mounts + [e]);
      Resorted(mounts + [e], sorted, TableOf(mounts)[normalized := e.filesystem]);
      mounts := sorted;
    }

    method Unmount(path: string)
      requires Valid()
      modifies this
      ensures Valid() && Mounted() == old(Mounted()) - {Normalize(path, "/")}
    {
      var normalized := NormalizeVirtualPath(path, "/");
      ghost var before := mounts;
      var kept: seq<Entry> := [];
      for i := 0 to |mounts|
        invariant mounts == before && kept == Without(before[..i], normalized)
      {
        assert before[..i + 1][..i] == before[..i];
        if mounts[i].path != normalized {
          kept := kept + [mounts[i]];
        }
      }
      assert before[..|before|] == before;
      mounts := kept;
      Removed(before, normalized);
    }

    method IsEmpty() returns (empty: bool)
      ensures empty <==> Mounted() == map[]
    {
      empty := mounts == [];
      assert mounts == [] ==> Mounted() == map[];
      assert mounts != [] ==> mounts[0].path in Mounted();
    }

    /** The innermost mount the path is at or under. */
    method Resolve(path: string) returns (route: Option<Route>)
      requires Valid()
      ensures forall p :: AreSegments(p) && path == Render(p) ==> route == Routed(Mounted(), p)
    {
      for i := 0 to |mounts|
        invariant forall j :: 0 <= j < i ==> !IsAtOrUnder(path, mounts[j].path)
      {
        if IsAtOrUnder(path, mounts[i].path) {
          var relative := RelativeToBase(mounts[i].path, path);
          route := Some(Route(mounts[i].filesystem, if relative.Some? then relative.value else "/"));
          forall p | AreSegments(p) && path == Render(p)
            ensures route == Routed(Mounted(), p)
          {
            FirstMatchIsInnermost(mounts, p, i);
          }
          return;
        }
      }
      route := None;
      forall p | AreSegments(p) && path == Render(p)
        ensures Routed(Mounted(), p) == None
      {
        NoMatch(mounts, p);
      }
    }

    /** The next segments from a directory towards the mounts below it, each once. */
    method ChildSegments(directory: string, ghost d: seq<string>) returns (segments: seq<string>)
      requires Valid() && AreSegments(d) && directory == Render(d)
      ensures forall n :: n in segments <==> IsChild(Mounted(), d, n)
      ensures forall i, j :: 0 <= i < j < |segments| ==> segments[i] != segments[j]
    {
      hide *;
      var base := if directory == "/" then "" else directory;
      BaseIs(d);
      segments := [];
      NoneNextTo(mounts, d);
      for i := 0 to |mounts|
        invariant IsNextTo(mounts[..i], d, segments)
      {
        NextEntry(i);
        OneNextTo(mounts[..i], mounts[i], d, segments);
        if |mounts[i].path| > |base| && IsAtOrUnder(mounts[i].path, if base == "" then "/" else base) {
          var segment := UpToSlash(mounts[i].path[|base| + 1..]);
          if segment != "" && segment !in segments {
            segments := segments + [segment];
          }
        }
      }
      AllEntries();
      AllNextTo(mounts, d, segments);
    }

    lemma NextEntry(i: nat)
      requires Valid() && i < |mounts|
      ensures Normal(mounts[i].path) && mounts[..i + 1] == mounts[..i] + [mounts[i]]
    {
    }

    lemma AllEntries()
      requires Valid()
      ensures Distinct(mounts) && mounts[..|mounts|] == mounts && Mounted() == TableOf(mounts)
    {
    }

    /** Whether anything is mounted below a directory (LatestMountTimeBelow, the time left out). */
    method AnyBelow(directory: string, ghost d: seq<string>) returns (r: bool)
      requires Valid() && AreSegments(d) && directory == Render(d)
      ensures r <==> exists n :: IsChild(Mounted(), d, n)
    {
      for i := 0 to |mounts|
        invariant forall j, n :: 0 <= j < i ==> !LeadsTo(mounts[j].path, d, n)
      {
        LeadsToIs(mounts[i].path, d);
        hide LeadsTo, IsAtOrUnder, Render, AreSegments;
        if mounts[i].path != directory && IsAtOrUnder(mounts[i].path, directory) {
          ghost var n :| LeadsTo(mounts[i].path, d, n);
          ChildrenAre(mounts, d);
          assert IsChild(Mounted(), d, n);
          return true;
        }
      }
      ChildrenAre(mounts, d);
      r := false;
    }
  }

  // ---- The way down to a mount -------------------------------------------------------------------------

  /** What a text holds before its first '/'. */
  function UpToSlash(s: string): string
  {
    if s == "" || s[0] == '/' then "" else [s[0]] + UpToSlash(s[1..])
  }

  lemma {:induction false} UpToSlashIs(name: string, rest: string)
    requires '/' !in name && (rest == "" || rest[0] == '/')
    ensures UpToSlash(name + rest) == name
  {
    if name == "" {
      assert name + rest == rest;
    } else {
      assert name[0] in name && (name + rest)[1..] == name[1..] + rest;
      UpToSlashIs(name[1..], rest);
    }
  }

  /** The mount point lies below the directory, and its next segment from there is `n`. */
  ghost predicate LeadsTo(mountPoint: string, d: seq<string>, n: string)
  {
    exists m :: AreSegments(m) && mountPoint == Render(m) && d < m && m[|d|] == n
  }

  /** Some mount point lies below the directory through `n`. */
  ghost predicate IsChild(table: Table, d: seq<string>, n: string)
  {
    exists m :: AreSegments(m) && Render(m) in table && d < m && m[|d|] == n
  }

  /** What the text comparisons of ChildSegments find. */
  lemma LeadsToIs(mountPoint: string, d: seq<string>)
    requires Normal(mountPoint) && AreSegments(d)
    ensures var base := Slashed(d);
            if |mountPoint| > |base| && IsAtOrUnder(mountPoint, Render(d)) then
              var segment := UpToSlash(mountPoint[|base| + 1..]);
              forall n :: LeadsTo(mountPoint, d, n) <==> n == segment && segment != ""
            else forall n :: !LeadsTo(mountPoint, d, n)
    ensures (exists n :: LeadsTo(mountPoint, d, n)) <==> mountPoint != Render(d) && IsAtOrUnder(mountPoint, Render(d))
  {
    var m :| AreSegments(m) && mountPoint == Render(m);
    AtOrUnderIs(m, d);
    forall m' | AreSegments(m') && mountPoint == Render(m')
      ensures m' == m
    {
      RenderInjective(m, m');
    }
    assert forall n :: LeadsTo(mountPoint, d, n) <==> d < m && m[|d|] == n;
    hide LeadsTo, IsAtOrUnder;
    if d < m {
      NextSegment(d, m);
      assert LeadsTo(mountPoint, d, m[|d|]);
    } else if d == m {
      assert m == [] ==> UpToSlash("/"[1..]) == "";
    }
  }

  /** After a directory's text and a '/' comes the next segment, up to the end or another '/'. */
  lemma NextSegment(d: seq<string>, m: seq<string>)
    requires AreSegments(d) && AreSegments(m) && d < m
    ensures |Slashed(d)| < |Render(m)| && UpToSlash(Render(m)[|Slashed(d)| + 1..]) == m[|d|]
    ensures m[|d|] != "" && Render(m) != Render(d)
  {
    SlashedThrough(d, m);
    LongerText(d, m);
    assert IsSegment(m[|d|]) && Render(m) == Slashed(m);
    SlashFirst(m[|d| + 1..]);
    hide Slashed, AreSegments, Render;
    AfterSlash(Slashed(d), m[|d|], Slashed(m[|d| + 1..]));
  }

  lemma SlashedThrough(d: seq<string>, m: seq<string>)
    requires d < m
    ensures Slashed(m) == Slashed(d) + "/" + (m[|d|] + Slashed(m[|d| + 1..]))
  {
    var (rest, name, after) := (m[|d|..], m[|d|], m[|d| + 1..]);
    assert rest[0] == name && rest[1..] == after;
    assert Slashed(rest) == "/" + name + Slashed(after);
    hide Slashed;
    SlashedBase(d, m);
    Regrouped(Slashed(d), name, Slashed(after));
  }

  lemma Regrouped(front: string, name: string, rest: string)
    ensures front + ("/" + name + rest) == front + "/" + (name + rest)
  {
  }

  lemma AfterSlash(front: string, name: string, rest: string)
    requires '/' !in name && (rest == "" || rest[0] == '/')
    ensures UpToSlash((front + "/" + (name + rest))[|front| + 1..]) == name
  {
    assert (front + "/" + (name + rest))[|front| + 1..] == name + rest;
    UpToSlashIs(name, rest);
  }

  lemma BaseIs(d: seq<string>)
    requires AreSegments(d)
    ensures (if Render(d) == "/" then "" else Render(d)) == Slashed(d)
    ensures Slashed(d) == "" ==> Render(d) == "/"
  {
    SlashFirst(d);
    if d != [] {
      assert IsSegment(d[0]);
    }
  }

  /** The segments are the next ones from the directory towards the mounts, each once. */
  ghost predicate IsNextTo(mounts: seq<Entry>, d: seq<string>, segments: seq<string>)
  {
    && (forall n :: n in segments <==> exists j :: 0 <= j < |mounts| && LeadsTo(mounts[j].path, d, n))
    && forall i, j :: 0 <= i < j < |segments| ==> segments[i] != segments[j]
  }

  lemma NoneNextTo(mounts: seq<Entry>, d: seq<string>)
    ensures IsNextTo(mounts[..0], d, [])
  {
  }

  lemma OneNextTo(mounts: seq<Entry>, e: Entry, d: seq<string>, segments: seq<string>)
    requires IsNextTo(mounts, d, segments) && Normal(e.path) && AreSegments(d)
    ensures var base := Slashed(d);
            if |e.path| > |base| && IsAtOrUnder(e.path, Render(d)) then
              var segment := UpToSlash(e.path[|base| + 1..]);
              IsNextTo(mounts + [e], d, if segment != "" && segment !in segments then segments + [segment] else segments)
            else IsNextTo(mounts + [e], d, segments)
  {
    hide LeadsTo, IsAtOrUnder, Render, AreSegments, UpToSlash, Normal, Slashed;
    LeadsToIs(e.path, d);
    var after := mounts + [e];
    forall n
      ensures (exists j :: 0 <= j < |after| && LeadsTo(after[j].path, d, n)) <==>
              (n in segments || LeadsTo(e.path, d, n))
    {
      assert after[|mounts|] == e;
      if n in segments {
        var j :| 0 <= j < |mounts| && LeadsTo(mounts[j].path, d, n);
        assert after[j] == mounts[j];
      }
      if j :| 0 <= j < |after| && LeadsTo(after[j].path, d, n) {
        assert j < |mounts| ==> after[j] == mounts[j];
      }
    }
  }

  lemma AllNextTo(mounts: seq<Entry>, d: seq<string>, segments: seq<string>)
    requires Distinct(mounts) && IsNextTo(mounts, d, segments)
    ensures forall n :: n in segments <==> IsChild(TableOf(mounts), d, n)
    ensures forall i, j :: 0 <= i < j < |segments| ==> segments[i] != segments[j]
  {
    hide TableOf, IsChild, LeadsTo, Distinct;
    ChildrenAre(mounts, d);
  }

  lemma ChildrenAre(mounts: seq<Entry>, d: seq<string>)
    requires Distinct(mounts)
    ensures forall n :: IsChild(TableOf(mounts), d, n) <==> exists j :: 0 <= j < |mounts| && LeadsTo(mounts[j].path, d, n)
  {
    TableHolds(mounts);
    var table := TableOf(mounts);
    hide TableOf, Render, AreSegments, Distinct;
    forall n | IsChild(table, d, n)
      ensures exists j :: 0 <= j < |mounts| && LeadsTo(mounts[j].path, d, n)
    {
      var m :| AreSegments(m) && Render(m) in table && d < m && m[|d|] == n;
      InTableIsEntry(mounts, table, Render(m));
    }
    forall j, n | 0 <= j < |mounts| && LeadsTo(mounts[j].path, d, n)
      ensures IsChild(table, d, n)
    {
      assert mounts[j] in mounts;
    }
  }

  lemma UpdatedIn(mounts: seq<Entry>, i: nat, e: Entry)
    requires Distinct(mounts) && i < |mounts| && mounts[i].path == e.path
    ensures forall x :: x in mounts[i := e] <==> x == e || (x in mounts && x.path != e.path)
    ensures Distinct(mounts[i := e])
  {
    var after := mounts[i := e];
    assert forall j :: 0 <= j < |mounts| && j != i ==> after[j] == mounts[j];
    forall x | x in mounts && x.path != e.path
      ensures x in after
    {
      var j :| 0 <= j < |mounts| && mounts[j] == x;
      assert after[j] == x;
    }
    assert after[i] == e;
  }

  lemma Replaced(mounts: seq<Entry>, i: nat, filesystem: FileSystem)
    requires Distinct(mounts) && LongestFirst(mounts) && i < |mounts| && forall j :: 0 <= j < |mounts| ==> Normal(mounts[j].path)
    ensures var after := mounts[i := Entry(mounts[i].path, filesystem)];
            Distinct(after) && LongestFirst(after) && TableOf(after) == TableOf(mounts)[mounts[i].path := filesystem]
            && forall j :: 0 <= j < |after| ==> Normal(after[j].path)
  {
    var e := Entry(mounts[i].path, filesystem);
    assert forall j :: 0 <= j < |mounts| ==> mounts[i := e][j].path == mounts[j].path;
    TableHolds(mounts);
    UpdatedIn(mounts, i, e);
    hide TableOf, Normal, LongestFirst, Distinct;
    TableIs(mounts[i := e], TableOf(mounts)[e.path := filesystem]);
  }

  lemma Resorted(mounts: seq<Entry>, sorted: seq<Entry>, table: Table)
    requires SameEntries(sorted, mounts) && Holds(mounts, table) && Distinct(sorted)
    ensures TableOf(sorted) == table
    ensures (forall j :: 0 <= j < |mounts| ==> Normal(mounts[j].path)) ==> forall j :: 0 <= j < |sorted| ==> Normal(sorted[j].path)
  {
    assert Holds(sorted, table);
    assert forall j :: 0 <= j < |sorted| ==> sorted[j] in mounts;
    hide Holds, Normal, SameEntries;
    TableIs(sorted, table);
  }

  lemma Pushed(mounts: seq<Entry>, e: Entry)
    requires Distinct(mounts) && forall i :: 0 <= i < |mounts| ==> mounts[i].path != e.path
    ensures Distinct(mounts + [e]) && Holds(mounts + [e], TableOf(mounts)[e.path := e.filesystem])
  {
    hide TableOf, Holds, Distinct;
    TableHolds(mounts);
    PushedHolds(mounts, e, TableOf(mounts));
    PushedDistinct(mounts, e);
  }

  lemma PushedDistinct(mounts: seq<Entry>, e: Entry)
    requires Distinct(mounts) && forall i :: 0 <= i < |mounts| ==> mounts[i].path != e.path
    ensures Distinct(mounts + [e])
  {
  }

  lemma PushedHolds(mounts: seq<Entry>, e: Entry, table: Table)
    requires Holds(mounts, table) && forall i :: 0 <= i < |mounts| ==> mounts[i].path != e.path
    ensures Holds(mounts + [e], table[e.path := e.filesystem])
  {
    assert forall x :: x in mounts + [e] <==> x in mounts || x == e;
    assert forall x :: x in mounts ==> x.path != e.path;
  }

  lemma Removed(mounts: seq<Entry>, path: string)
    requires Distinct(mounts) && LongestFirst(mounts) && forall i :: 0 <= i < |mounts| ==> Normal(mounts[i].path)
    ensures var kept := Without(mounts, path);
            Distinct(kept) && LongestFirst(kept) && TableOf(kept) == TableOf(mounts) - {path}
            && forall i :: 0 <= i < |kept| ==> Normal(kept[i].path)
  {
    WithoutIs(mounts, path);
    TableHolds(mounts);
    var kept := Without(mounts, path);
    assert forall i :: 0 <= i < |kept| ==> kept[i] in mounts;
    hide Without, TableOf, Distinct, Normal, LongestFirst;
    TableIs(kept, TableOf(mounts) - {path});
  }

  /** No mount point below the first entry a path is at or under is above the path. */
  lemma NothingDeeper(mounts: seq<Entry>, p: seq<string>, i: nat, m: seq<string>, q: seq<string>)
    requires LongestFirst(mounts) && AreSegments(p) && AreSegments(m) && i < |mounts| && mounts[i].path == Render(m)
    requires forall j :: 0 <= j < i ==> !IsAtOrUnder(Render(p), mounts[j].path)
    requires m < q <= p
    ensures forall e :: e in mounts ==> e.path != Render(q)
  {
    AtOrUnderIs(p, q);
    LongerText(m, q);
    hide IsAtOrUnder, Render, AreSegments;
  }

  /** The first entry a path is at or under, longest first, is its innermost mount. */
  lemma FirstMatchIsInnermost(mounts: seq<Entry>, p: seq<string>, i: nat)
    requires LongestFirst(mounts) && Distinct(mounts) && AreSegments(p) && i < |mounts|
    requires Normal(mounts[i].path) && IsAtOrUnder(Render(p), mounts[i].path)
    requires forall j :: 0 <= j < i ==> !IsAtOrUnder(Render(p), mounts[j].path)
    ensures RelativeToBase(mounts[i].path, Render(p)).Some?
    ensures Routed(TableOf(mounts), p) ==
            Some(Route(mounts[i].filesystem, RelativeToBase(mounts[i].path, Render(p)).value))
  {
    var m :| AreSegments(m) && mounts[i].path == Render(m);
    var table := TableOf(mounts);
    AtOrUnderIs(p, m);
    RelativeIs(m, p);
    TableHolds(mounts);
    assert mounts[i] in mounts;
    hide IsAtOrUnder, Render, AreSegments, TableOf, RelativeToBase, LongestFirst, Distinct;
    forall k | |m| < k <= |p|
      ensures Render(p[..k]) !in table
    {
      NothingDeeper(mounts, p, i, m, p[..k]);
      InTableIsEntry(mounts, table, Render(p[..k]));
    }
    InnermostIsLongest(table, p, |p|, m);
  }

  lemma NoMatch(mounts: seq<Entry>, p: seq<string>)
    requires Distinct(mounts) && AreSegments(p) && forall j :: 0 <= j < |mounts| ==> !IsAtOrUnder(Render(p), mounts[j].path)
    ensures Routed(TableOf(mounts), p) == None
  {
    var table := TableOf(mounts);
    TableHolds(mounts);
    hide TableOf, IsAtOrUnder, Distinct, Render;
    forall k | 0 <= k <= |p|
      ensures Render(p[..k]) !in table
    {
      AtOrUnderIs(p, p[..k]);
      InTableIsEntry(mounts, table, Render(p[..k]));
    }
    NoneInnermost(table, p, |p|);
  }
}
