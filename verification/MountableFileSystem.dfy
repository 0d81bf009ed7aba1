/**
 A filesystem with others mounted on it (src/components/Filesystem/MountableFileSystem.cpp:141-225): what
 ReadDirectory lists and what Stat finds. The filesystems underneath and mounted are what they answer, asked
 with normalized paths.
 */
module MountableFileSystems {
  import opened Basics
  import opened VirtualPath
  import opened MountPoints
  import opened InMemoryTree
  import opened InMemoryFileSystems

  /** What a filesystem answers: the entries listed of a path, and whether it is a directory if there is anything. */
  datatype View = View(list: string -> seq<DirectoryEntry>, stat: string -> Option<bool>)

  ghost predicate Named(entries: seq<DirectoryEntry>, name: string)
  {
    exists e :: e in entries && e.name == name
  }

  /** There is a root, and a listing names just what Stat finds. */
  ghost predicate Agrees(v: View)
  {
    && v.stat(ROOT).Some?
    && forall p, n :: AreSegments(p) && IsSegment(n) ==> AgreesAt(v, p, n)
  }

  ghost predicate AgreesAt(v: View, p: seq<string>, n: string)
  {
    Named(v.list(Render(p)), n) <==> v.stat(Render(p + [n])).Some?
  }

  // ---- What the whole answers -------------------------------------------------------------------------

  datatype Whole = Whole(local: View, inner: FileSystem -> View, mounts: Table, builtins: map<string, string>)

  ghost predicate BuiltinsPlaced(builtins: map<string, string>)
  {
    forall b :: b in builtins ==> Normal(b) && b != ROOT
  }

  ghost function StatOf(w: Whole, p: seq<string>): Option<bool>
  {
    if Render(p) in w.builtins then Some(false)
    else
      match Routed(w.mounts, p)
      case Some(route) => w.inner(route.filesystem).stat(route.innerPath)
      case None =>
        if w.local.stat(Render(p)).Some? then w.local.stat(Render(p))
        else if exists n :: IsChild(w.mounts, p, n) then Some(true)
        else None
  }

  /** The entries there are of `p` before mounts below it and builtins in it are added. */
  function Beneath(w: Whole, p: seq<string>): seq<DirectoryEntry>
  {
    match Routed(w.mounts, p)
    case Some(route) => w.inner(route.filesystem).list(route.innerPath)
    case None => w.local.list(Render(p))
  }

  /** The next segments towards mounts, which a path that is not itself in a mount shows. */
  ghost predicate Towards(w: Whole, p: seq<string>, n: string)
  {
    Routed(w.mounts, p).None? && IsChild(w.mounts, p, n)
  }

  /** Some of the paths lies directly in the directory under that name. */
  ghost predicate HasChild(among: set<string>, directory: string, n: string)
  {
    exists b :: b in among && VirtualParentOf(b) == directory && VirtualLastSegment(b) == n
  }

  ghost predicate HasBuiltin(w: Whole, p: seq<string>, n: string)
  {
    HasChild(w.builtins.Keys, Render(p), n)
  }

  /** `added` has one entry of the given kind for each of the names not listed yet. */
  ghost predicate IsAdded(listed: seq<DirectoryEntry>, names: iset<string>, isDirectory: bool, added: seq<DirectoryEntry>)
  {
    && (forall n :: Named(added, n) <==> n in names && !Named(listed, n))
    && (forall e :: e in added ==> e.isDirectory == isDirectory)
    && (forall i, j :: 0 <= i < j < |added| ==> added[i].name != added[j].name)
  }

  predicate IsDot(e: DirectoryEntry)
  {
    e.name == "." || e.name == ".."
  }

  function WithoutDots(entries: seq<DirectoryEntry>): seq<DirectoryEntry>
  {
    if entries == [] then []
    else
      var (front, last) := (entries[..|entries| - 1], entries[|entries| - 1]);
      if IsDot(last) then WithoutDots(front) else WithoutDots(front) + [last]
  }

  /** The dots first, once; nothing at all for what lists nothing and is no directory. */
  function Dotted(entries: seq<DirectoryEntry>, isDirectory: bool): seq<DirectoryEntry>
  {
    if entries == [] && !isDirectory then []
    else [DirectoryEntry(".", true), DirectoryEntry("..", true)] + WithoutDots(entries)
  }

  /** The entries beneath, then the mounts below, then the builtins, no name added twice. */
  ghost predicate IsListingOf(w: Whole, p: seq<string>, entries: seq<DirectoryEntry>)
  {
    exists mounted, own :: ListsWith(w, p, mounted, own, entries)
  }

  ghost predicate ListsWith(w: Whole, p: seq<string>, mounted: seq<DirectoryEntry>, own: seq<DirectoryEntry>,
                              entries: seq<DirectoryEntry>)
  {
    var beneath := Beneath(w, p);
    && IsAdded(beneath, (iset n | Towards(w, p, n)), true, mounted)
    && IsAdded(beneath + mounted, (iset n | HasBuiltin(w, p, n)), false, own)
    && entries == Dotted(beneath + mounted + own, StatOf(w, p) == Some(true))
  }

  // ---- Listing against Stat ---------------------------------------------------------------------------

  /** A mount point in a directory served by another mount, where that one has nothing. */
  ghost predicate Hidden(w: Whole, p: seq<string>, n: string)
  {
    && Render(p + [n]) !in w.builtins && Render(p + [n]) in w.mounts
    && match Routed(w.mounts, p)
       case Some(route) => !Named(w.inner(route.filesystem).list(route.innerPath), n)
       case None => false
  }

  lemma NamedJoin(a: seq<DirectoryEntry>, b: seq<DirectoryEntry>, n: string)
    ensures Named(a + b, n) <==> Named(a, n) || Named(b, n)
  {
    assert forall e :: e in a + b <==> e in a || e in b;
  }

  lemma {:induction false} WithoutDotsIs(entries: seq<DirectoryEntry>)
    ensures forall e :: e in WithoutDots(entries) <==> e in entries && !IsDot(e)
  {
    if entries != [] {
      var (front, last) := (entries[..|entries| - 1], entries[|entries| - 1]);
      assert entries == front + [last];
      WithoutDotsIs(front);
    }
  }

  lemma DottedNames(entries: seq<DirectoryEntry>, isDirectory: bool, n: string)
    requires IsSegment(n)
    ensures Named(Dotted(entries, isDirectory), n) <==> Named(entries, n)
  {
    WithoutDotsIs(entries);
    var dots := [DirectoryEntry(".", true), DirectoryEntry("..", true)];
    NamedJoin(dots, WithoutDots(entries), n);
  }

  /** What a listing names. */
  lemma ListedNames(w: Whole, p: seq<string>, entries: seq<DirectoryEntry>, n: string)
    requires IsListingOf(w, p, entries) && IsSegment(n)
    ensures Named(entries, n) <==> Named(Beneath(w, p), n) || Towards(w, p, n) || HasBuiltin(w, p, n)
  {
    var mounted, own :| ListsWith(w, p, mounted, own, entries);
    var beneath := Beneath(w, p);
    DottedNames(beneath + mounted + own, StatOf(w, p) == Some(true), n);
    NamedJoin(beneath + mounted, own, n);
    NamedJoin(beneath, mounted, n);
  }

  lemma BuiltinIsThere(w: Whole, p: seq<string>, n: string)
    requires BuiltinsPlaced(w.builtins) && AreSegments(p) && IsSegment(n)
    ensures HasBuiltin(w, p, n) <==> Render(p + [n]) in w.builtins
  {
    var q := p + [n];
    assert q[..|q| - 1] == p;
    ParentIs(q);
    if HasBuiltin(w, p, n) {
      var b :| b in w.builtins && VirtualParentOf(b) == Render(p) && VirtualLastSegment(b) == n;
      var ss :| AreSegments(ss) && b == Render(ss);
      ParentIs(ss);
      hide Render, AreSegments, VirtualParentOf, VirtualLastSegment;
      SameParentSameName(ss, q);
    }
  }

  /** One segment further a path is routed as before, unless a mount point is reached. */
  lemma RoutedFurther(table: Table, p: seq<string>, n: string)
    requires AreSegments(p) && IsSegment(n)
    ensures Render(p + [n]) in table ==> Routed(table, p + [n]) == Some(Route(table[Render(p + [n])], ROOT))
    ensures Render(p + [n]) !in table ==> (Routed(table, p + [n]).None? <==> Routed(table, p).None?)
    ensures Routed(table, p).Some? ==>
              exists k :: 0 <= k <= |p| && Render(p[..k]) in table
                       && Routed(table, p).value == Route(table[Render(p[..k])], Render(p[k..]))
                       && (Render(p + [n]) !in table ==>
                             Routed(table, p + [n]) == Some(Route(table[Render(p[..k])], Render(p[k..] + [n]))))
  {
    var q := p + [n];
    assert q[..|q|] == q && q[|q|..] == [];
    InnermostFurther(table, p, n, |p|);
  }

  lemma {:induction false} InnermostFurther(table: Table, p: seq<string>, n: string, i: nat)
    requires i <= |p|
    ensures Innermost(table, p, i).None? <==> Innermost(table, p + [n], i).None?
    ensures Innermost(table, p, i).Some? ==>
              exists k :: 0 <= k <= i && Render(p[..k]) in table
                       && Innermost(table, p, i).value == Route(table[Render(p[..k])], Render(p[k..]))
                       && Innermost(table, p + [n], i).value == Route(table[Render(p[..k])], Render(p[k..] + [n]))
  {
    hide Render;
    assert (p + [n])[..i] == p[..i] && (p + [n])[i..] == p[i..] + [n];
    if Render(p[..i]) !in table && i > 0 {
      InnermostFurther(table, p, n, i - 1);
    }
  }

  /** Through `n` lies a mount below: the next path is one, or has one below. */
  lemma ChildFurther(table: Table, p: seq<string>, n: string)
    requires AreSegments(p) && IsSegment(n)
    ensures IsChild(table, p, n) <==> Render(p + [n]) in table || exists n' :: IsChild(table, p + [n], n')
  {
    var q := p + [n];
    assert AreSegments(q);
    hide AreSegments, Render;
    if IsChild(table, p, n) {
      var m :| AreSegments(m) && Render(m) in table && p < m && m[|p|] == n;
      Further(p, n, m);
      if q != m {
        assert q < m;
        assert IsChild(table, q, m[|q|]);
      }
    }
    if Render(q) in table {
      assert p < q && q[|p|] == n;
      assert IsChild(table, p, n);
    }
    forall n' | IsChild(table, q, n')
      ensures IsChild(table, p, n)
    {
      var m :| AreSegments(m) && Render(m) in table && q < m && m[|q|] == n';
      Further(p, n, m);
      assert p < m && m[|p|] == n;
    }
  }

  lemma Further(p: seq<string>, n: string, m: seq<string>)
    ensures p < m && m[|p|] == n <==> p + [n] <= m
  {
    if p < m && m[|p|] == n {
      assert m[..|p| + 1] == p + [n];
    }
    if p + [n] <= m {
      assert m[..|p|] == (p + [n])[..|p|] == p && m[|p|] == (p + [n])[|p|];
    }
  }

  /** What Stat finds in a directory, by what is listed beneath. */
  lemma StatFurther(w: Whole, p: seq<string>, n: string)
    requires Agrees(w.local) && (forall f :: Agrees(w.inner(f))) && AreSegments(p) && IsSegment(n)
    ensures StatOf(w, p + [n]).Some? <==>
              (Render(p + [n]) in w.builtins || Render(p + [n]) in w.mounts || Named(Beneath(w, p), n) || Towards(w, p, n))
  {
    var q := p + [n];
    RoutedFurther(w.mounts, p, n);
    ChildFurther(w.mounts, p, n);
    hide Render, IsChild;
    if Render(q) in w.mounts {
      assert w.inner(w.mounts[Render(q)]).stat(ROOT).Some?;
    } else if Routed(w.mounts, p).Some? {
      var k :| 0 <= k <= |p| && Render(p[..k]) in w.mounts
               && Routed(w.mounts, p).value == Route(w.mounts[Render(p[..k])], Render(p[k..]))
               && Routed(w.mounts, q) == Some(Route(w.mounts[Render(p[..k])], Render(p[k..] + [n])));
      assert AreSegments(p[k..]);
      assert AgreesAt(w.inner(w.mounts[Render(p[..k])]), p[k..], n);
    } else {
      assert AgreesAt(w.local, p, n);
    }
  }

  /**
   A listing names exactly what Stat finds in the directory, but for mount points in a directory that is
   served by another mount where that has nothing.
   */
  lemma ListingShowsWhatStatFinds(w: Whole, p: seq<string>, n: string, entries: seq<DirectoryEntry>)
    requires Agrees(w.local) && (forall f :: Agrees(w.inner(f))) && BuiltinsPlaced(w.builtins)
    requires AreSegments(p) && IsSegment(n) && IsListingOf(w, p, entries)
    ensures (Named(entries, n) <==> StatOf(w, p + [n]).Some?) <==> !Hidden(w, p, n)
    ensures Hidden(w, p, n) ==> StatOf(w, p + [n]).Some? && !Named(entries, n)
  {
    StatFurther(w, p, n);
    ListedNames(w, p, entries, n);
    BuiltinIsThere(w, p, n);
    ChildFurther(w.mounts, p, n);
    hide IsListingOf, StatOf, HasBuiltin, IsChild, Agrees, Render, Named;
  }

  /** So a filesystem with mounts is again one whose listings and Stat agree exactly when it hides nothing. */
  lemma WholeAgreesUnlessHidden(w: Whole, v: View)
    requires Agrees(w.local) && (forall f :: Agrees(w.inner(f))) && BuiltinsPlaced(w.builtins)
    requires forall p :: AreSegments(p) ==> IsListingOf(w, p, v.list(Render(p))) && v.stat(Render(p)) == StatOf(w, p)
    ensures Agrees(v) <==> forall p, n :: AreSegments(p) && IsSegment(n) ==> !Hidden(w, p, n)
  {
    hide Hidden, AgreesAt, IsListingOf, StatOf, AreSegments, Render, IsSegment, BuiltinsPlaced;
    RootIsFound(w);
    RootIsEmpty();
    forall p, n | AreSegments(p) && IsSegment(n)
      ensures AgreesAt(v, p, n) <==> !Hidden(w, p, n)
    {
      AgreesUnlessHidden(w, v, p, n);
    }
  }

  lemma RootIsEmpty()
    ensures AreSegments([]) && Render([]) == ROOT
  {
  }

  lemma AgreesUnlessHidden(w: Whole, v: View, p: seq<string>, n: string)
    requires Agrees(w.local) && (forall f :: Agrees(w.inner(f))) && BuiltinsPlaced(w.builtins)
    requires forall p :: AreSegments(p) ==> IsListingOf(w, p, v.list(Render(p))) && v.stat(Render(p)) == StatOf(w, p)
    requires AreSegments(p) && IsSegment(n)
    ensures AgreesAt(v, p, n) <==> !Hidden(w, p, n)
  {
    assert AreSegments(p + [n]);
    hide Hidden, IsListingOf, StatOf, AreSegments, Render, IsSegment, BuiltinsPlaced, Agrees, Named;
    ListingShowsWhatStatFinds(w, p, n, v.list(Render(p)));
  }

  lemma RootIsFound(w: Whole)
    requires Agrees(w.local) && (forall f :: Agrees(w.inner(f)))
    ensures StatOf(w, []).Some?
  {
    var root: seq<string> := [];
    assert Render(root) == ROOT && root[..0] == root && root[0..] == root;
  }

  // ---- The way down to a mount ------------------------------------------------------------------------

  /** Every listing from the root down to the mount point names the next segment. */
  ghost predicate ShownOnTheWay(w: Whole, m: seq<string>)
  {
    forall k, entries :: 0 <= k < |m| && IsListingOf(w, m[..k], entries) ==> Named(entries, m[k])
  }

  /** Where a mounted filesystem serves the directory, it or a builtin must have the name. */
  ghost predicate ServedWithName(w: Whole, p: seq<string>, n: string)
  {
    Routed(w.mounts, p).Some? ==> Named(Beneath(w, p), n) || HasBuiltin(w, p, n)
  }

  /** A mount point is reached by listing down exactly when no mounted filesystem on the way leaves it out. */
  lemma ShownUnlessLeftOut(w: Whole, m: seq<string>)
    requires AreSegments(m) && Render(m) in w.mounts
    ensures ShownOnTheWay(w, m) <==> forall k :: 0 <= k < |m| ==> ServedWithName(w, m[..k], m[k])
  {
    forall k, entries | 0 <= k < |m| && IsListingOf(w, m[..k], entries)
      ensures Named(entries, m[k]) <==> ServedWithName(w, m[..k], m[k])
    {
      ListedNames(w, m[..k], entries, m[k]);
      assert m[..k] < m && m[|m[..k]|] == m[k];
      assert IsChild(w.mounts, m[..k], m[k]);
    }
    forall k | 0 <= k < |m|
      ensures exists entries :: IsListingOf(w, m[..k], entries)
    {
      ListingExists(w, m[..k]);
    }
    hide IsListingOf, ServedWithName, Named;
    if ShownOnTheWay(w, m) {
      forall k | 0 <= k < |m|
        ensures ServedWithName(w, m[..k], m[k])
      {
        var entries :| IsListingOf(w, m[..k], entries);
      }
    }
  }

  lemma AddedExists(listed: seq<DirectoryEntry>, names: set<string>, isDirectory: bool) returns (added: seq<DirectoryEntry>)
    ensures IsAdded(listed, (iset n | n in names), isDirectory, added)
    decreases |names|
  {
    added := [];
    if names != {} {
      var n :| n in names;
      var rest := AddedExists(listed, names - {n}, isDirectory);
      added := rest;
      if !Named(listed, n) {
        var e := DirectoryEntry(n, isDirectory);
        added := rest + [e];
        assert !Named(rest, n);
        forall i, j | 0 <= i < j < |added|
          ensures added[i].name != added[j].name
        {
          assert rest[i] in rest;
        }
        forall n'
          ensures Named(added, n') <==> n' in names && !Named(listed, n')
        {
          NamedJoin(rest, [e], n');
          assert Named([e], n') <==> n' == n by { assert e in [e]; }
        }
      }
    }
  }

  lemma ListingExists(w: Whole, p: seq<string>)
    ensures exists entries :: IsListingOf(w, p, entries)
  {
    var children := ChildNames(w.mounts, p);
    var towards := if Routed(w.mounts, p).None? then children else {};
    var placed := set b | b in w.builtins && VirtualParentOf(b) == Render(p) :: VirtualLastSegment(b);
    var beneath := Beneath(w, p);
    var mounted := AddedExists(beneath, towards, true);
    var own := AddedExists(beneath + mounted, placed, false);
    assert (iset n | n in towards) == (iset n | Towards(w, p, n));
    assert (iset n | n in placed) == (iset n | HasBuiltin(w, p, n));
    var entries := Dotted(beneath + mounted + own, StatOf(w, p) == Some(true));
    assert ListsWith(w, p, mounted, own, entries);
    assert IsListingOf(w, p, entries);
  }

  lemma ChildNames(table: Table, p: seq<string>) returns (names: set<string>)
    ensures forall n :: n in names <==> IsChild(table, p, n)
    decreases |table.Keys|
  {
    hide AreSegments, Render;
    names := {};
    if table != map[] {
      var b :| b in table;
      names := ChildNames(table - {b}, p);
      forall n
        ensures IsChild(table, p, n) <==> IsChild(table - {b}, p, n) || LeadsTo(b, p, n)
      {
      }
      if m :| AreSegments(m) && b == Render(m) && p < m {
        names := names + {m[|p|]};
        forall n
          ensures LeadsTo(b, p, n) <==> n == m[|p|]
        {
          forall m' | AreSegments(m') && b == Render(m')
            ensures m' == m
          {
            RenderInjective(m, m');
          }
        }
      }
    }
  }

  /**
   Every mount is reached by listing down, whatever the filesystems hold, exactly when the way to it shows a
   builtin wherever a mount serves the directory; with no builtins, when no mount lies inside another.
   */
  lemma EveryMountIsShown(mounts: Table, builtins: map<string, string>)
    requires BuiltinsPlaced(builtins)
    ensures (forall m, w: Whole :: AreSegments(m) && Render(m) in mounts && w.mounts == mounts && w.builtins == builtins
                                   ==> ShownOnTheWay(w, m))
            <==> forall m :: AreSegments(m) && Render(m) in mounts ==> ShownWithBuiltins(mounts, builtins, m)
  {
    forall m | AreSegments(m) && Render(m) in mounts
      ensures ShownWithBuiltins(mounts, builtins, m) <==>
              forall w: Whole :: w.mounts == mounts && w.builtins == builtins ==> ShownOnTheWay(w, m)
    {
      MountIsShown(mounts, builtins, m);
    }
    hide ShownOnTheWay, AreSegments, Render;
  }

  /** A builtin stands wherever a mount serves the directory. */
  ghost predicate ShownWithBuiltins(mounts: Table, builtins: map<string, string>, m: seq<string>)
  {
    forall k :: 0 <= k < |m| ==> BuiltinOnTheWay(mounts, builtins, m, k)
  }

  ghost predicate BuiltinOnTheWay(mounts: Table, builtins: map<string, string>, m: seq<string>, k: nat)
    requires k < |m|
  {
    Routed(mounts, m[..k]).Some? ==> Render(m[..k + 1]) in builtins
  }

  lemma BuiltinServes(w: Whole, m: seq<string>, k: nat)
    requires BuiltinsPlaced(w.builtins) && AreSegments(m) && k < |m|
    ensures BuiltinOnTheWay(w.mounts, w.builtins, m, k) ==> ServedWithName(w, m[..k], m[k])
    ensures Beneath(w, m[..k]) == [] && ServedWithName(w, m[..k], m[k]) ==> BuiltinOnTheWay(w.mounts, w.builtins, m, k)
  {
    BuiltinIsThere(w, m[..k], m[k]);
    assert m[..k] + [m[k]] == m[..k + 1];
  }

  lemma ShownByBuiltins(w: Whole, m: seq<string>)
    requires BuiltinsPlaced(w.builtins) && AreSegments(m) && Render(m) in w.mounts
    ensures ShownWithBuiltins(w.mounts, w.builtins, m) ==> ShownOnTheWay(w, m)
    ensures (forall k :: 0 <= k < |m| ==> Beneath(w, m[..k]) == []) && ShownOnTheWay(w, m) ==>
              ShownWithBuiltins(w.mounts, w.builtins, m)
  {
    forall k | 0 <= k < |m|
      ensures BuiltinOnTheWay(w.mounts, w.builtins, m, k) ==> ServedWithName(w, m[..k], m[k])
      ensures Beneath(w, m[..k]) == [] && ServedWithName(w, m[..k], m[k]) ==> BuiltinOnTheWay(w.mounts, w.builtins, m, k)
    {
      BuiltinServes(w, m, k);
    }
    ShownUnlessLeftOut(w, m);
    hide BuiltinOnTheWay, ServedWithName, ShownOnTheWay, Beneath, BuiltinsPlaced;
  }

  lemma MountIsShown(mounts: Table, builtins: map<string, string>, m: seq<string>)
    requires BuiltinsPlaced(builtins) && AreSegments(m) && Render(m) in mounts
    ensures ShownWithBuiltins(mounts, builtins, m) <==>
            forall w: Whole :: w.mounts == mounts && w.builtins == builtins ==> ShownOnTheWay(w, m)
  {
    forall w: Whole | w.mounts == mounts && w.builtins == builtins
      ensures ShownWithBuiltins(mounts, builtins, m) ==> ShownOnTheWay(w, m)
    {
      ShownByBuiltins(w, m);
    }
    var w := Bare(mounts, builtins);
    ShownByBuiltins(w, m);
    hide ShownWithBuiltins, ShownOnTheWay;
  }

  /** With nothing listed by any filesystem, only mounts and builtins are left. */
  ghost function Bare(mounts: Table, builtins: map<string, string>): (w: Whole)
    ensures w.mounts == mounts && w.builtins == builtins && forall p :: Beneath(w, p) == []
  {
    var nothing := View(_ => [], _ => None);
    Whole(nothing, _ => nothing, mounts, builtins)
  }

  lemma RoutedIfMountedAbove(mounts: Table, p: seq<string>)
    requires AreSegments(p)
    ensures Routed(mounts, p).Some? <==> exists k :: 0 <= k <= |p| && Render(p[..k]) in mounts
  {
    hide Render, AreSegments;
    if Routed(mounts, p).Some? {
      RouteSplitsPath(mounts, p, |p|);
    } else if k :| 0 <= k <= |p| && Render(p[..k]) in mounts {
      FoundInnermost(mounts, p, |p|, k);
    }
  }

  lemma {:induction false} FoundInnermost(mounts: Table, p: seq<string>, n: nat, k: nat)
    requires k <= n <= |p| && Render(p[..k]) in mounts
    ensures Innermost(mounts, p, n).Some?
  {
    if k < n {
      FoundInnermost(mounts, p, n - 1, k);
    }
  }

  /** Without builtins, every mount is reached whatever the filesystems hold exactly when none lies inside another. */
  lemma ShownUnlessInsideAnother(mounts: Table)
    ensures (forall m, w: Whole :: AreSegments(m) && Render(m) in mounts && w.mounts == mounts && w.builtins == map[]
                                   ==> ShownOnTheWay(w, m))
            <==> forall a, m :: AreSegments(m) && Render(m) in mounts && a < m ==> Render(a) !in mounts
  {
    EveryMountIsShown(mounts, map[]);
    forall m | AreSegments(m) && Render(m) in mounts
      ensures ShownWithBuiltins(mounts, map[], m) <==> forall a :: a < m ==> Render(a) !in mounts
    {
      OutermostIsShown(mounts, m);
    }
    hide ShownOnTheWay, ShownWithBuiltins, AreSegments, Render;
  }

  lemma OutermostIsShown(mounts: Table, m: seq<string>)
    requires AreSegments(m)
    ensures ShownWithBuiltins(mounts, map[], m) <==> forall a :: a < m ==> Render(a) !in mounts
  {
    hide Render;
    forall k | 0 <= k < |m|
      ensures BuiltinOnTheWay(mounts, map[], m, k) <==> Routed(mounts, m[..k]).None?
      ensures Routed(mounts, m[..k]).Some? <==> exists j :: 0 <= j <= k && Render(m[..k][..j]) in mounts
    {
      RoutedIfMountedAbove(mounts, m[..k]);
    }
    if a :| a < m && Render(a) in mounts {
      assert m[..|a|] == a && a[..|a|] == a;
      assert !BuiltinOnTheWay(mounts, map[], m, |a|);
    } else {
      forall k | 0 <= k < |m|
        ensures BuiltinOnTheWay(mounts, map[], m, k)
      {
        assert forall j :: 0 <= j <= k ==> m[..k][..j] < m;
      }
    }
  }

  // ---- The object itself --------------------------------------------------------------------------------

  class MountableFileSystem {
    const local: View
    const inner: FileSystem -> View
    const mounts: MountPoints
    /** A filesystem of devices holds no builtins. */
    const canHoldBuiltins: bool
    var builtins: map<string, string>

    ghost predicate Valid()
      reads this, mounts
    {
      mounts.Valid() && BuiltinsPlaced(builtins)
    }

    ghost function Contents(): Whole
      reads this, mounts
    {
      Whole(local, inner, mounts.Mounted(), builtins)
    }

    constructor (beneath: View, mountable: FileSystem -> View, holdsBuiltins: bool)
      ensures Valid() && fresh(mounts) && Contents() == Whole(beneath, mountable, map[], map[])
      ensures canHoldBuiltins == holdsBuiltins
    {
      local, inner, builtins, canHoldBuiltins := beneath, mountable, map[], holdsBuiltins;
      mounts := new MountPoints();
    }

    /** Nothing is there yet, and not at the root; what is in the directory is not asked. */
    method AddBuiltinCommand(path: string, name: string) returns (r: int)
      requires Valid()
      modifies this
      ensures Valid() && mounts.Mounted() == old(mounts.Mounted())
      ensures var p := Normalize(path, ROOT);
              if p == ROOT || name == "" || !canHoldBuiltins || p in old(builtins) then r == -1 && builtins == old(builtins)
              else r == 0 && builtins == old(builtins)[p := name]
    {
      var p := NormalizeVirtualPath(path, ROOT);
      NormalizeIsNormal(path, ROOT);
      if p == ROOT || name == "" || !canHoldBuiltins || p in builtins {
        return -1;
      }
      builtins := builtins[p := name];
      r := 0;
    }

    method StatIsDirectory(path: string) returns (r: Option<bool>)
      requires Valid()
      ensures r == StatOf(Contents(), Resolved(path, []))
    {
      ghost var p := Resolved(path, []);
      var absolute := NormalizeVirtualPath(path, ROOT);
      NormalizeAtRoot(path);
      ResolvedAreSegments(path, []);
      if absolute in builtins {
        return Some(false);
      }
      var route := mounts.Resolve(absolute);
      if route.Some? {
        return inner(route.value.filesystem).stat(route.value.innerPath);
      }
      r := local.stat(absolute);
      if r.Some? {
        return;
      }
      var below := mounts.AnyBelow(absolute, p);
      r := if below then Some(true) else None;
    }

    method ReadDirectory(path: string) returns (entries: seq<DirectoryEntry>)
      requires Valid()
      ensures IsListingOf(Contents(), Resolved(path, []), entries)
    {
      hide StatOf, IsAdded, Render, AreSegments, Dotted, Resolved, Normalize, Towards, HasBuiltin, Beneath, IsListingOf;
      ghost var p := Resolved(path, []);
      var absolute := NormalizeVirtualPath(path, ROOT);
      NormalizeAtRoot(path);
      ResolvedAreSegments(path, []);
      BeneathIs(Contents(), p);
      var route := mounts.Resolve(absolute);
      var mounted: seq<DirectoryEntry> := [];
      if route.Some? {
        entries := inner(route.value.filesystem).list(route.value.innerPath);
        NoneAdded(entries, (iset n | Towards(Contents(), p, n)), true);
      } else {
        entries := local.list(absolute);
        var segments := mounts.ChildSegments(absolute, p);
        mounted := Additions(entries, segments, true);
        assert (iset n | Towards(Contents(), p, n)) == Each(segments);
      }
      var own := OwnBuiltinEntries(absolute, entries + mounted);
      BuiltinNames(Contents(), p);
      entries := PutDotEntriesFirst(path, entries + mounted + own);
      ListingIs(Contents(), p, mounted, own, entries);
    }

    /** AddOwnBuiltinEntries, in whatever order the builtins come. */
    method OwnBuiltinEntries(directory: string, listed: seq<DirectoryEntry>) returns (own: seq<DirectoryEntry>)
      ensures IsAdded(listed, (iset n | HasChild(builtins.Keys, directory, n)), false, own)
    {
      own := [];
      var left := builtins.Keys;
      NoneAdded(listed, iset{}, false);
      ghost var names := iset{};
      while left != {}
        invariant left <= builtins.Keys
        invariant names == iset n | HasChild(builtins.Keys - left, directory, n)
        invariant IsAdded(listed, names, false, own)
        decreases |left|
      {
        var b :| b in left;
        hide VirtualParentOf, VirtualLastSegment, IsAdded;
        if VirtualParentOf(b) == directory {
          own := Add(listed, names, false, own, VirtualLastSegment(b));
          names := names + iset{VirtualLastSegment(b)};
        }
        left := left - {b};
      }
    }

    /** Takes the dots out and puts them first, unless there is nothing and no directory. */
    method PutDotEntriesFirst(path: string, listed: seq<DirectoryEntry>) returns (entries: seq<DirectoryEntry>)
      requires Valid()
      ensures entries == Dotted(listed, StatOf(Contents(), Resolved(path, [])) == Some(true))
    {
      hide StatOf, Resolved, WithoutDots;
      var others, hadDots := TakeDotsOut(listed);
      if !hadDots && others == [] {
        var isDirectory := StatIsDirectory(path);
        if isDirectory != Some(true) {
          return [];
        }
      }
      entries := [DirectoryEntry(".", true), DirectoryEntry("..", true)] + others;
    }
  }

  /** What a listing starts from, by where the path goes. */
  lemma BeneathIs(w: Whole, p: seq<string>)
    ensures match Routed(w.mounts, p)
            case Some(route) => Beneath(w, p) == w.inner(route.filesystem).list(route.innerPath) && forall n :: !Towards(w, p, n)
            case None => Beneath(w, p) == w.local.list(Render(p)) && forall n :: Towards(w, p, n) <==> IsChild(w.mounts, p, n)
  {
    hide Render, IsChild;
  }

  lemma BuiltinNames(w: Whole, p: seq<string>)
    ensures (iset n | HasBuiltin(w, p, n)) == iset n | HasChild(w.builtins.Keys, Render(p), n)
  {
  }

  lemma ListingIs(w: Whole, p: seq<string>, mounted: seq<DirectoryEntry>, own: seq<DirectoryEntry>, entries: seq<DirectoryEntry>)
    requires IsAdded(Beneath(w, p), (iset n | Towards(w, p, n)), true, mounted)
    requires IsAdded(Beneath(w, p) + mounted, (iset n | HasBuiltin(w, p, n)), false, own)
    requires entries == Dotted(Beneath(w, p) + mounted + own, StatOf(w, p) == Some(true))
    ensures IsListingOf(w, p, entries)
  {
    hide Dotted, IsAdded, StatOf, Beneath;
    assert ListsWith(w, p, mounted, own, entries);
  }

  /** The entries but for the dots, and whether there were any. */
  method TakeDotsOut(listed: seq<DirectoryEntry>) returns (others: seq<DirectoryEntry>, hadDots: bool)
    ensures others == WithoutDots(listed) && (hadDots ==> listed != []) && (!hadDots ==> others == listed)
  {
    others, hadDots := [], false;
    for i := 0 to |listed|
      invariant others == WithoutDots(listed[..i]) && (hadDots ==> i > 0) && (!hadDots ==> others == listed[..i])
    {
      assert listed[..i + 1][..i] == listed[..i];
      hide IsDot;
      if IsDot(listed[i]) {
        hadDots := true;
      } else {
        others := others + [listed[i]];
      }
    }
    assert listed[..|listed|] == listed;
  }

  /** One name more, unless it is listed. */
  method Add(listed: seq<DirectoryEntry>, ghost names: iset<string>, isDirectory: bool, added: seq<DirectoryEntry>, name: string)
    returns (more: seq<DirectoryEntry>)
    requires IsAdded(listed, names, isDirectory, added)
    ensures IsAdded(listed, names + iset{name}, isDirectory, more)
  {
    var already := IsListed(listed + added, name);
    NamedJoin(listed, added, name);
    more := added;
    if !already {
      var e := DirectoryEntry(name, isDirectory);
      more := added + [e];
      OneAdded(listed, names, isDirectory, added, e);
    }
  }

  lemma OneAdded(listed: seq<DirectoryEntry>, names: iset<string>, isDirectory: bool, added: seq<DirectoryEntry>, e: DirectoryEntry)
    requires IsAdded(listed, names, isDirectory, added) && e.isDirectory == isDirectory
    requires !Named(listed, e.name) && !Named(added, e.name)
    ensures IsAdded(listed, names + iset{e.name}, isDirectory, added + [e])
  {
    forall n
      ensures Named(added + [e], n) <==> n in names + iset{e.name} && !Named(listed, n)
    {
      NamedJoin(added, [e], n);
      assert Named([e], n) <==> n == e.name by { assert e in [e]; }
    }
    forall i | 0 <= i < |added|
      ensures added[i].name != e.name
    {
      assert added[i] in added;
    }
  }

  lemma NoneAdded(listed: seq<DirectoryEntry>, names: iset<string>, isDirectory: bool)
    requires names == iset{}
    ensures IsAdded(listed, names, isDirectory, [])
  {
  }

  ghost function Each(names: seq<string>): iset<string>
  {
    iset n | n in names
  }

  /** The entries for the names that are not listed yet. */
  method Additions(listed: seq<DirectoryEntry>, names: seq<string>, isDirectory: bool) returns (added: seq<DirectoryEntry>)
    ensures IsAdded(listed, Each(names), isDirectory, added)
  {
    added := [];
    NoneAdded(listed, iset{}, isDirectory);
    assert Each(names[..0]) == iset{};
    hide IsAdded;
    for i := 0 to |names|
      invariant IsAdded(listed, Each(names[..i]), isDirectory, added)
    {
      assert names[..i + 1] == names[..i] + [names[i]];
      assert Each(names[..i + 1]) == Each(names[..i]) + iset{names[i]};
      added := Add(listed, Each(names[..i]), isDirectory, added, names[i]);
    }
    assert names[..|names|] == names;
  }

  // ---- An in-memory filesystem answers like that ----------------------------------------------------------

  /** What the in-memory filesystem's ReadDirectory and Stat answer agrees, so it may stand underneath or be mounted. */
  lemma InMemoryAgrees(t: Tree, v: View)
    requires IsTree(t)
    requires forall p :: AreSegments(p) ==> InMemoryFileSystems.IsListing(t, Render(p), v.list(Render(p)))
    requires forall p :: AreSegments(p) ==> v.stat(Render(p)) == InMemoryTree.Stat(t, Render(p))
    ensures Agrees(v)
  {
    assert AreSegments([]) && Render([]) == ROOT;
    forall p, n | AreSegments(p) && IsSegment(n)
      ensures AgreesAt(v, p, n)
    {
      assert AreSegments(p + [n]);
      InMemoryNames(t, p, n, v.list(Render(p)));
    }
  }

  lemma InMemoryNames(t: Tree, p: seq<string>, n: string, entries: seq<DirectoryEntry>)
    requires IsTree(t) && AreSegments(p) && IsSegment(n) && InMemoryFileSystems.IsListing(t, Render(p), entries)
    ensures Named(entries, n) <==> Render(p + [n]) in t.nodes || Render(p + [n]) in t.builtins
  {
    hide *;
    if Render(p + [n]) in t.nodes || Render(p + [n]) in t.builtins {
      ThereIsNamed(t, p, n, entries);
    }
    if Named(entries, n) {
      NamedIsThere(t, p, n, entries);
    }
  }

  lemma ThereIsNamed(t: Tree, p: seq<string>, n: string, entries: seq<DirectoryEntry>)
    requires IsTree(t) && AreSegments(p) && IsSegment(n) && InMemoryFileSystems.IsListing(t, Render(p), entries)
    requires Render(p + [n]) in t.nodes || Render(p + [n]) in t.builtins
    ensures Named(entries, n)
  {
    hide AreSegments, Render, VirtualParentOf, VirtualLastSegment;
    var (d, q) := (Render(p), Render(p + [n]));
    LastSegmentIs(p, n);
    assert InDirectory(t, q);
    var e := DirectoryEntry(n, q in t.nodes && t.nodes[q].isDirectory);
    assert IsEntryOf(t, d, q, e) && q in t.nodes.Keys + t.builtins.Keys;
    assert e in entries[2..] && e in entries;
  }

  lemma NamedIsThere(t: Tree, p: seq<string>, n: string, entries: seq<DirectoryEntry>)
    requires IsTree(t) && AreSegments(p) && IsSegment(n) && InMemoryFileSystems.IsListing(t, Render(p), entries)
    requires Named(entries, n)
    ensures Render(p + [n]) in t.nodes || Render(p + [n]) in t.builtins
  {
    hide AreSegments, Render, VirtualParentOf, VirtualLastSegment, IsTree;
    var (d, q) := (Render(p), Render(p + [n]));
    LastSegmentIs(p, n);
    var e :| e in entries && e.name == n;
    NotADot(n);
    assert entries == entries[..2] + entries[2..];
    assert e in entries[2..];
    var r :| r in t.nodes.Keys + t.builtins.Keys && IsEntryOf(t, d, r, e);
    KeysAreNormal(t, t.nodes.Keys + t.builtins.Keys);
    SiblingsDiffer(d, q, r);
  }

  lemma NotADot(n: string)
    requires IsSegment(n)
    ensures n != "." && n != ".."
  {
  }

  /** A path one segment below another lies directly in it, under that name. */
  lemma LastSegmentIs(p: seq<string>, n: string)
    requires AreSegments(p) && IsSegment(n)
    ensures var q := Render(p + [n]);
            Normal(q) && q != Render(p) && VirtualParentOf(q) == Render(p) && VirtualLastSegment(q) == n
  {
    var ss := p + [n];
    assert AreSegments(ss) && ss[..|ss| - 1] == p;
    hide AreSegments, Render, VirtualParentOf, VirtualLastSegment;
    ParentIs(ss);
    RenderDiffers(p, n);
  }

  lemma RenderDiffers(p: seq<string>, n: string)
    requires AreSegments(p) && IsSegment(n)
    ensures Render(p + [n]) != Render(p)
  {
    if Render(p + [n]) == Render(p) {
      RenderInjective(p + [n], p);
    }
  }
}
