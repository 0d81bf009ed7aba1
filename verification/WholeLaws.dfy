/**
 What Stat says and what kinds a listing shows of a filesystem with others mounted on it
 (src/components/Filesystem/MountableFileSystem.cpp:141-225).
 */
module WholeLaws {
  import opened Basics
  import opened VirtualPath
  import opened MountPoints
  import opened InMemoryTree
  import opened InMemoryFileSystems
  import opened MountableFileSystems

  /** The mount on `path`'s first `k` segments is the innermost the path is at or under. */
  ghost predicate ServedFrom(w: Whole, path: seq<string>, k: nat)
    requires k <= |path|
  {
    Render(path[..k]) in w.mounts && forall j :: k < j <= |path| ==> Render(path[..j]) !in w.mounts
  }

  ghost predicate Unserved(w: Whole, path: seq<string>)
  {
    forall j :: 0 <= j <= |path| ==> Render(path[..j]) !in w.mounts
  }

  /** Some mount lies strictly below the path. */
  ghost predicate MountBelow(w: Whole, path: seq<string>)
  {
    exists m :: AreSegments(m) && path < m && Render(m) in w.mounts
  }

  /**
   A builtin is found before anything else, as a file; then the innermost mount answers for what is at or under it;
   then the filesystem underneath; and what only leads to a mount is a directory.
   */
  lemma StatIs(w: Whole, p: seq<string>, k: nat)
    requires AreSegments(p) && k <= |p|
    ensures Render(p) in w.builtins ==> StatOf(w, p) == Some(false)
    ensures Render(p) !in w.builtins && ServedFrom(w, p, k) ==>
              StatOf(w, p) == w.inner(w.mounts[Render(p[..k])]).stat(Render(p[k..]))
    ensures Render(p) !in w.builtins && Unserved(w, p) ==>
              StatOf(w, p) == if w.local.stat(Render(p)).Some? then w.local.stat(Render(p))
                              else if MountBelow(w, p) then Some(true) else None
  {
    hide Render, AreSegments;
    if ServedFrom(w, p, k) {
      assert AreSegments(p[..k]) by { FrontSegments(p, k); }
      assert p[..k] <= p;
      InnermostIsLongest(w.mounts, p, |p|, p[..k]);
    }
    if Unserved(w, p) {
      NoneInnermost(w.mounts, p, |p|);
      BelowIsChild(w, p);
    }
  }

  lemma FrontSegments(p: seq<string>, k: nat)
    requires AreSegments(p) && k <= |p|
    ensures AreSegments(p[..k])
  {
  }

  lemma BelowIsChild(w: Whole, p: seq<string>)
    ensures MountBelow(w, p) <==> exists n :: IsChild(w.mounts, p, n)
  {
    hide Render, AreSegments;
    if m :| AreSegments(m) && p < m && Render(m) in w.mounts {
      assert IsChild(w.mounts, p, m[|p|]);
    }
  }

  /** A listing gives each entry the kind that Stat finds, and the root is a directory. */
  ghost predicate KindsAgree(v: View)
  {
    && v.stat(ROOT) == Some(true)
    && forall p, e: DirectoryEntry :: AreSegments(p) && IsSegment(e.name) && e in v.list(Render(p)) ==> KindAt(v, p, e)
  }

  ghost predicate KindAt(v: View, p: seq<string>, e: DirectoryEntry)
  {
    v.stat(Render(p + [e.name])) == Some(e.isDirectory)
  }

  /** Where an entry comes from: what is beneath, a mount below, or a builtin. */
  lemma EntryComesFrom(w: Whole, p: seq<string>, entries: seq<DirectoryEntry>, e: DirectoryEntry)
    requires IsListingOf(w, p, entries) && e in entries && IsSegment(e.name)
    ensures e in Beneath(w, p)
            || (Towards(w, p, e.name) && e.isDirectory && !Named(Beneath(w, p), e.name))
            || (HasBuiltin(w, p, e.name) && !e.isDirectory)
  {
    hide Towards, HasBuiltin, StatOf, Beneath;
    var mounted, own :| ListsWith(w, p, mounted, own, entries);
    var beneath := Beneath(w, p);
    WithoutDotsIs(beneath + mounted + own);
    assert e != DirectoryEntry(".", true) && e != DirectoryEntry("..", true);
    assert e in beneath + mounted + own;
    if e in mounted {
      assert Named(mounted, e.name);
    } else if e in own {
      assert Named(own, e.name);
    }
  }

  /**
   Each entry of a listing has the kind that Stat finds for its path, unless a builtin or a mount covers what is
   listed: then Stat finds a file or a directory, whatever the entry says.
   */
  lemma ListedKinds(w: Whole, p: seq<string>, entries: seq<DirectoryEntry>, e: DirectoryEntry)
    requires Agrees(w.local) && KindsAgree(w.local) && (forall f :: KindsAgree(w.inner(f))) && BuiltinsPlaced(w.builtins)
    requires AreSegments(p) && IsListingOf(w, p, entries) && e in entries && IsSegment(e.name)
    ensures var q := p + [e.name];
            StatOf(w, q) == Some(if Render(q) in w.builtins then false else if Render(q) in w.mounts then true else e.isDirectory)
  {
    hide *;
    EntryComesFrom(w, p, entries, e);
    BuiltinIsThere(w, p, e.name);
    if Render(p + [e.name]) in w.builtins {
      AtBuiltin(w, p + [e.name]);
    } else if Render(p + [e.name]) in w.mounts {
      AtMount(w, p, e.name);
    } else if e in Beneath(w, p) {
      KindBeneath(w, p, e);
    } else if Towards(w, p, e.name) {
      KindOnTheWay(w, p, e.name);
    }
  }

  lemma AtMount(w: Whole, p: seq<string>, n: string)
    requires (forall f :: KindsAgree(w.inner(f))) && AreSegments(p) && IsSegment(n)
    requires Render(p + [n]) !in w.builtins && Render(p + [n]) in w.mounts
    ensures StatOf(w, p + [n]) == Some(true)
  {
    RoutedFurther(w.mounts, p, n);
    hide Render, IsChild, IsSegment, AreSegments;
    assert w.inner(w.mounts[Render(p + [n])]).stat(ROOT) == Some(true);
  }

  lemma AtBuiltin(w: Whole, q: seq<string>)
    ensures Render(q) in w.builtins ==> StatOf(w, q) == Some(false)
  {
    hide Render;
  }

  lemma KindBeneath(w: Whole, p: seq<string>, e: DirectoryEntry)
    requires KindsAgree(w.local) && (forall f :: KindsAgree(w.inner(f))) && AreSegments(p) && IsSegment(e.name)
    requires e in Beneath(w, p) && Render(p + [e.name]) !in w.builtins && Render(p + [e.name]) !in w.mounts
    ensures StatOf(w, p + [e.name]) == Some(e.isDirectory)
  {
    RoutedFurther(w.mounts, p, e.name);
    hide Render, IsChild;
    if Routed(w.mounts, p).Some? {
      var k :| 0 <= k <= |p| && Render(p[..k]) in w.mounts
               && Routed(w.mounts, p).value == Route(w.mounts[Render(p[..k])], Render(p[k..]))
               && Routed(w.mounts, p + [e.name]) == Some(Route(w.mounts[Render(p[..k])], Render(p[k..] + [e.name])));
      assert AreSegments(p[k..]);
      assert KindAt(w.inner(w.mounts[Render(p[..k])]), p[k..], e);
    } else {
      assert KindAt(w.local, p, e);
    }
  }

  /** A name that only leads to a mount. */
  lemma KindOnTheWay(w: Whole, p: seq<string>, n: string)
    requires Agrees(w.local) && AreSegments(p) && IsSegment(n)
    requires Towards(w, p, n) && !Named(Beneath(w, p), n)
    requires Render(p + [n]) !in w.builtins && Render(p + [n]) !in w.mounts
    ensures StatOf(w, p + [n]) == Some(true)
  {
    RoutedFurther(w.mounts, p, n);
    ChildFurther(w.mounts, p, n);
    assert AgreesAt(w.local, p, n);
    hide Render, IsChild, IsSegment, AreSegments, Agrees, Named;
  }

  /** "." and ".." stand first, as directories, once, and the rest as it stood; there is nothing of no directory. */
  lemma DotsComeFirst(entries: seq<DirectoryEntry>, isDirectory: bool, dot: DirectoryEntry,
                      a: seq<DirectoryEntry>, b: seq<DirectoryEntry>)
    ensures Dotted([], false) == []
    ensures (entries != [] || isDirectory) && (forall e :: e in entries ==> e.name != "." && e.name != "..") ==>
              Dotted(entries, isDirectory) == [DirectoryEntry(".", true), DirectoryEntry("..", true)] + entries
    ensures dot.name == "." || dot.name == ".." ==> Dotted(a + [dot] + b, isDirectory) == Dotted(a + b, true)
  {
    if forall e :: e in entries ==> e.name != "." && e.name != ".." {
      NoneTaken(entries);
    }
    if dot.name == "." || dot.name == ".." {
      TakenOut(a, dot, b);
    }
    hide WithoutDots;
  }

  lemma {:induction false} NoneTaken(entries: seq<DirectoryEntry>)
    requires forall e :: e in entries ==> !IsDot(e)
    ensures WithoutDots(entries) == entries
  {
    if entries != [] {
      NoneTaken(entries[..|entries| - 1]);
    }
  }

  lemma {:induction false} TakenOut(a: seq<DirectoryEntry>, dot: DirectoryEntry, b: seq<DirectoryEntry>)
    requires IsDot(dot)
    ensures WithoutDots(a + [dot] + b) == WithoutDots(a + b)
    decreases |b|
  {
    var (with, without) := (a + [dot] + b, a + b);
    if b == [] {
      assert with[..|with| - 1] == a && a + b == a;
    } else {
      var (front, last) := (b[..|b| - 1], b[|b| - 1]);
      TakenOut(a, dot, front);
      assert with[..|with| - 1] == a + [dot] + front && with[|with| - 1] == last;
      assert without[..|without| - 1] == a + front && without[|without| - 1] == last;
    }
  }
}
