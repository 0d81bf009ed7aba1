/**
 Filesystems made of other filesystems (src/components/Filesystem/ComposedFileSystem.cpp, SubFileSystem.cpp):
 chains of overlays against one mount table, and confinement to a sub-path.
 */
module Overlays {
  import opened Basics
  import opened VirtualPath
  import opened MountPoints

  // ---- Chains of overlays -------------------------------------------------------------------------------

  /** One ComposedFileSystem: `mounted` at `at` over whatever is beneath. */
  datatype Layer = Layer(at: string, mounted: FileSystem)

  function At(layers: seq<Layer>, i: nat): seq<string>
    requires i < |layers|
  {
    Resolved(layers[i].at, [])
  }

  /** Where a chain sends a path, the outermost overlay being the last: each keeps what is under its one mount. */
  function ChainRoute(base: FileSystem, layers: seq<Layer>, path: string): Route
    decreases |layers|
  {
    if layers == [] then Route(base, Normalize(path, "/"))
    else
      var outer := layers[|layers| - 1];
      match Routed(map[Normalize(outer.at, "/") := outer.mounted], Resolved(path, []))
      case Some(route) => route
      case None => ChainRoute(base, layers[..|layers| - 1], Normalize(path, "/"))
  }

  /** The table with the same mounts made in the same order. */
  function MountAll(layers: seq<Layer>): Table
  {
    if layers == [] then map[]
    else MountAll(layers[..|layers| - 1])[Normalize(layers[|layers| - 1].at, "/") := layers[|layers| - 1].mounted]
  }

  function TableRoute(base: FileSystem, layers: seq<Layer>, path: string): Route
  {
    match Routed(MountAll(layers), Resolved(path, []))
    case Some(route) => route
    case None => Route(base, Normalize(path, "/"))
  }

  /** No mount point is covered by a later mount above it, unless it is mounted again after that. */
  ghost predicate NoneCovered(layers: seq<Layer>)
  {
    forall i, j :: 0 <= i < j < |layers| && At(layers, j) < At(layers, i) ==> MountedAgain(layers, i, j)
  }

  ghost predicate MountedAgain(layers: seq<Layer>, i: nat, j: nat)
    requires i < |layers|
  {
    exists k :: j < k < |layers| && At(layers, k) == At(layers, i)
  }

  /** Each overlay's one-mount table. */
  lemma OneMount(at: string, mounted: FileSystem, p: seq<string>)
    requires AreSegments(p)
    ensures var m := Resolved(at, []);
            Routed(map[Normalize(at, "/") := mounted], p) ==
            if m <= p then Some(Route(mounted, Render(p[|m|..]))) else None
  {
    var m := Resolved(at, []);
    var table := map[Normalize(at, "/") := mounted];
    NormalizeAtRoot(at);
    ResolvedAreSegments(at, []);
    hide Render, Resolved, Normalize, AreSegments;
    forall k | 0 <= k <= |p| && p[..k] != m
      ensures Render(p[..k]) !in table
    {
      if Render(p[..k]) == Render(m) {
        RenderInjectiveOnPrefix(p, k, m);
      }
    }
    if m <= p {
      InnermostIsLongest(table, p, |p|, m);
    } else {
      NoneInnermost(table, p, |p|);
    }
  }

  lemma RenderInjectiveOnPrefix(p: seq<string>, k: nat, m: seq<string>)
    requires AreSegments(p) && AreSegments(m) && k <= |p|
    ensures Render(p[..k]) == Render(m) ==> p[..k] == m
  {
    if Render(p[..k]) == Render(m) {
      RenderInjective(p[..k], m);
    }
  }

  /** The last layer at or above the path. */
  function LastAbove(layers: seq<Layer>, p: seq<string>): (r: Option<nat>)
    ensures r.Some? ==> r.value < |layers| && At(layers, r.value) <= p
    ensures r.Some? ==> forall i :: r.value < i < |layers| ==> !(At(layers, i) <= p)
    ensures r.None? ==> forall i :: 0 <= i < |layers| ==> !(At(layers, i) <= p)
  {
    if layers == [] then None
    else if At(layers, |layers| - 1) <= p then Some(|layers| - 1)
    else
      var front := layers[..|layers| - 1];
      assert forall i :: 0 <= i < |front| ==> At(front, i) == At(layers, i);
      LastAbove(front, p)
  }

  /** A chain sends a path to the last mount at or above it. */
  lemma {:induction false} ChainIs(base: FileSystem, layers: seq<Layer>, path: string)
    ensures var p := Resolved(path, []);
            ChainRoute(base, layers, path) ==
            match LastAbove(layers, p)
            case Some(i) => Route(layers[i].mounted, Render(p[|At(layers, i)|..]))
            case None => Route(base, Render(p))
    decreases |layers|
  {
    var p := Resolved(path, []);
    ResolvedAreSegments(path, []);
    NormalizeAtRoot(path);
    if layers != [] {
      var (front, outer) := (layers[..|layers| - 1], layers[|layers| - 1]);
      OneMount(outer.at, outer.mounted, p);
      RenderResolves(p, []);
      hide Resolved, Render, Normalize, Routed;
      ChainIs(base, front, Normalize(path, "/"));
      assert forall i :: 0 <= i < |front| ==> At(front, i) == At(layers, i);
    }
  }

  /** The table has, at each mount point, what was mounted there last. */
  lemma {:induction false} TableHasLast(layers: seq<Layer>, i: nat)
    requires i < |layers| && forall k :: i < k < |layers| ==> At(layers, k) != At(layers, i)
    ensures Render(At(layers, i)) in MountAll(layers) && MountAll(layers)[Render(At(layers, i))] == layers[i].mounted
    decreases |layers|
  {
    var (front, n) := (layers[..|layers| - 1], |layers| - 1);
    NormalizeAtRoot(layers[n].at);
    if i < n {
      assert forall k :: 0 <= k < n ==> At(front, k) == At(layers, k);
      TableHasLast(front, i);
      ResolvedAreSegments(layers[i].at, []);
      ResolvedAreSegments(layers[n].at, []);
      if Render(At(layers, n)) == Render(At(layers, i)) {
        RenderInjective(At(layers, n), At(layers, i));
        assert false;
      }
    }
  }

  lemma {:induction false} TableHasOnly(layers: seq<Layer>, q: seq<string>)
    requires AreSegments(q)
    ensures Render(q) in MountAll(layers) ==> exists i :: 0 <= i < |layers| && At(layers, i) == q
    decreases |layers|
  {
    if layers != [] {
      var (front, n) := (layers[..|layers| - 1], |layers| - 1);
      NormalizeAtRoot(layers[n].at);
      ResolvedAreSegments(layers[n].at, []);
      if Render(At(layers, n)) == Render(q) {
        RenderInjective(At(layers, n), q);
      } else if Render(q) in MountAll(layers) {
        TableHasOnly(front, q);
        var i :| 0 <= i < |front| && At(front, i) == q;
        assert At(layers, i) == q;
      }
    }
  }

  /** With no mount point covered, the last mount above a path is the innermost. */
  lemma LastIsInnermost(layers: seq<Layer>, p: seq<string>, i: nat, k: nat)
    requires NoneCovered(layers) && LastAbove(layers, p) == Some(i) && |At(layers, i)| < k <= |p| && AreSegments(p)
    ensures Render(p[..k]) !in MountAll(layers)
  {
    forall j | 0 <= j < |layers|
      ensures At(layers, j) != p[..k]
    {
      assert j < i && At(layers, i) < At(layers, j) ==> MountedAgain(layers, j, i);
      assert MountedAgain(layers, j, i) ==> At(layers, j) != p[..k];
    }
    hide At, NoneCovered, Render;
    TableHasOnly(layers, p[..k]);
  }

  lemma UncoveredChainIsTable(base: FileSystem, layers: seq<Layer>, path: string)
    requires NoneCovered(layers)
    ensures ChainRoute(base, layers, path) == TableRoute(base, layers, path)
  {
    var p := Resolved(path, []);
    ResolvedAreSegments(path, []);
    NormalizeAtRoot(path);
    ChainIs(base, layers, path);
    hide Resolved, Render, Normalize, Innermost, MountAll, NoneCovered, ChainRoute;
    match LastAbove(layers, p)
    case Some(i) =>
      TableHasLast(layers, i);
      AtAreSegments(layers, i);
      forall k | |At(layers, i)| < k <= |p|
        ensures Render(p[..k]) !in MountAll(layers)
      {
        LastIsInnermost(layers, p, i, k);
      }
      InnermostIsLongest(MountAll(layers), p, |p|, At(layers, i));
    case None =>
      forall k | 0 <= k <= |p|
        ensures Render(p[..k]) !in MountAll(layers)
      {
        NotMounted(layers, p, k);
      }
      NoneInnermost(MountAll(layers), p, |p|);
  }

  lemma AtAreSegments(layers: seq<Layer>, i: nat)
    requires i < |layers|
    ensures AreSegments(At(layers, i))
  {
    ResolvedAreSegments(layers[i].at, []);
  }

  lemma NotMounted(layers: seq<Layer>, p: seq<string>, k: nat)
    requires LastAbove(layers, p) == None && k <= |p| && AreSegments(p)
    ensures Render(p[..k]) !in MountAll(layers)
  {
    assert forall j :: 0 <= j < |layers| ==> At(layers, j) != p[..k];
    hide At, Render;
    TableHasOnly(layers, p[..k]);
  }

  /** At a covered mount point the two differ: the chain goes to the mount above it, the table to the mount itself. */
  lemma CoveredChainDiffers(base: FileSystem, layers: seq<Layer>, i: nat, j: nat)
    requires i < j < |layers| && At(layers, j) < At(layers, i) && !MountedAgain(layers, i, j)
    ensures var path := Render(At(layers, i));
            ChainRoute(base, layers, path).innerPath != "/" && TableRoute(base, layers, path).innerPath == "/"
  {
    var p := At(layers, i);
    AtAreSegments(layers, i);
    RenderResolves(p, []);
    ChainIs(base, layers, Render(p));
    var last := LastAbove(layers, p).value;
    assert last >= j && At(layers, last) != p;
    AtAreSegments(layers, last);
    var inner := p[|At(layers, last)|..];
    assert inner != [] && AreSegments(inner);
    if Render(inner) == Render([]) {
      RenderInjective(inner, []);
      assert false;
    }
    TableHasSome(layers, i);
    assert p[..|p|] == p && p[|p|..] == [];
  }

  lemma {:induction false} TableHasSome(layers: seq<Layer>, i: nat)
    requires i < |layers|
    ensures Render(At(layers, i)) in MountAll(layers)
    decreases |layers|
  {
    var n := |layers| - 1;
    NormalizeAtRoot(layers[n].at);
    if i < n {
      TableHasSome(layers[..n], i);
      assert At(layers[..n], i) == At(layers, i);
    }
  }

  /**
   A chain of overlays and one table with the same mounts in the same order route every path alike
   exactly when no mount point is covered by a later mount above it.
   */
  lemma ChainsAreTables(base: FileSystem, layers: seq<Layer>)
    ensures (forall path: string :: ChainRoute(base, layers, path) == TableRoute(base, layers, path)) <==> NoneCovered(layers)
  {
    if NoneCovered(layers) {
      forall path: string
        ensures ChainRoute(base, layers, path) == TableRoute(base, layers, path)
      {
        UncoveredChainIsTable(base, layers, path);
      }
    } else {
      var i, j :| 0 <= i < j < |layers| && At(layers, j) < At(layers, i) && !MountedAgain(layers, i, j);
      hide ChainRoute, TableRoute, At;
      CoveredChainDiffers(base, layers, i, j);
      assert ChainRoute(base, layers, Render(At(layers, i))) != TableRoute(base, layers, Render(At(layers, i)));
    }
  }

  // ---- Sub-paths ---------------------------------------------------------------------------------------------

  /** SubFileSystem::ResolveInRoot, on the base path its constructor normalized. */
  function ResolveInRoot(basePath: string, path: string): string
  {
    var normalized := Normalize(path, "/");
    if basePath == "/" then normalized
    else if normalized == "/" then basePath
    else basePath + normalized
  }

  lemma ResolveInRootIs(b: seq<string>, path: string)
    requires AreSegments(b)
    ensures ResolveInRoot(Render(b), path) == Render(b + Resolved(path, [])) && AreSegments(Resolved(path, []))
  {
    var p := Resolved(path, []);
    NormalizeAtRoot(path);
    ResolvedAreSegments(path, []);
    assert b == [] ==> b + p == p;
    assert p == [] ==> b + p == b;
    RenderIsRoot(b);
    RenderIsRoot(p);
    SlashedAdds(b, p);
    hide Resolved, Normalize;
  }

  /** Every path, however many ".." it holds, is resolved at or under the base, and RelativeToBase undoes it. */
  lemma SubPathsAreConfined(base: string, path: string)
    ensures var basePath := Normalize(base, "/");
            var resolved := ResolveInRoot(basePath, path);
            && resolved == Render(Resolved(base, []) + Resolved(path, []))
            && IsAtOrUnder(resolved, basePath)
            && RelativeToBase(basePath, resolved) == Some(Normalize(path, "/"))
  {
    var (b, p) := (Resolved(base, []), Resolved(path, []));
    NormalizeAtRoot(base);
    NormalizeAtRoot(path);
    ResolvedAreSegments(base, []);
    ResolveInRootIs(b, path);
    AtOrUnderIs(b + p, b);
    RelativeUndoes(b, p);
    hide Resolved, Normalize, Render;
  }

  lemma RenderIsRoot(ss: seq<string>)
    requires AreSegments(ss)
    ensures Render(ss) == "/" <==> ss == []
  {
    if Render(ss) == "/" {
      assert Render([]) == "/";
      RenderInjective(ss, []);
    }
  }

  /** A sub-path of a sub-path is a sub-path. */
  lemma SubPathsCompose(outer: string, inner: string, path: string)
    ensures ResolveInRoot(Normalize(outer, "/"), ResolveInRoot(Normalize(inner, "/"), path))
         == ResolveInRoot(ResolveInRoot(Normalize(outer, "/"), inner), path)
  {
    hide *;
    var (o, i, p) := (Resolved(outer, []), Resolved(inner, []), Resolved(path, []));
    NormalizeAtRoot(outer);
    NormalizeAtRoot(inner);
    ResolvedAreSegments(outer, []);
    ResolvedAreSegments(inner, []);
    ResolveInRootIs(i, path);
    ResolveInRootIs(o, inner);
    BothAreSegments(i, p);
    BothAreSegments(o, i);
    RenderResolves(i + p, []);
    ResolveInRootIs(o, Render(i + p));
    ResolveInRootIs(o + i, path);
    assert o + (i + p) == o + i + p;
  }

  lemma BothAreSegments(a: seq<string>, b: seq<string>)
    requires AreSegments(a) && AreSegments(b)
    ensures AreSegments(a + b)
  {
  }
}
