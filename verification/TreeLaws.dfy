/**
 What each operation of an in-memory filesystem does to its tree, and when it is refused
 (src/components/Filesystem/InMemoryFileSystem.cpp:89-234, MountableFileSystem.cpp).
 */
module TreeLaws {
  import opened Basics
  import opened VirtualPath
  import opened MountPoints
  import opened InMemoryTree

  /** Nothing but what is at `p` may differ. */
  ghost predicate SameBut(t: Tree, t': Tree, p: string)
  {
    && (forall q :: q != p ==> (q in t'.nodes <==> q in t.nodes) && (q in t.nodes ==> t'.nodes[q] == t.nodes[q]))
    && (forall q :: q != p ==> (q in t'.builtins <==> q in t.builtins) && (q in t.builtins ==> t'.builtins[q] == t.builtins[q]))
  }

  /**
   Opening is refused for a builtin asked for writing, a directory, and what is missing without create or its
   parent directory; a refused open changes nothing. A builtin opens as it is. A file keeps its bytes, unless
   truncated, and one that was missing is there then, empty. Nothing else changes.
   */
  lemma OpeningIs(t: Tree, p: string, flags: Flags)
    ensures var (t', file) := Open(t, p, flags);
            && SameBut(t, t', p) && t'.builtins == t.builtins
            && (file.NotOpened? <==>
                  if p in t.builtins then flags.writeOnly || flags.readWrite || flags.create || flags.truncate || flags.append
                  else if p in t.nodes then t.nodes[p].isDirectory
                  else !flags.create || !IsDirectory(t, VirtualParentOf(p)))
            && (file.NotOpened? ==> t' == t)
            && (!file.NotOpened? ==>
                  if p in t.builtins then t' == t && file == OpenedBuiltin(t.builtins[p])
                  else
                    && file == OpenedFile(p) && p in t'.nodes && !t'.nodes[p].isDirectory
                    && t'.nodes[p].data == if p in t.nodes && !flags.truncate then t.nodes[p].data else [])
  {
    hide VirtualParentOf;
  }

  /** A directory is made, empty, exactly where nothing is yet and the parent is a directory. */
  lemma CreationIs(t: Tree, p: string)
    ensures var (t', r) := CreateDirectory(t, p);
            && SameBut(t, t', p) && t'.builtins == t.builtins
            && if p !in t.nodes && p !in t.builtins && IsDirectory(t, VirtualParentOf(p)) then
                 r == 0 && p in t'.nodes && t'.nodes[p] == Node(true, [])
               else r == -1 && t' == t
  {
    hide VirtualParentOf;
  }

  /** A node or builtin strictly below a directory: something lies directly in the directory. */
  lemma SomethingIn(t: Tree, p: seq<string>, q: seq<string>)
    requires IsTree(t) && AreSegments(p) && AreSegments(q) && p < q && (Render(q) in t.nodes || Render(q) in t.builtins)
    ensures !NothingIn(t, Render(p))
  {
    var child := q[..|p| + 1];
    hide IsTree, Render, VirtualParentOf, NothingIn;
    assert AreSegments(child) && child[..|p|] == p;
    hide AreSegments;
    if |child| < |q| {
      AncestorsExist(t, q, |child|);
    } else {
      assert child == q;
    }
    ParentIs(child);
    ChildIsIn(t, Render(p), child);
  }

  lemma ChildIsIn(t: Tree, p: string, child: seq<string>)
    requires AreSegments(child) && child != [] && VirtualParentOf(Render(child)) == p
    requires Render(child) in t.nodes || Render(child) in t.builtins
    ensures !NothingIn(t, p)
  {
    hide VirtualParentOf, Slashed;
    if Render(child) == ROOT {
      assert Render([]) == ROOT && AreSegments([]);
      RenderInjective(child, []);
    }
  }

  /** The prefix and pin checks of a removal, when nothing lies directly in the directory. */
  lemma NothingBelow(t: Tree, p: seq<string>, q: seq<string>)
    requires IsTree(t) && AreSegments(p) && AreSegments(q) && IsDirectory(t, Render(p)) && NothingIn(t, Render(p))
    requires Render(p) != ROOT && (Render(q) in t.nodes || Render(q) in t.builtins)
    ensures Render(q) in t.builtins ==> !IsAtOrUnder(Render(q), Render(p))
    ensures !(Render(p) + "/" <= Render(q))
  {
    assert Render(q) in t.builtins ==> Render(q) !in t.nodes;
    assert IsDirectory(t, Render(p)) ==> Render(p) in t.nodes;
    assert p != [];
    hide IsTree, NothingIn, IsAtOrUnder, AreSegments, IsDirectory;
    if p < q {
      SomethingIn(t, p, q);
    }
    AtOrUnderIs(q, p);
    SlashedPrefix(p, q);
    PrefixedIsLonger(p, q);
    hide Render;
    assert p <= q ==> p == q || p < q;
  }

  lemma PrefixedIsLonger(p: seq<string>, q: seq<string>)
    requires p != [] && AreSegments(p) && AreSegments(q)
    ensures Render(p) == Slashed(p)
    ensures q == [] ==> !(Slashed(p) + "/" <= Render(q))
    ensures q != [] ==> Render(q) == Slashed(q)
  {
    SlashedIsLong(p);
  }

  /** A directory goes exactly when it is not the root and neither a node nor a builtin is in it. */
  lemma RemovalIs(t: Tree, p: string)
    requires IsTree(t) && Normal(p)
    ensures var (t', r) := RemoveDirectory(t, p);
            && SameBut(t, t', p) && t'.builtins == t.builtins
            && if IsDirectory(t, p) && p != "/"
                  && (forall q {:trigger VirtualParentOf(q)} ::
                        (q in t.nodes && q != "/") || q in t.builtins ==> VirtualParentOf(q) != p)
               then r == 0 && p !in t'.nodes
               else r == -1 && t' == t
  {
    hide IsTree, Normal, VirtualParentOf;
    if IsDirectory(t, p) && p != ROOT {
      if NothingIn(t, p) {
        NothingInMeansRemoved(t, p);
      } else if RemoveDirectory(t, p).1 == 0 {
        EmptyHoldsNothing(t, p);
      }
    }
  }

  lemma NothingInMeansRemoved(t: Tree, p: string)
    requires IsTree(t) && Normal(p) && IsDirectory(t, p) && p != ROOT && NothingIn(t, p)
    ensures RemoveDirectory(t, p).1 == 0
  {
    var ss :| AreSegments(ss) && p == Render(ss);
    forall q | q in t.nodes || q in t.builtins
      ensures (q in t.builtins ==> !IsAtOrUnder(q, p)) && !(p + "/" <= q)
    {
      assert InDirectory(t, q);
      var qs :| AreSegments(qs) && q == Render(qs);
      NothingBelow(t, ss, qs);
    }
    hide IsTree, NothingIn, IsAtOrUnder, Normal, AreSegments;
  }

  /** Only a file goes by RemoveFile, and nothing else with it. */
  lemma FileRemovalIs(t: Tree, p: string)
    ensures var (t', r) := RemoveFile(t, p);
            && SameBut(t, t', p) && t'.builtins == t.builtins
            && if p in t.nodes && !t.nodes[p].isDirectory && p !in t.builtins then r == 0 && p !in t'.nodes
               else r == -1 && t' == t
  {
  }

  /** A builtin is placed exactly where nothing is yet in a directory, under some name, and goes when it is there. */
  lemma PlacingIs(t: Tree, p: string, name: string)
    requires IsTree(t) && Normal(p)
    ensures var (t', placed) := PlaceBuiltin(t, p, name);
            && SameBut(t, t', p) && t'.nodes == t.nodes
            && (placed <==> name != "" && p !in t.nodes && p !in t.builtins && IsDirectory(t, VirtualParentOf(p)))
            && if placed then p in t'.builtins && t'.builtins[p] == name else t' == t
    ensures var (t', removed) := RemoveBuiltin(t, p);
            && SameBut(t, t', p) && t'.nodes == t.nodes && (removed <==> p in t.builtins) && p !in t'.builtins
            && (!removed ==> t' == t)
  {
    hide Normal, VirtualParentOf;
    assert IsDirectory(t, VirtualParentOf(p)) ==> VirtualParentOf(p) in t.nodes && VirtualParentOf(p) !in t.builtins;
  }

  /** What is placed can be taken away again: the tree is as it was. */
  lemma PlacingIsUndone(t: Tree, p: string, name: string)
    requires PlaceBuiltin(t, p, name).1
    ensures RemoveBuiltin(PlaceBuiltin(t, p, name).0, p) == (t, true)
  {
    assert t.builtins[p := name] - {p} == t.builtins;
  }

  /** A directory made or a file created goes again without a trace. */
  lemma CreatingIsUndone(t: Tree, p: string, flags: Flags)
    requires IsTree(t) && Normal(p) && p !in t.nodes
    ensures CreateDirectory(t, p).1 == 0 ==> RemoveDirectory(CreateDirectory(t, p).0, p) == (t, 0)
    ensures Open(t, p, flags).1 == OpenedFile(p) ==> RemoveFile(Open(t, p, flags).0, p) == (t, 0)
  {
    assert p != ROOT;
    hide Normal, VirtualParentOf, IsTree, IsAtOrUnder;
    if CreateDirectory(t, p).1 == 0 {
      var t' := CreateDirectory(t, p).0;
      NewHoldsNothing(t, p);
      NodePut(t, p, Node(true, []));
      assert NothingIn(t', p);
      NothingInMeansRemoved(t', p);
      assert t'.nodes - {p} == t.nodes;
    }
    assert t.nodes[p := Node(false, [])] - {p} == t.nodes;
  }

  /** Nothing is in what is not there, and nothing is its own directory but the root. */
  lemma NewHoldsNothing(t: Tree, p: string)
    requires IsTree(t) && Normal(p) && p !in t.nodes && IsDirectory(t, VirtualParentOf(p))
    ensures NothingIn(t, p) && InDirectory(t, p) && VirtualParentOf(p) != p
  {
    hide Normal, VirtualParentOf;
    forall q | (q in t.nodes && q != ROOT) || q in t.builtins
      ensures VirtualParentOf(q) != p
    {
      assert InDirectory(t, q);
    }
  }

  // ---- Bytes ----------------------------------------------------------------------------------

  /** A read gives the bytes from the position on, as many as asked for unless the file ends, and moves past them. */
  lemma ReadingIs(t: Tree, p: string, position: nat, count: nat)
    ensures var (bytes, after, n) := ReadAt(t, p, position, count);
            if p !in t.nodes then bytes == [] && after == position && n == -1
            else
              && n == |bytes| <= count && after == position + n
              && (n > 0 ==> after <= |t.nodes[p].data|) && (n < count ==> after >= |t.nodes[p].data|)
              && forall i :: 0 <= i < n ==> position + i < |t.nodes[p].data| && bytes[i] == t.nodes[p].data[position + i]
  {
  }

  /** Two reads in a row give what one of both counts gives. */
  lemma ReadsFollowOn(t: Tree, p: string, position: nat, m: nat, n: nat)
    ensures var (first, middle, _) := ReadAt(t, p, position, m);
            var (second, after, _) := ReadAt(t, p, middle, n);
            first + second == ReadAt(t, p, position, m + n).0 && after == ReadAt(t, p, position, m + n).1
  {
  }

  /**
   A write fails, changing nothing, exactly when the file is gone or would end past 2^64 - 1. Otherwise its bytes
   stand where it starts, at the position or the end, zeros fill a gap and every other byte stays.
   */
  lemma WritingIs(t: Tree, p: string, position: nat, append: bool, bytes: seq<byte>)
    ensures var (t', after, n) := WriteAt(t, p, position, append, bytes);
            && SameBut(t, t', p) && t'.builtins == t.builtins
            && if p !in t.nodes then t' == t && after == position && n == -1
               else
                 var data := t.nodes[p].data;
                 var start := if append then |data| else position;
                 if start + |bytes| > 0xFFFF_FFFF_FFFF_FFFF then t' == t && after == start && n == -1
                 else
                   && n == |bytes| && after == start + n && p in t'.nodes
                   && t'.nodes[p].isDirectory == t.nodes[p].isDirectory
                   && var data' := t'.nodes[p].data;
                      && |data'| == (if after > |data| then after else |data|)
                      && forall i :: 0 <= i < |data'| ==>
                           data'[i] == if start <= i < after then bytes[i - start] else if i < |data| then data[i] else 0
  {
    hide Overwritten;
    if p in t.nodes {
      WrittenBytes(t.nodes[p].data, if append then |t.nodes[p].data| else position, bytes);
    }
  }

  lemma WrittenBytes(data: seq<byte>, start: nat, bytes: seq<byte>)
    ensures var (after, end) := (Overwritten(data, start, bytes), start + |bytes|);
            && |after| == (if end > |data| then end else |data|)
            && forall i :: 0 <= i < |after| ==>
                 after[i] == if start <= i < end then bytes[i - start] else if i < |data| then data[i] else 0
  {
    OverwrittenIs(data, start, bytes);
    hide Overwritten;
    var after := Overwritten(data, start, bytes);
    forall i | start <= i < start + |bytes|
      ensures after[i] == bytes[i - start]
    {
      assert after[i] == after[start..start + |bytes|][i - start];
    }
  }
}
