/**
 An in-memory filesystem with nothing mounted on it (src/components/Filesystem/InMemoryFileSystem.cpp and
 MountableFileSystem.cpp, src/components/BuiltinCommands/BuiltinConfigurator.cpp): a flat map from
 normalized paths that every operation keeps a tree, with builtin commands pinning their directories.
 */
module InMemoryTree {
  import opened Basics
  import opened VirtualPath
  import opened MountPoints

  datatype Node = Node(isDirectory: bool, data: seq<byte>)

  /** The nodes and the builtin commands placed, by normalized path. */
  datatype Tree = Tree(nodes: map<string, Node>, builtins: map<string, string>)

  datatype Flags = Flags(writeOnly: bool, readWrite: bool, create: bool, truncate: bool, append: bool)

  predicate RequestsWriteAccess(flags: Flags)
  {
    flags.writeOnly || flags.readWrite || flags.create || flags.truncate || flags.append
  }

  const ROOT: string := "/"

  const FRESH: Tree := Tree(map[ROOT := Node(true, [])], map[])

  predicate IsDirectory(t: Tree, p: string)
  {
    p in t.nodes && t.nodes[p].isDirectory
  }

  // ---- The operations, on normalized paths ------------------------------------------------------------

  /** What opening a path gives. */
  datatype Opened = NotOpened | OpenedBuiltin(name: string) | OpenedFile(path: string)

  function Open(t: Tree, p: string, flags: Flags): (Tree, Opened)
  {
    if p in t.builtins then (t, if RequestsWriteAccess(flags) then NotOpened else OpenedBuiltin(t.builtins[p]))
    else if p in t.nodes then
      if t.nodes[p].isDirectory then (t, NotOpened)
      else if flags.truncate then (t.(nodes := t.nodes[p := Node(false, [])]), OpenedFile(p))
      else (t, OpenedFile(p))
    else if !flags.create || !IsDirectory(t, VirtualParentOf(p)) then (t, NotOpened)
    else (t.(nodes := t.nodes[p := Node(false, [])]), OpenedFile(p))
  }

  function CreateDirectory(t: Tree, p: string): (Tree, int)
  {
    if p in t.builtins || p in t.nodes || !IsDirectory(t, VirtualParentOf(p)) then (t, -1)
    else (t.(nodes := t.nodes[p := Node(true, [])]), 0)
  }

  /** A directory stays while anything is in it or a builtin of this filesystem is at or below it. */
  function RemoveDirectory(t: Tree, p: string): (Tree, int)
  {
    if (exists b :: b in t.builtins && IsAtOrUnder(b, p)) || !IsDirectory(t, p) || p == ROOT
       || exists q :: q in t.nodes && p + "/" <= q
    then (t, -1)
    else (t.(nodes := t.nodes - {p}), 0)
  }

  function RemoveFile(t: Tree, p: string): (Tree, int)
  {
    if p in t.builtins || p !in t.nodes || t.nodes[p].isDirectory then (t, -1)
    else (t.(nodes := t.nodes - {p}), 0)
  }

  /** BuiltinConfigurator::AddBuiltinCommand: only into an existing directory, where nothing is yet. */
  function PlaceBuiltin(t: Tree, p: string, name: string): (Tree, bool)
  {
    if name == "" || p == ROOT || !IsDirectory(t, VirtualParentOf(p)) || VirtualParentOf(p) in t.builtins
       || p in t.builtins || p in t.nodes
    then (t, false)
    else (t.(builtins := t.builtins[p := name]), true)
  }

  function RemoveBuiltin(t: Tree, p: string): (Tree, bool)
  {
    if p in t.builtins then (t.(builtins := t.builtins - {p}), true) else (t, false)
  }

  /** Whether what is at a path is a directory, as Stat tells it; none when there is nothing. */
  function Stat(t: Tree, p: string): Option<bool>
  {
    if p in t.builtins then Some(false) else if p in t.nodes then Some(t.nodes[p].isDirectory) else None
  }

  const SIZE_MAX: nat := 0xFFFF_FFFF_FFFF_FFFF

  function Zeros(n: nat): seq<byte> { seq(n, i => 0) }

  /** A file's bytes with `bytes` written over them from `start` on, zeros filling a gap. */
  function Overwritten(data: seq<byte>, start: nat, bytes: seq<byte>): (r: seq<byte>)
  {
    var end := start + |bytes|;
    var grown := if end > |data| then data + Zeros(end - |data|) else data;
    grown[..start] + bytes + grown[end..]
  }

  /** A write through a descriptor of `p`: the tree, the position and the count or -1 (kIOError). */
  function WriteAt(t: Tree, p: string, position: nat, append: bool, bytes: seq<byte>): (Tree, nat, int)
  {
    if p !in t.nodes then (t, position, -1)
    else
      var data := t.nodes[p].data;
      var start := if append then |data| else position;
      if |bytes| > SIZE_MAX - start then (t, start, -1)
      else (t.(nodes := t.nodes[p := t.nodes[p].(data := Overwritten(data, start, bytes))]), start + |bytes|, |bytes|)
  }

  /** A read through a descriptor of `p`: the bytes, the position and the count or -1. */
  function ReadAt(t: Tree, p: string, position: nat, count: nat): (seq<byte>, nat, int)
  {
    if p !in t.nodes then ([], position, -1)
    else
      var data := t.nodes[p].data;
      if position >= |data| then ([], position, 0)
      else
        var n := Min(count, |data| - position);
        (data[position..position + n], position + n, n)
  }

  // ---- What every operation keeps -----------------------------------------------------------------------

  /** `p` is in a directory. */
  ghost predicate InDirectory(t: Tree, p: string)
  {
    Normal(p) && IsDirectory(t, VirtualParentOf(p))
  }

  /** The root is a directory and everything else, builtins included, is in one; nothing shares a builtin's path. */
  ghost predicate IsTree(t: Tree)
  {
    && IsDirectory(t, ROOT)
    && (forall q {:trigger InDirectory(t, q)} :: q in t.nodes || q in t.builtins ==> InDirectory(t, q))
    && (forall b :: b in t.builtins ==> b != ROOT && b !in t.nodes)
  }

  lemma FreshIsTree()
    ensures IsTree(FRESH)
  {
    assert Render([]) == ROOT && AreSegments([]);
    ParentIs([]);
  }

  /** What lies in a directory lies under it. */
  lemma InIsUnder(p: string, q: string)
    requires Normal(q) && q != ROOT && VirtualParentOf(q) == p
    ensures p != ROOT ==> p + "/" <= q
    ensures IsAtOrUnder(q, p)
  {
    var ss :| AreSegments(ss) && q == Render(ss);
    ParentIs(ss);
    var up := ss[..|ss| - 1];
    AtOrUnderIs(ss, up);
    SlashedPrefix(up, ss);
  }

  lemma PutKeepsIn(t: Tree, p: string, node: Node, q: string)
    requires IsTree(t) && InDirectory(t, p) && (p in t.nodes ==> node.isDirectory == t.nodes[p].isDirectory)
    requires q == p || q in t.nodes || q in t.builtins
    ensures InDirectory(t.(nodes := t.nodes[p := node]), q)
  {
    assert InDirectory(t, q);
  }

  /** Something new in a directory, at a path of its own, or a file's or directory's data changed. */
  lemma NodePut(t: Tree, p: string, node: Node)
    requires IsTree(t) && p !in t.builtins && InDirectory(t, p)
    requires p in t.nodes ==> node.isDirectory == t.nodes[p].isDirectory
    ensures IsTree(t.(nodes := t.nodes[p := node]))
  {
    var t' := t.(nodes := t.nodes[p := node]);
    assert IsDirectory(t', ROOT) && forall b :: b in t'.builtins ==> b != ROOT && b !in t'.nodes;
    hide *;
    forall q | q in t'.nodes || q in t'.builtins
      ensures InDirectory(t', q)
    {
      PutKeepsIn(t, p, node, q);
    }
    AllInDirectories(t');
  }

  lemma AllInDirectories(t: Tree)
    requires IsDirectory(t, ROOT) && forall b :: b in t.builtins ==> b != ROOT && b !in t.nodes
    requires forall q :: q in t.nodes || q in t.builtins ==> InDirectory(t, q)
    ensures IsTree(t)
  {
    hide InDirectory, IsDirectory;
  }

  /** Nothing has `p` for its parent directory, the root apart. */
  ghost predicate NothingIn(t: Tree, p: string)
  {
    forall q {:trigger VirtualParentOf(q)} :: (q in t.nodes && q != ROOT) || q in t.builtins ==> VirtualParentOf(q) != p
  }

  lemma TakingKeepsIn(t: Tree, p: string, q: string)
    requires IsTree(t) && p != ROOT && NothingIn(t, p) && q != p && (q in t.nodes || q in t.builtins)
    ensures InDirectory(t.(nodes := t.nodes - {p}), q)
  {
    assert InDirectory(t, q);
    if q == ROOT {
      ParentIs([]);
      assert Render([]) == ROOT;
    }
    assert VirtualParentOf(q) != p;
  }

  /** Something taken away that nothing is in. */
  lemma NodeTaken(t: Tree, p: string)
    requires IsTree(t) && p != ROOT && p !in t.builtins && NothingIn(t, p)
    ensures IsTree(t.(nodes := t.nodes - {p}))
  {
    var t' := t.(nodes := t.nodes - {p});
    assert IsDirectory(t', ROOT) && forall b :: b in t'.builtins ==> b != ROOT && b !in t'.nodes;
    hide *;
    forall q | q in t'.nodes || q in t'.builtins
      ensures InDirectory(t', q)
    {
      TakingKeepsIn(t, p, q);
    }
    AllInDirectories(t');
  }

  /** A file has nothing in it. */
  lemma FilesHoldNothing(t: Tree, p: string)
    requires IsTree(t) && p in t.nodes && !t.nodes[p].isDirectory
    ensures NothingIn(t, p)
  {
    hide Normal, VirtualParentOf;
    forall q | (q in t.nodes && q != ROOT) || q in t.builtins
      ensures VirtualParentOf(q) != p
    {
      assert InDirectory(t, q);
    }
  }

  lemma EmptyHoldsNothing(t: Tree, p: string)
    requires IsTree(t) && p != ROOT
    requires forall q :: q in t.nodes ==> !(p + "/" <= q)
    requires forall b :: b in t.builtins ==> !IsAtOrUnder(b, p)
    ensures NothingIn(t, p)
  {
    forall q | q in t.nodes && q != ROOT
      ensures VirtualParentOf(q) != p
    {
      assert InDirectory(t, q);
      if VirtualParentOf(q) == p { InIsUnder(p, q); }
    }
    forall b | b in t.builtins
      ensures VirtualParentOf(b) != p
    {
      assert InDirectory(t, b);
      if VirtualParentOf(b) == p { InIsUnder(p, b); }
    }
  }

  datatype Op =
    | OpenOp(path: string, flags: Flags)
    | CreateDirectoryOp(path: string)
    | RemoveDirectoryOp(path: string)
    | RemoveFileOp(path: string)
    | WriteOp(path: string, position: nat, append: bool, bytes: seq<byte>)
    | PlaceOp(path: string, name: string)
    | UnplaceOp(path: string)

  /** One operation; its path is normalized first. */
  function After(t: Tree, op: Op): Tree
  {
    var p := Normalize(op.path, ROOT);
    match op
    case OpenOp(_, flags) => Open(t, p, flags).0
    case CreateDirectoryOp(_) => CreateDirectory(t, p).0
    case RemoveDirectoryOp(_) => RemoveDirectory(t, p).0
    case RemoveFileOp(_) => RemoveFile(t, p).0
    case WriteOp(_, position, append, bytes) => WriteAt(t, p, position, append, bytes).0
    case PlaceOp(_, name) => PlaceBuiltin(t, p, name).0
    case UnplaceOp(_) => RemoveBuiltin(t, p).0
  }

  lemma OperationKeepsTree(t: Tree, op: Op)
    requires IsTree(t)
    ensures IsTree(After(t, op))
  {
    var p := Normalize(op.path, ROOT);
    NormalizeIsNormal(op.path, ROOT);
    hide Normalize, Normal, IsTree, Overwritten;
    match op
    case OpenOp(_, flags) => OpenKeepsTree(t, p, flags);
    case CreateDirectoryOp(_) => if CreateDirectory(t, p).1 == 0 { NodePut(t, p, Node(true, [])); }
    case RemoveDirectoryOp(_) => RemovalKeepsTree(t, p);
    case RemoveFileOp(_) => FileRemovalKeepsTree(t, p);
    case WriteOp(_, position, append, bytes) => WriteKeepsTree(t, p, position, append, bytes);
    case PlaceOp(_, name) => PlacingKeepsTree(t, p, name);
    case UnplaceOp(_) => UnplacingKeepsTree(t, p);
  }

  lemma OpenKeepsTree(t: Tree, p: string, flags: Flags)
    requires IsTree(t) && Normal(p)
    ensures IsTree(Open(t, p, flags).0)
  {
    assert p in t.nodes ==> InDirectory(t, p) && p !in t.builtins;
    hide IsTree;
    if Open(t, p, flags).0 != t {
      NodePut(t, p, Node(false, []));
    }
  }

  lemma RemovalKeepsTree(t: Tree, p: string)
    requires IsTree(t)
    ensures IsTree(RemoveDirectory(t, p).0)
  {
    if RemoveDirectory(t, p).1 == 0 {
      assert IsAtOrUnder(p, p) by { assert |p| == |p|; }
      EmptyHoldsNothing(t, p);
      NodeTaken(t, p);
    }
  }

  lemma FileRemovalKeepsTree(t: Tree, p: string)
    requires IsTree(t)
    ensures IsTree(RemoveFile(t, p).0)
  {
    if RemoveFile(t, p).1 == 0 {
      FilesHoldNothing(t, p);
      NodeTaken(t, p);
    }
  }

  lemma WriteKeepsTree(t: Tree, p: string, position: nat, append: bool, bytes: seq<byte>)
    requires IsTree(t)
    ensures IsTree(WriteAt(t, p, position, append, bytes).0)
  {
    if WriteAt(t, p, position, append, bytes).0 != t {
      assert InDirectory(t, p);
      NodePut(t, p, WriteAt(t, p, position, append, bytes).0.nodes[p]);
    }
  }

  lemma PlacingKeepsTree(t: Tree, p: string, name: string)
    requires IsTree(t) && Normal(p)
    ensures IsTree(PlaceBuiltin(t, p, name).0)
  {
    var t' := PlaceBuiltin(t, p, name).0;
    hide Normal, VirtualParentOf;
    forall q | q in t'.nodes || q in t'.builtins
      ensures InDirectory(t', q) && (q in t'.builtins ==> q != ROOT && q !in t'.nodes)
    {
      assert t' == t || q == p || InDirectory(t, q);
    }
  }

  lemma UnplacingKeepsTree(t: Tree, p: string)
    requires IsTree(t)
    ensures IsTree(RemoveBuiltin(t, p).0)
  {
    var t' := RemoveBuiltin(t, p).0;
    hide Normal, VirtualParentOf;
    forall q | q in t'.nodes || q in t'.builtins
      ensures InDirectory(t', q) && (q in t'.builtins ==> q != ROOT && q !in t'.nodes)
    {
      assert InDirectory(t, q);
    }
  }

  function Run(t: Tree, ops: seq<Op>): Tree
    decreases |ops|
  {
    if ops == [] then t else Run(After(t, ops[0]), ops[1..])
  }

  /** After any operations on a new filesystem, it is a tree. */
  lemma {:induction false} EveryRunIsATree(t: Tree, ops: seq<Op>)
    requires IsTree(t)
    ensures IsTree(Run(t, ops))
    decreases |ops|
  {
    hide IsTree, After;
    if ops != [] {
      OperationKeepsTree(t, ops[0]);
      EveryRunIsATree(After(t, ops[0]), ops[1..]);
    }
  }

  // ---- What a tree means ----------------------------------------------------------------------------------

  lemma ParentExists(t: Tree, ss: seq<string>)
    requires IsTree(t) && AreSegments(ss) && ss != [] && (Render(ss) in t.nodes || Render(ss) in t.builtins)
    ensures IsDirectory(t, Render(ss[..|ss| - 1])) && AreSegments(ss[..|ss| - 1])
  {
    assert InDirectory(t, Render(ss));
    hide IsTree;
    ParentIs(ss);
    AreSegmentsFront(ss);
  }

  /** Every directory above a node or a builtin exists. */
  lemma {:induction false} AncestorsExist(t: Tree, ss: seq<string>, k: nat)
    requires IsTree(t) && AreSegments(ss) && k < |ss|
    requires Render(ss) in t.nodes || Render(ss) in t.builtins
    ensures IsDirectory(t, Render(ss[..k]))
    decreases |ss|
  {
    ParentExists(t, ss);
    var up := ss[..|ss| - 1];
    hide IsTree, Render, AreSegments;
    if k < |up| {
      AncestorsExist(t, up, k);
      assert up[..k] == ss[..k];
    } else {
      assert ss[..k] == up;
    }
  }

  lemma AreSegmentsFront(ss: seq<string>)
    requires AreSegments(ss) && ss != []
    ensures AreSegments(ss[..|ss| - 1])
  {
  }

  /** No node is at or under a builtin's path, nor another builtin; and no file has anything under it. */
  lemma NothingUnderBuiltins(t: Tree, b: seq<string>, q: seq<string>)
    requires IsTree(t) && AreSegments(b) && AreSegments(q) && b <= q
    requires Render(q) in t.nodes || Render(q) in t.builtins
    requires Render(b) in t.builtins || (Render(b) in t.nodes && !t.nodes[Render(b)].isDirectory)
    ensures b == q
  {
    assert q[..|b|] == b;
    assert InDirectory(t, Render(b));
    assert !IsDirectory(t, Render(b));
    hide IsTree, Render, AreSegments, IsDirectory;
    if |b| < |q| {
      AncestorsExist(t, q, |b|);
    }
  }

  /** While a builtin is placed, no removal takes a directory above it. */
  lemma BuiltinsPin(t: Tree, b: seq<string>, k: nat)
    requires IsTree(t) && AreSegments(b) && Render(b) in t.builtins && k <= |b|
    ensures RemoveDirectory(t, Render(b[..k])) == (t, -1) && RemoveFile(t, Render(b[..k])) == (t, -1)
  {
    AtOrUnderIs(b, b[..k]);
    if k < |b| {
      AncestorsExist(t, b, k);
    } else {
      assert b[..k] == b;
    }
    hide IsTree, IsAtOrUnder, Render, AreSegments;
  }

  // ---- Bytes ------------------------------------------------------------------------------------------------

  /** A write puts its bytes where it says, zeros in a gap before them, and leaves all others. */
  lemma OverwrittenIs(data: seq<byte>, start: nat, bytes: seq<byte>)
    ensures var after := Overwritten(data, start, bytes);
            && |after| == (if start + |bytes| > |data| then start + |bytes| else |data|)
            && after[start..start + |bytes|] == bytes
            && forall i :: 0 <= i < |after| && !(start <= i < start + |bytes|) ==>
                 after[i] == if i < |data| then data[i] else 0
  {
  }

  /** What is written is read back from where it was written; an appending write adds to the end. */
  lemma WriteReadsBack(t: Tree, p: string, position: nat, append: bool, bytes: seq<byte>)
    requires WriteAt(t, p, position, append, bytes).2 >= 0
    ensures var (after, end, n) := WriteAt(t, p, position, append, bytes);
            && n == |bytes| && end >= n
            && ReadAt(after, p, end - n, n).0 == bytes
            && (append ==> after.nodes[p].data == t.nodes[p].data + bytes)
            && (forall q :: q in t.nodes && q != p ==> q in after.nodes && after.nodes[q] == t.nodes[q])
  {
    var data := t.nodes[p].data;
    var start := if append then |data| else position;
    OverwrittenIs(data, start, bytes);
    hide Overwritten;
    if append {
      var after := WriteAt(t, p, position, append, bytes).0.nodes[p].data;
      assert after == after[..|data|] + after[|data|..];
      assert after[..|data|] == data;
    }
  }
}
