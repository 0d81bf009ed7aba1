/**
 The in-memory filesystem as the object it is (src/components/Filesystem/InMemoryFileSystem.cpp,
 MountableFileSystem.cpp), verified against the operations of InMemoryTree.
 */
module InMemoryFileSystems {
  import opened Basics
  import opened VirtualPath
  import opened MountPoints
  import opened InMemoryTree

  datatype DirectoryEntry = DirectoryEntry(name: string, isDirectory: bool)

  const IO_ERROR: int := -1

  /** The entry of something directly in `p`: a node by its kind, a builtin as a file. */
  ghost predicate IsEntryOf(t: Tree, p: string, q: string, e: DirectoryEntry)
  {
    && q != p && VirtualParentOf(q) == p && e.name == VirtualLastSegment(q)
    && ((q in t.nodes && e.isDirectory == t.nodes[q].isDirectory) || (q in t.builtins && !e.isDirectory))
  }

  /** The entries are those of the paths, no name twice. */
  ghost predicate Lists(t: Tree, p: string, among: set<string>, entries: seq<DirectoryEntry>)
  {
    && (forall e :: e in entries <==> exists q :: q in among && IsEntryOf(t, p, q, e))
    && (forall i, j :: 0 <= i < j < |entries| ==> entries[i].name != entries[j].name)
  }

  /** A listing: "." and "..", then what lies directly in the directory, once each; empty if it is none. */
  ghost predicate IsListing(t: Tree, p: string, entries: seq<DirectoryEntry>)
  {
    if IsDirectory(t, p) then
      && |entries| >= 2 && entries[0] == DirectoryEntry(".", true) && entries[1] == DirectoryEntry("..", true)
      && Lists(t, p, t.nodes.Keys + t.builtins.Keys, entries[2..])
      && forall i :: 2 <= i < |entries| ==> entries[i].name != "." && entries[i].name != ".."
    else entries == []
  }

  lemma SameParentSameName(a: seq<string>, b: seq<string>)
    requires AreSegments(a) && AreSegments(b) && a != [] && b != []
    requires Render(a[..|a| - 1]) == Render(b[..|b| - 1]) && a[|a| - 1] == b[|b| - 1]
    ensures a == b
  {
    var (ua, ub) := (a[..|a| - 1], b[..|b| - 1]);
    assert AreSegments(ua) && AreSegments(ub);
    hide Render, AreSegments;
    RenderInjective(ua, ub);
    assert a == ua + [a[|a| - 1]] && b == ub + [b[|b| - 1]];
  }

  /** The segments of something directly in `p`. */
  lemma SegmentsIn(p: string, q: string) returns (ss: seq<string>)
    requires Normal(q) && q != p && VirtualParentOf(q) == p
    ensures AreSegments(ss) && ss != [] && q == Render(ss)
    ensures Render(ss[..|ss| - 1]) == p && ss[|ss| - 1] == VirtualLastSegment(q)
  {
    ss :| AreSegments(ss) && q == Render(ss);
    hide AreSegments, VirtualParentOf, VirtualLastSegment;
    ParentIs(ss);
  }

  /** Two things directly in one directory have different last segments. */
  lemma SiblingsDiffer(p: string, q: string, r: string)
    requires Normal(q) && Normal(r) && q != p && r != p && VirtualParentOf(q) == p && VirtualParentOf(r) == p
    requires VirtualLastSegment(q) == VirtualLastSegment(r)
    ensures q == r
  {
    hide *;
    var a := SegmentsIn(p, q);
    var b := SegmentsIn(p, r);
    SameParentSameName(a, b);
  }

  /** Nothing is named "." or "..". */
  lemma NamesAreSegments(p: string, q: string)
    requires Normal(q) && q != p && VirtualParentOf(q) == p
    ensures IsSegment(VirtualLastSegment(q))
  {
    var a :| AreSegments(a) && q == Render(a);
    ParentIs(a);
  }

  /** One path more is looked at. */
  lemma ListsOneMore(t: Tree, p: string, among: set<string>, entries: seq<DirectoryEntry>, q: string, e: DirectoryEntry)
    requires Lists(t, p, among, entries) && q !in among && Normal(p) && Normal(q)
    requires forall r :: r in among ==> Normal(r)
    requires IsEntryOf(t, p, q, e) && !(q in t.nodes && q in t.builtins)
    ensures Lists(t, p, among + {q}, entries + [e])
    ensures forall x :: x in entries ==> x.name != e.name
  {
    forall x | x in entries
      ensures x.name != e.name
    {
      var r :| r in among && IsEntryOf(t, p, r, x);
      if x.name == e.name {
        SiblingsDiffer(p, q, r);
      }
    }
    hide Normal, VirtualParentOf, VirtualLastSegment;
    forall x: DirectoryEntry
      ensures x in entries + [e] <==> exists r :: r in among + {q} && IsEntryOf(t, p, r, x)
    {
      OneMoreEntry(t, p, among, entries, q, e, x);
    }
  }

  lemma OneMoreEntry(t: Tree, p: string, among: set<string>, entries: seq<DirectoryEntry>, q: string, e: DirectoryEntry, x: DirectoryEntry)
    requires Lists(t, p, among, entries) && IsEntryOf(t, p, q, e) && !(q in t.nodes && q in t.builtins)
    ensures x in entries + [e] <==> exists r :: r in among + {q} && IsEntryOf(t, p, r, x)
  {
    hide VirtualParentOf, VirtualLastSegment;
    if x in entries {
      var r :| r in among && IsEntryOf(t, p, r, x);
      assert r in among + {q} && IsEntryOf(t, p, r, x);
    } else if x == e {
      assert q in among + {q} && IsEntryOf(t, p, q, x);
    } else {
      assert IsEntryOf(t, p, q, x) ==> x == e;
      assert forall r :: r in among + {q} ==> r in among || r == q;
    }
  }

  /** A path that is not directly in `p` adds nothing. */
  lemma ListsNoMore(t: Tree, p: string, among: set<string>, entries: seq<DirectoryEntry>, q: string)
    requires Lists(t, p, among, entries) && (q == p || VirtualParentOf(q) != p || (q !in t.nodes && q !in t.builtins))
    ensures Lists(t, p, among + {q}, entries)
  {
    hide VirtualParentOf, VirtualLastSegment;
    forall x: DirectoryEntry
      ensures x in entries <==> exists r :: r in among + {q} && IsEntryOf(t, p, r, x)
    {
      if x in entries {
        var r :| r in among && IsEntryOf(t, p, r, x);
        assert r in among + {q} && IsEntryOf(t, p, r, x);
      } else {
        assert !IsEntryOf(t, p, q, x);
      }
    }
  }

  class InMemoryFileSystem {
    var nodes: map<string, Node>
    var builtins: map<string, string>

    ghost function Contents(): Tree
      reads this
    {
      Tree(nodes, builtins)
    }

    ghost predicate Valid()
      reads this
    {
      IsTree(Contents())
    }

    constructor ()
      ensures Valid() && Contents() == Tree(map["/" := Node(true, [])], map[])
    {
      nodes, builtins := map[ROOT := Node(true, [])], map[];
      FreshIsTree();
    }

    method OpenFile(pathname: string, flags: Flags) returns (file: Opened)
      requires Valid()
      modifies this
      ensures Valid() && (Contents(), file) == Open(old(Contents()), Normalize(pathname, ROOT), flags)
    {
      OperationKeepsTree(Contents(), OpenOp(pathname, flags));
      var p := NormalizeVirtualPath(pathname, ROOT);
      if p in builtins {
        return if RequestsWriteAccess(flags) then NotOpened else OpenedBuiltin(builtins[p]);
      }
      if p in nodes && nodes[p].isDirectory {
        return NotOpened;
      }
      if p !in nodes {
        if !flags.create {
          return NotOpened;
        }
        var parent := VirtualParentOf(p);
        if parent !in nodes || !nodes[parent].isDirectory {
          return NotOpened;
        }
        nodes := nodes[p := Node(false, [])];
      } else if flags.truncate {
        nodes := nodes[p := Node(false, [])];
      }
      file := OpenedFile(p);
    }

    method CreateDirectory(pathname: string) returns (r: int)
      requires Valid()
      modifies this
      ensures Valid() && (Contents(), r) == InMemoryTree.CreateDirectory(old(Contents()), Normalize(pathname, ROOT))
    {
      OperationKeepsTree(Contents(), CreateDirectoryOp(pathname));
      var p := NormalizeVirtualPath(pathname, ROOT);
      if p in builtins || p in nodes {
        return -1;
      }
      var parent := VirtualParentOf(p);
      if parent !in nodes || !nodes[parent].isDirectory {
        return -1;
      }
      nodes := nodes[p := Node(true, [])];
      r := 0;
    }

    method HasOwnBuiltinAtOrUnder(p: string) returns (r: bool)
      ensures r <==> exists b :: b in builtins && IsAtOrUnder(b, p)
    {
      var left := builtins.Keys;
      while left != {}
        invariant left <= builtins.Keys
        invariant forall b :: b in builtins && b !in left ==> !IsAtOrUnder(b, p)
        decreases |left|
      {
        var b :| b in left;
        if IsAtOrUnder(b, p) {
          return true;
        }
        left := left - {b};
      }
      r := false;
    }

    method RemoveDirectory(pathname: string) returns (r: int)
      requires Valid()
      modifies this
      ensures Valid() && (Contents(), r) == InMemoryTree.RemoveDirectory(old(Contents()), Normalize(pathname, ROOT))
    {
      OperationKeepsTree(Contents(), RemoveDirectoryOp(pathname));
      var p := NormalizeVirtualPath(pathname, ROOT);
      var pinned := HasOwnBuiltinAtOrUnder(p);
      if pinned || p !in nodes || !nodes[p].isDirectory || p == ROOT {
        return -1;
      }
      var left := nodes.Keys;
      while left != {}
        invariant left <= nodes.Keys
        invariant forall q :: q in nodes && q !in left ==> !(p + "/" <= q)
        decreases |left|
      {
        var q :| q in left;
        if p + "/" <= q {
          return -1;
        }
        left := left - {q};
      }
      nodes := nodes - {p};
      r := 0;
    }

    method RemoveFile(pathname: string) returns (r: int)
      requires Valid()
      modifies this
      ensures Valid() && (Contents(), r) == InMemoryTree.RemoveFile(old(Contents()), Normalize(pathname, ROOT))
    {
      OperationKeepsTree(Contents(), RemoveFileOp(pathname));
      var p := NormalizeVirtualPath(pathname, ROOT);
      if p in builtins || p !in nodes || nodes[p].isDirectory {
        return -1;
      }
      nodes := nodes - {p};
      r := 0;
    }

    /** What the configurator does to place a builtin. */
    method PlaceBuiltin(builtinPath: string, name: string) returns (placed: bool)
      requires Valid()
      modifies this
      ensures Valid()
      ensures (Contents(), placed) ==
              if builtinPath == "" || builtinPath[0] != '/' then (old(Contents()), false)
              else InMemoryTree.PlaceBuiltin(old(Contents()), Normalize(builtinPath, ROOT), name)
    {
      OperationKeepsTree(Contents(), PlaceOp(builtinPath, name));
      if name == "" || builtinPath == "" || builtinPath[0] != '/' {
        return false;
      }
      var p := NormalizeVirtualPath(builtinPath, ROOT);
      if p == ROOT {
        return false;
      }
      var directory := VirtualParentOf(p);
      if directory in builtins || directory !in nodes || !nodes[directory].isDirectory {
        return false;
      }
      if p in builtins || p in nodes {
        return false;
      }
      builtins := builtins[p := name];
      placed := true;
    }

    method RemoveBuiltin(builtinPath: string) returns (removed: bool)
      requires Valid()
      modifies this
      ensures Valid() && (Contents(), removed) == InMemoryTree.RemoveBuiltin(old(Contents()), Normalize(builtinPath, ROOT))
    {
      OperationKeepsTree(Contents(), UnplaceOp(builtinPath));
      var p := NormalizeVirtualPath(builtinPath, ROOT);
      if p !in builtins {
        return false;
      }
      builtins := builtins - {p};
      removed := true;
    }

    method StatIsDirectory(pathname: string) returns (r: Option<bool>)
      ensures r == InMemoryTree.Stat(Contents(), Normalize(pathname, ROOT))
    {
      var p := NormalizeVirtualPath(pathname, ROOT);
      if p in builtins {
        return Some(false);
      }
      r := if p in nodes then Some(nodes[p].isDirectory) else None;
    }

    /** LocalReadDirectory's loop, in whatever order the nodes come. */
    method NodeEntries(p: string) returns (entries: seq<DirectoryEntry>)
      requires Valid() && Normal(p)
      ensures Lists(Contents(), p, nodes.Keys, entries)
    {
      entries := [];
      var left := nodes.Keys;
      while left != {}
        invariant left <= nodes.Keys
        invariant Lists(Contents(), p, nodes.Keys - left, entries)
        decreases |left|
      {
        var q :| q in left;
        assert InDirectory(Contents(), q);
        assert nodes.Keys - (left - {q}) == (nodes.Keys - left) + {q};
        if q != p && VirtualParentOf(q) == p {
          var e := DirectoryEntry(VirtualLastSegment(q), nodes[q].isDirectory);
          KeysAreNormal(Contents(), nodes.Keys - left);
          ListsOneMore(Contents(), p, nodes.Keys - left, entries, q, e);
          entries := entries + [e];
        } else {
          ListsNoMore(Contents(), p, nodes.Keys - left, entries, q);
        }
        left := left - {q};
      }
      assert nodes.Keys - {} == nodes.Keys;
    }

    /** AddOwnBuiltinEntries. */
    method AddOwnBuiltinEntries(p: string, listed: seq<DirectoryEntry>) returns (entries: seq<DirectoryEntry>)
      requires Valid() && Normal(p) && Lists(Contents(), p, nodes.Keys, listed)
      ensures Lists(Contents(), p, nodes.Keys + builtins.Keys, entries)
    {
      hide Lists, IsEntryOf, IsTree, Normal, VirtualParentOf, VirtualLastSegment;
      entries := listed;
      var left := builtins.Keys;
      ghost var among := nodes.Keys;
      NoneLeft(nodes.Keys, builtins.Keys);
      while left != {}
        invariant left <= builtins.Keys && among == nodes.Keys + (builtins.Keys - left)
        invariant Lists(Contents(), p, among, entries)
        decreases |left|
      {
        var b :| b in left;
        OneLeftLess(nodes.Keys, builtins.Keys, left, b);
        OneBuiltinMore(Contents(), p, among, entries, b);
        if VirtualParentOf(b) == p {
          var e := DirectoryEntry(VirtualLastSegment(b), false);
          var alreadyListed := IsListed(entries, e.name);
          if !alreadyListed {
            entries := entries + [e];
          }
        }
        left, among := left - {b}, among + {b};
      }
    }

    method ReadDirectory(pathname: string) returns (entries: seq<DirectoryEntry>)
      requires Valid()
      ensures IsListing(Contents(), Normalize(pathname, ROOT), entries)
    {
      var p := NormalizeVirtualPath(pathname, ROOT);
      NormalizeIsNormal(pathname, ROOT);
      entries := [];
      if p in nodes && nodes[p].isDirectory {
        entries := NodeEntries(p);
      } else {
        NothingListed(Contents(), p);
      }
      entries := AddOwnBuiltinEntries(p, entries);
      entries := PutDotEntriesFirst(pathname, entries);
    }

    /** Takes "." and ".." out and puts them first, of a directory. */
    method PutDotEntriesFirst(pathname: string, listed: seq<DirectoryEntry>) returns (entries: seq<DirectoryEntry>)
      requires Valid() && Lists(Contents(), Normalize(pathname, ROOT), nodes.Keys + builtins.Keys, listed)
      ensures IsListing(Contents(), Normalize(pathname, ROOT), entries)
    {
      ghost var p := Normalize(pathname, ROOT);
      entries := [];
      var hadDots := false;
      NoDots(Contents(), p, listed);
      for i := 0 to |listed|
        invariant entries == listed[..i] && !hadDots
      {
        if listed[i].name == "." || listed[i].name == ".." {
          hadDots := true;
        } else {
          entries := entries + [listed[i]];
        }
      }
      assert entries == listed;
      if !hadDots && entries == [] {
        var isDirectory := StatIsDirectory(pathname);
        if isDirectory != Some(true) {
          DirectoriesAreNoBuiltins(Contents(), p);
          return;
        }
      } else {
        ListedIsDirectory(Contents(), p, listed);
      }
      entries := [DirectoryEntry(".", true), DirectoryEntry("..", true)] + entries;
      assert entries[2..] == listed;
    }
  }

  lemma NoneLeft(a: set<string>, b: set<string>)
    ensures a + (b - b) == a && b - {} == b
  {
  }

  /** A builtin more is looked at: it is listed if it lies in the directory, where nothing has its name yet. */
  lemma OneBuiltinMore(t: Tree, p: string, among: set<string>, entries: seq<DirectoryEntry>, b: string)
    requires IsTree(t) && Normal(p) && Lists(t, p, among, entries) && among <= t.nodes.Keys + t.builtins.Keys
    requires b in t.builtins && (b !in t.nodes ==> b !in among)
    ensures if VirtualParentOf(b) == p then
              var e := DirectoryEntry(VirtualLastSegment(b), false);
              Lists(t, p, among + {b}, entries + [e]) && !(exists x :: x in entries && x.name == e.name)
            else Lists(t, p, among + {b}, entries)
  {
    hide Lists, IsEntryOf, IsTree, Normal, VirtualParentOf, VirtualLastSegment;
    if VirtualParentOf(b) == p {
      BuiltinEntry(t, p, b);
      KeysAreNormal(t, among + {b});
      ListsOneMore(t, p, among, entries, b, DirectoryEntry(VirtualLastSegment(b), false));
    } else {
      ListsNoMore(t, p, among, entries, b);
    }
  }

  lemma OneLeftLess(a: set<string>, b: set<string>, left: set<string>, x: string)
    requires x in left && left <= b
    ensures a + (b - (left - {x})) == a + (b - left) + {x}
    ensures x !in a ==> x !in a + (b - left)
  {
  }

  lemma KeysAreNormal(t: Tree, among: set<string>)
    requires IsTree(t) && among <= t.nodes.Keys + t.builtins.Keys
    ensures forall q :: q in among ==> Normal(q)
  {
    forall q | q in among
      ensures Normal(q)
    {
      assert InDirectory(t, q);
    }
  }

  lemma BuiltinEntry(t: Tree, p: string, b: string)
    requires IsTree(t) && b in t.builtins && VirtualParentOf(b) == p
    ensures b !in t.nodes && IsEntryOf(t, p, b, DirectoryEntry(VirtualLastSegment(b), false))
  {
    assert InDirectory(t, b);
  }

  lemma NothingListed(t: Tree, p: string)
    requires IsTree(t) && !IsDirectory(t, p)
    ensures Lists(t, p, t.nodes.Keys, [])
  {
    forall q, e | q in t.nodes.Keys
      ensures !IsEntryOf(t, p, q, e)
    {
      assert InDirectory(t, q);
    }
  }

  lemma NoDots(t: Tree, p: string, entries: seq<DirectoryEntry>)
    requires IsTree(t) && Lists(t, p, t.nodes.Keys + t.builtins.Keys, entries)
    ensures forall i :: 0 <= i < |entries| ==> entries[i].name != "." && entries[i].name != ".."
  {
    forall i | 0 <= i < |entries|
      ensures entries[i].name != "." && entries[i].name != ".."
    {
      assert entries[i] in entries;
      var q :| q in t.nodes.Keys + t.builtins.Keys && IsEntryOf(t, p, q, entries[i]);
      assert InDirectory(t, q);
      NamesAreSegments(p, q);
    }
  }

  lemma DirectoriesAreNoBuiltins(t: Tree, p: string)
    requires IsTree(t)
    ensures IsDirectory(t, p) ==> p !in t.builtins
  {
    assert InDirectory(t, p) || p !in t.builtins;
  }

  lemma ListedIsDirectory(t: Tree, p: string, entries: seq<DirectoryEntry>)
    requires IsTree(t) && Lists(t, p, t.nodes.Keys + t.builtins.Keys, entries) && entries != []
    ensures IsDirectory(t, p)
  {
    assert entries[0] in entries;
    var q :| q in t.nodes.Keys + t.builtins.Keys && IsEntryOf(t, p, q, entries[0]);
    assert InDirectory(t, q);
  }

  method IsListed(entries: seq<DirectoryEntry>, name: string) returns (r: bool)
    ensures r <==> exists e :: e in entries && e.name == name
  {
    for i := 0 to |entries|
      invariant forall j :: 0 <= j < i ==> entries[j].name != name
    {
      if entries[i].name == name {
        return true;
      }
    }
    r := false;
  }

  /** An open file of the filesystem: it names a path, and finds whatever node is there. */
  class InMemoryFileDescriptor {
    const fileSystem: InMemoryFileSystem
    const path: string
    const readable: bool
    const writable: bool
    const append: bool
    var position: nat

    constructor (fs: InMemoryFileSystem, p: string, flags: Flags)
      ensures fileSystem == fs && path == p && position == 0
      ensures readable == !flags.writeOnly && writable == (flags.writeOnly || flags.readWrite) && append == flags.append
    {
      fileSystem, path, position := fs, p, 0;
      readable, writable, append := !flags.writeOnly, flags.writeOnly || flags.readWrite, flags.append;
    }

    method Read(count: nat) returns (bytes: seq<byte>, r: int)
      modifies this
      ensures if readable then (bytes, position, r) == ReadAt(fileSystem.Contents(), path, old(position), count)
              else bytes == [] && position == old(position) && r == IO_ERROR
    {
      bytes := [];
      if !readable || path !in fileSystem.nodes {
        return bytes, IO_ERROR;
      }
      var data := fileSystem.nodes[path].data;
      if position >= |data| {
        return bytes, 0;
      }
      var toCopy := Min(count, |data| - position);
      bytes := data[position..position + toCopy];
      position := position + toCopy;
      r := toCopy;
    }

    method Write(bytes: seq<byte>) returns (r: int)
      requires fileSystem.Valid()
      modifies this`position, fileSystem
      ensures fileSystem.Valid()
      ensures if writable then (fileSystem.Contents(), position, r)
                               == WriteAt(old(fileSystem.Contents()), path, old(position), append, bytes)
              else fileSystem.Contents() == old(fileSystem.Contents()) && position == old(position) && r == IO_ERROR
    {
      WriteKeepsTree(fileSystem.Contents(), path, position, append, bytes);
      if !writable || path !in fileSystem.nodes {
        return IO_ERROR;
      }
      var data := fileSystem.nodes[path].data;
      if append {
        position := |data|;
      }
      if |bytes| > SIZE_MAX - position {
        return IO_ERROR;
      }
      var end := position + |bytes|;
      if end > |data| {
        data := data + Zeros(end - |data|);
      }
      data := data[..position] + bytes + data[end..];
      fileSystem.nodes := fileSystem.nodes[path := fileSystem.nodes[path].(data := data)];
      position := end;
      r := |bytes|;
    }
  }
}
