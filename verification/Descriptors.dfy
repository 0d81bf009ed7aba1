/**
 A process's descriptor table (src/components/HaisosOS/ProcessFileIO.cpp): slots that hold references
 to open files. The functions say what each operation does to the table and which references it lets
 go of; the class is verified against them.
 */
module Descriptors {
  import opened Basics
  import opened StopTokens
  import opened PipeSystem
  import opened VirtualPath

  /** An open file; a pipe's end is one object however many slots refer to it. */
  datatype File = PipeEnd(pipe: PipeId, end: End) | Other(id: nat)

  type Slot = Option<File>
  const MAX_DESCRIPTORS: nat := 1024

  type Table = t: seq<Slot> | |t| <= MAX_DESCRIPTORS witness []

  predicate IsFree(table: Table, slot: nat)
  {
    slot >= |table| || table[slot] == None
  }

  predicate IsOpen(table: Table, fd: int)
  {
    0 <= fd < |table| && table[fd] != None
  }

  /** The lowest free slot from `from` on; a slot past the end is free while the table may grow. */
  function NextFree(table: Table, from: nat): (r: Option<nat>)
    ensures r.Some? ==> from <= r.value < MAX_DESCRIPTORS && IsFree(table, r.value)
    ensures r.Some? ==> forall i :: from <= i < r.value ==> !IsFree(table, i)
    ensures r.None? ==> forall i :: from <= i < MAX_DESCRIPTORS ==> !IsFree(table, i)
    decreases |table| - from
  {
    if from < |table| then
      if table[from] == None then Some(from) else NextFree(table, from + 1)
    else if from < MAX_DESCRIPTORS then Some(from)
    else None
  }

  /** The lowest free slot of all is in the table or right at its end. */
  lemma LowestIsNear(table: Table)
    ensures NextFree(table, 0).Some? ==> NextFree(table, 0).value <= |table|
  {
    assert IsFree(table, |table|);
  }

  // ---- What the operations do to the table --------------------------------------------------------

  /** The table afterwards, the number returned and the references let go of. */
  datatype Change = Change(table: Table, result: int, released: seq<File>)

  function Put(table: Table, slot: nat, file: File): Table
    requires slot <= |table| && slot < MAX_DESCRIPTORS
  {
    if slot == |table| then table + [Some(file)] else table[slot := Some(file)]
  }

  function Added(table: Table, file: File): Change
  {
    LowestIsNear(table);
    match NextFree(table, 0)
    case None => Change(table, -1, [file])
    case Some(slot) => Change(Put(table, slot, file), slot, [])
  }

  function Dupped(table: Table, fd: int): Change
  {
    if IsOpen(table, fd) then Added(table, table[fd].value) else Change(table, -1, [])
  }

  function Grown(table: Table, size: nat): Table
    requires size <= MAX_DESCRIPTORS
  {
    if size <= |table| then table else table + seq(size - |table|, i => None)
  }

  function Referents(slot: Slot): seq<File>
  {
    if slot == None then [] else [slot.value]
  }

  function Dupped2(table: Table, oldFd: int, newFd: int): Change
  {
    if !IsOpen(table, oldFd) || newFd < 0 || newFd >= MAX_DESCRIPTORS then Change(table, -1, [])
    else if oldFd == newFd then Change(table, newFd, [])
    else
      var grown := Grown(table, newFd + 1);
      Change(grown[newFd := grown[oldFd]], newFd, Referents(grown[newFd]))
  }

  function Closed(table: Table, fd: int): Change
  {
    if IsOpen(table, fd) then Change(table[fd := None], 0, [table[fd].value]) else Change(table, -1, [])
  }

  function AllReleased(table: Table): Change
  {
    Change([], 0, ReferentsOf(table))
  }

  function ReferentsOf(slots: seq<Slot>): seq<File>
  {
    if slots == [] then [] else Referents(slots[0]) + ReferentsOf(slots[1..])
  }

  /** The result is 1 when the streams were installed and 0 when not. */
  function Installed(table: Table, streams: (Slot, Slot, Slot)): Change
  {
    if streams.0.Some? && streams.1.Some? && streams.2.Some? && forall i :: 0 <= i < |table| ==> table[i] == None then
      Change([streams.0, streams.1, streams.2], 1, [])
    else
      Change(table, 0, Referents(streams.0) + Referents(streams.1) + Referents(streams.2))
  }

  /** The slots of a new pipe's ends, none when there is no room for both. */
  function Piped(table: Table, readEnd: File, writeEnd: File): (Change, Option<(nat, nat)>)
  {
    var slot := NextFree(table, 0);
    if slot.Some? && NextFree(table, slot.value + 1).Some? then
      var one := Added(table, readEnd);
      var two := Added(one.table, writeEnd);
      (Change(two.table, 0, one.released + two.released),
       if one.result >= 0 && two.result >= 0 then Some((one.result, two.result)) else None)
    else (Change(table, -1, [readEnd, writeEnd]), None)
  }

  // ---- What that means ------------------------------------------------------------------------------

  /** How many slots refer to the file. */
  function Held(table: Table, f: File): nat
  {
    multiset(table)[Some(f)]
  }

  /** References taken into the table and let go of add up, file by file. */
  ghost predicate Balanced(before: Table, taken: multiset<File>, c: Change)
  {
    forall f :: Held(c.table, f) + multiset(c.released)[f] == Held(before, f) + taken[f]
  }

  /** Besides the slot, nothing changes. */
  ghost predicate SameBut(table: Table, slot: nat, after: Table)
  {
    && (forall i :: 0 <= i && i != slot ==> (IsFree(after, i) <==> IsFree(table, i)))
    && (forall i :: 0 <= i < |table| && i != slot ==> i < |after| && after[i] == table[i])
  }

  /** A file placed lands in the lowest free slot and no other slot changes; with no free slot nothing does. */
  lemma AddedLands(table: Table, file: File)
    ensures var c := Added(table, file);
            if c.result < 0 then
              && c.result == -1 && c.table == table && c.released == [file]
              && forall i :: 0 <= i < 1024 ==> !IsFree(table, i)
            else
              && IsFree(table, c.result) && (forall i :: 0 <= i < c.result ==> !IsFree(table, i))
              && c.released == [] && c.result < |c.table| && c.table[c.result] == Some(file)
              && SameBut(table, c.result, c.table)
  {
    LowestIsNear(table);
  }

  lemma AddedBalances(table: Table, file: File)
    ensures Balanced(table, multiset{file}, Added(table, file))
  {
    LowestIsNear(table);
    var c := Added(table, file);
    if c.result == |table| {
      assert multiset(c.table) == multiset(table) + multiset{Some(file)};
    } else if c.result >= 0 {
      SlotChanges(table, c.result, Some(file));
    }
  }

  /** A copy of what an open slot holds lands like anything placed; nothing is copied from any other number. */
  lemma DuppedLands(table: Table, fd: int)
    ensures var c := Dupped(table, fd);
            if 0 <= fd < |table| && table[fd].Some? then
              if c.result < 0 then
                && c.result == -1 && c.table == table && c.released == [table[fd].value]
                && forall i :: 0 <= i < 1024 ==> !IsFree(table, i)
              else
                && IsFree(table, c.result) && (forall i :: 0 <= i < c.result ==> !IsFree(table, i))
                && c.released == [] && c.result < |c.table| && c.table[c.result] == table[fd]
                && SameBut(table, c.result, c.table)
            else c == Change(table, -1, [])
  {
    if IsOpen(table, fd) {
      AddedLands(table, table[fd].value);
    }
    hide Added, SameBut;
  }

  /**
   Dup2 fails, changing nothing, exactly when `oldFd` is not open or `newFd` is not among 0 to 1023. Otherwise slot
   `newFd` and no other slot changes: it holds what slot `oldFd` holds, and what it held, if that is another slot, is
   let go of.
   */
  lemma Dupped2Lands(table: Table, oldFd: int, newFd: int)
    ensures var c := Dupped2(table, oldFd, newFd);
            if 0 <= oldFd < |table| && table[oldFd].Some? && 0 <= newFd < 1024 then
              && c.result == newFd && newFd < |c.table| && c.table[newFd] == table[oldFd] && SameBut(table, newFd, c.table)
              && (oldFd == newFd ==> c.table == table && c.released == [])
              && (oldFd != newFd ==>
                    if newFd < |table| && table[newFd].Some? then c.released == [table[newFd].value] else c.released == [])
            else c == Change(table, -1, [])
  {
  }

  /** An open slot is closed, and no other, and what it held is let go of; any other number changes nothing. */
  lemma ClosedFrees(table: Table, fd: int)
    ensures var c := Closed(table, fd);
            if 0 <= fd < |table| && table[fd].Some? then
              && c.result == 0 && c.released == [table[fd].value] && |c.table| == |table|
              && IsFree(c.table, fd) && SameBut(table, fd, c.table)
            else c == Change(table, -1, [])
  {
  }

  /** Input, output and error fill slots 0, 1 and 2, exactly when there are all three and no slot is open. */
  lemma InstalledInOrder(table: Table, input: Slot, output: Slot, error: Slot)
    ensures var c := Installed(table, (input, output, error));
            if input.Some? && output.Some? && error.Some? && forall i :: 0 <= i < |table| ==> table[i].None? then
              && c.result == 1 && c.released == [] && |c.table| == 3
              && c.table[0] == input && c.table[1] == output && c.table[2] == error
            else c.result == 0 && c.table == table
  {
  }

  /** A released table holds nothing, so Balanced says that each of its references was let go of once. */
  lemma AllReleasedIs(table: Table)
    ensures AllReleased(table).table == [] && Balanced(table, multiset{}, AllReleased(table))
  {
    AllReleasedBalances(table);
  }

  /** A slot written over: one reference more to what is put in, one less to what was there. */
  lemma SlotChanges(table: Table, slot: nat, after: Slot)
    requires slot < |table|
    ensures forall f :: Held(table[slot := after], f) + multiset(Referents(table[slot]))[f]
                        == Held(table, f) + multiset(Referents(after))[f]
  {
    assert multiset(table[slot := after]) == multiset(table) - multiset{table[slot]} + multiset{after};
    assert table[slot] in multiset(table);
  }

  lemma GrowthHolds(table: Table, size: nat)
    requires size <= MAX_DESCRIPTORS
    ensures forall f :: Held(Grown(table, size), f) == Held(table, f)
    decreases size
  {
    if size > |table| {
      GrowthHolds(table, size - 1);
      assert Grown(table, size) == Grown(table, size - 1) + [None];
    }
  }

  lemma Dupped2Balances(table: Table, oldFd: int, newFd: int)
    ensures var c := Dupped2(table, oldFd, newFd);
            Balanced(table, if c.result >= 0 && oldFd != newFd then multiset{table[oldFd].value} else multiset{}, c)
  {
    var c := Dupped2(table, oldFd, newFd);
    if c.result >= 0 && oldFd != newFd {
      var grown := Grown(table, newFd + 1);
      var file := table[oldFd].value;
      assert c == Change(grown[newFd := Some(file)], newFd, Referents(grown[newFd]));
      GrowthHolds(table, newFd + 1);
      hide Grown, Held, Dupped2;
      SlotChanges(grown, newFd, Some(file));
      assert Referents(Some(file)) == [file];
      hide Referents;
    }
  }

  lemma ClosedBalances(table: Table, fd: int)
    ensures Balanced(table, multiset{}, Closed(table, fd))
  {
    if IsOpen(table, fd) {
      SlotChanges(table, fd, None);
    }
  }

  lemma {:induction false} AllReleasedBalances(slots: seq<Slot>)
    ensures forall f :: multiset(ReferentsOf(slots))[f] == multiset(slots)[Some(f)]
  {
    if slots != [] {
      AllReleasedBalances(slots[1..]);
      assert slots == [slots[0]] + slots[1..];
    }
  }

  lemma {:induction false} EmptyHoldsNothing(slots: seq<Slot>)
    requires forall i :: 0 <= i < |slots| ==> slots[i] == None
    ensures forall f :: multiset(slots)[Some(f)] == 0
  {
    assert forall f: File :: Some(f) !in slots;
  }

  function One(b: bool): nat { if b then 1 else 0 }

  lemma CountOfThree<T>(a: T, b: T, c: T, x: T)
    ensures multiset([a, b, c])[x] == One(a == x) + One(b == x) + One(c == x)
  {
    assert multiset([a, b, c]) == multiset{a, b, c};
  }

  /** The references three streams are passed with. */
  function StreamReferences(streams: (Slot, Slot, Slot)): multiset<File>
  {
    multiset(Referents(streams.0)) + multiset(Referents(streams.1)) + multiset(Referents(streams.2))
  }

  lemma StreamsHeld(a: File, b: File, c: File, f: File)
    ensures Held([Some(a), Some(b), Some(c)], f) == StreamReferences((Some(a), Some(b), Some(c)))[f]
  {
    CountOfThree(Some(a), Some(b), Some(c), Some(f));
    OneOf(a, f);
    OneOf(b, f);
    OneOf(c, f);
    hide One;
  }

  lemma OneOf(a: File, f: File)
    ensures multiset([a])[f] == One(a == f) == One(Some(a) == Some(f))
  {
  }

  lemma InstalledBalances(table: Table, streams: (Slot, Slot, Slot))
    ensures Balanced(table, StreamReferences(streams), Installed(table, streams))
  {
    var change := Installed(table, streams);
    if change.result == 1 {
      EmptyHoldsNothing(table);
      hide Referents, Installed, StreamReferences;
      forall f
        ensures Held(change.table, f) == StreamReferences(streams)[f]
      {
        StreamsHeld(streams.0.value, streams.1.value, streams.2.value, f);
      }
    } else {
      hide Referents;
    }
  }

  /** A pipe's ends land in the two lowest free slots, the read end first, or the table is unchanged and both are let go of. */
  lemma PipeLandsLowest(table: Table, r: File, w: File)
    ensures var (c, slots) := Piped(table, r, w);
            if slots.None? then
              && c.table == table && c.released == [r, w]
              && forall i, j :: 0 <= i < j < 1024 ==> !IsFree(table, i) || !IsFree(table, j)
            else
              var (i, j) := slots.value;
              && c.released == [] && i < j < |c.table| && c.table[i] == Some(r) && c.table[j] == Some(w)
              && (forall k :: 0 <= k <= j ==> (IsFree(table, k) <==> k == i || k == j))
              && (forall k :: 0 <= k < |table| && k != i && k != j ==> c.table[k] == table[k])
              && forall k :: k > j ==> (IsFree(c.table, k) <==> IsFree(table, k))
  {
    var slot := NextFree(table, 0);
    AddedLands(table, r);
    var one := Added(table, r);
    AddedLands(one.table, w);
    if slot.Some? {
      assert one.result == slot.value;
      var second := NextFree(table, slot.value + 1);
      if second.Some? {
        assert IsFree(one.table, second.value);
      } 
    }
  }

  lemma PipedBalances(table: Table, r: File, w: File)
    ensures Balanced(table, multiset{r, w}, Piped(table, r, w).0)
  {
    AddedBalances(table, r);
    AddedBalances(Added(table, r).table, w);
    hide Held;
  }

  // ---- The table itself -----------------------------------------------------------------------------

  /**
   One process's descriptors. Dup2, CloseDescriptor and ReleaseAllDescriptors let go of what they drop only
   after the table's mutex is released; a descriptor that a full table has no room for goes under it.
   */
  class ProcessFileIO {
    var descriptors: seq<Slot>
    var workingDirectory: string

    ghost predicate Valid()
      reads this
    {
      |descriptors| <= MAX_DESCRIPTORS && Normal(workingDirectory)
    }

    /** An empty working directory means the root. */
    constructor (directory: string)
      ensures Valid() && descriptors == [] && workingDirectory == Normalize(directory, "/")
    {
      descriptors := [];
      workingDirectory := if directory == "" then "/" else Normalize(directory, "/");
      NormalizeIsNormal(directory, "/");
      NormalizeAtRoot("");
      assert Pieces("") == [""] && Walked(Walk([], true), [""]) == Walk([], true);
      RootedIsSame("");
    }

    function ResolvePath(path: string): string
      reads this
    {
      Normalize(path, workingDirectory)
    }

    /** `isDirectory` is what the root filesystem's Stat says of a path. */
    method ChangeDirectory(path: string, isDirectory: string -> bool) returns (r: int)
      requires Valid()
      modifies this`workingDirectory
      ensures Valid()
      ensures var target := old(ResolvePath(path));
              if target == "/" || isDirectory(target) then r == 0 && workingDirectory == target
              else r == -1 && workingDirectory == old(workingDirectory)
    {
      var target := NormalizeVirtualPath(path, workingDirectory);
      NormalizeIsNormal(path, workingDirectory);
      if target != "/" && !isDirectory(target) {
        return -1;
      }
      workingDirectory := target;
      r := 0;
    }

    function GetDescriptor(fd: int): Slot
      reads this
    {
      if fd < 0 || fd >= |descriptors| then None else descriptors[fd]
    }

    method NextFreeSlotLocked(from: nat) returns (slot: int)
      requires Valid()
      ensures match NextFree(descriptors, from)
              case Some(i) => slot == i
              case None => slot == -1
    {
      var i := from;
      while i < |descriptors|
        invariant from <= i && (i > |descriptors| ==> i == from)
        invariant NextFree(descriptors, from) == NextFree(descriptors, i)
        decreases |descriptors| - i
      {
        if descriptors[i] == None {
          return i;
        }
        i := i + 1;
      }
      var grown := if from > |descriptors| then from else |descriptors|;
      slot := if grown < MAX_DESCRIPTORS then grown else -1;
    }

    /** The file in the lowest free slot, or handed back. */
    method AddDescriptorLocked(file: File) returns (slot: int, released: seq<File>)
      requires Valid()
      modifies this`descriptors
      ensures Valid() && Change(descriptors, slot, released) == Added(old(descriptors), file)
    {
      LowestIsNear(descriptors);
      slot := NextFreeSlotLocked(0);
      if slot < 0 {
        return -1, [file];
      }
      if slot == |descriptors| {
        descriptors := descriptors + [Some(file)];
      } else {
        descriptors := descriptors[slot := Some(file)];
      }
      released := [];
    }

    method AddDescriptor(file: Option<File>) returns (slot: int, released: seq<File>)
      requires Valid()
      modifies this`descriptors
      ensures Valid()
      ensures Change(descriptors, slot, released) ==
              if file == None then Change(old(descriptors), -1, []) else Added(old(descriptors), file.value)
    {
      if file == None {
        return -1, [];
      }
      slot, released := AddDescriptorLocked(file.value);
    }

    method Dup(fd: int) returns (slot: int, released: seq<File>)
      requires Valid()
      modifies this`descriptors
      ensures Valid() && Change(descriptors, slot, released) == Dupped(old(descriptors), fd)
    {
      if fd < 0 || fd >= |descriptors| || descriptors[fd] == None {
        return -1, [];
      }
      slot, released := AddDescriptorLocked(descriptors[fd].value);
    }

    method Dup2(oldFd: int, newFd: int) returns (r: int, released: seq<File>)
      requires Valid()
      modifies this`descriptors
      ensures Valid() && Change(descriptors, r, released) == Dupped2(old(descriptors), oldFd, newFd)
      ensures r == -1 || (r == newFd && 0 <= oldFd < old(|descriptors|) && 0 <= newFd < |descriptors|
                          && descriptors[newFd] == old(descriptors)[oldFd])
    {
      if oldFd < 0 || oldFd >= |descriptors| || descriptors[oldFd] == None {
        return -1, [];
      }
      if newFd < 0 || newFd >= MAX_DESCRIPTORS {
        return -1, [];
      }
      if oldFd == newFd {
        return newFd, [];
      }
      if newFd >= |descriptors| {
        descriptors := descriptors + seq(newFd + 1 - |descriptors|, i => None);
      }
      released := Referents(descriptors[newFd]);
      descriptors := descriptors[newFd := descriptors[oldFd]];
      r := newFd;
    }

    method CloseDescriptor(fd: int) returns (r: int, released: seq<File>)
      requires Valid()
      modifies this`descriptors
      ensures Valid() && Change(descriptors, r, released) == Closed(old(descriptors), fd)
    {
      if fd < 0 || fd >= |descriptors| || descriptors[fd] == None {
        return -1, [];
      }
      released := [descriptors[fd].value];
      descriptors := descriptors[fd := None];
      r := 0;
    }

    method InstallStandardStreams(input: Slot, output: Slot, error: Slot) returns (ok: bool, released: seq<File>)
      requires Valid()
      modifies this`descriptors
      ensures Valid()
      ensures Change(descriptors, if ok then 1 else 0, released) == Installed(old(descriptors), (input, output, error))
    {
      released := Referents(input) + Referents(output) + Referents(error);
      if input == None || output == None || error == None {
        return false, released;
      }
      for i := 0 to |descriptors|
        invariant forall j :: 0 <= j < i ==> descriptors[j] == None
      {
        if descriptors[i] != None {
          return false, released;
        }
      }
      descriptors := [input, output, error];
      return true, [];
    }

    /** `made` are the ends the pipe service makes, none when the OS or its pipe service is gone. */
    method CreatePipe(made: Option<(File, File)>) returns (slots: Option<(nat, nat)>, released: seq<File>)
      requires Valid()
      modifies this`descriptors
      ensures Valid()
      ensures var (c, at) := if made == None then (Change(old(descriptors), -1, []), None)
                             else Piped(old(descriptors), made.value.0, made.value.1);
              descriptors == c.table && released == c.released && slots == at
    {
      if made == None {
        return None, [];
      }
      var (readEnd, writeEnd) := made.value;
      slots, released := None, [readEnd, writeEnd];
      var readSlot := NextFreeSlotLocked(0);
      if readSlot >= 0 {
        var next := NextFreeSlotLocked(readSlot + 1);
        if next >= 0 {
          var placedRead, left := AddDescriptorLocked(readEnd);
          var placedWrite, left2 := AddDescriptorLocked(writeEnd);
          if placedRead >= 0 && placedWrite >= 0 {
            slots := Some((placedRead, placedWrite));
          }
          released := left + left2;
        }
      }
    }

    method ReleaseAllDescriptors() returns (released: seq<File>)
      requires Valid()
      modifies this`descriptors
      ensures Valid() && Change(descriptors, 0, released) == AllReleased(old(descriptors))
    {
      released := ReferentsOf(descriptors);
      descriptors := [];
    }
  }
}
