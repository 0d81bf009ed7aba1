/**
 One pipe's bounded buffer (src/components/PipeService/Pipe.cpp).

 `Pipe` is the abstract queue and `ReadPass`/`WritePass` say what one turn of the loop inside
 PipeBuffer::Read and PipeBuffer::Write does to it while the pipe's mutex is held. The class
 `PipeBuffer` is the ring itself, verified against them; the module PipeSystem interleaves the same
 two functions between threads.
 */
module PipeBuffers {
  import opened Basics

  const IO_BROKEN_PIPE: int := -2
  const IO_INTERRUPTED: int := -3
  /** Writes of up to this many bytes are atomic (POSIX PIPE_BUF). */
  const PIPE_ATOMIC_WRITE_SIZE: nat := 4096

  /** The bytes in flight and which ends are still held. */
  datatype Pipe = Pipe(capacity: nat, contents: seq<byte>, readEndOpen: bool, writeEndOpen: bool)
  {
    predicate Valid()
    {
      && 1 <= capacity
      && |contents| <= capacity
      && (!readEndOpen ==> contents == [])
    }
  }

  /** What one turn of the loop ends in: a result, another turn at once, or a wait. */
  datatype Turn = Finished(result: int) | Again | MustWait

  /** Whether a write of `count` bytes is copied in one piece or not at all. */
  predicate IsAtomic(capacity: nat, count: nat)
  {
    count <= Min(PIPE_ATOMIC_WRITE_SIZE, capacity)
  }

  /** The room a write waits for. */
  function Need(capacity: nat, count: nat): nat
  {
    if IsAtomic(capacity, count) then count else 1
  }

  /** One turn of Read's loop: the pipe after it, its end and the bytes handed out. */
  function ReadPass(p: Pipe, count: nat, stop: bool): (Pipe, Turn, seq<byte>)
  {
    if p.contents != [] then
      var n := Min(count, |p.contents|);
      (p.(contents := p.contents[n..]), Finished(n), p.contents[..n])
    else if !p.writeEndOpen then (p, Finished(0), [])
    else if stop then (p, Finished(IO_INTERRUPTED), [])
    else (p, MustWait, [])
  }

  /** One turn of Write's loop, `written` bytes of `data` being in already. */
  function WritePass(p: Pipe, data: seq<byte>, written: nat, stop: bool): (Pipe, Turn, nat)
    requires p.Valid() && written <= |data|
  {
    if !p.readEndOpen then
      (p, Finished(if written > 0 then written else IO_BROKEN_PIPE), written)
    else
      var room := p.capacity - |p.contents|;
      if room >= Need(p.capacity, |data|) then
        var n := Min(room, |data| - written);
        var p' := p.(contents := p.contents + data[written..written + n]);
        (p', if written + n == |data| then Finished(written + n) else Again, written + n)
      else if stop then
        (p, Finished(if written > 0 then written else IO_INTERRUPTED), written)
      else (p, MustWait, written)
  }

  /** The pipe once its read end is gone: nobody can read what is buffered, so it is dropped. */
  function WithoutReader(p: Pipe): Pipe
  {
    p.(readEndOpen := false, contents := [])
  }

  /** The pipe once its write end is gone. */
  function WithoutWriter(p: Pipe): Pipe
  {
    p.(writeEndOpen := false)
  }

  /** An index taken modulo the ring's length, for one that has passed its end at most once. */
  function Wrapped(x: nat, length: nat): (r: nat)
    requires x < 2 * length
    ensures r == if x < length then x else x - length
  {
    assert x >= length ==> x == 1 * length + (x - length);
    x % length
  }

  /** The index `i` places on from `head` in a ring of `length` cells. */
  function Cell(length: nat, head: nat, i: nat): nat
    requires head + i < 2 * length
  {
    if head + i < length then head + i else head + i - length
  }

  /** The `size` elements of a ring that start at `head`. */
  function RingContents(ring: seq<byte>, head: nat, size: nat): (s: seq<byte>)
    requires size <= |ring| && (head < |ring| || head == size == 0)
    ensures |s| == size
    ensures forall i :: 0 <= i < size ==> s[i] == ring[Cell(|ring|, head, i)]
  {
    if head + size <= |ring| then ring[head..head + size] else ring[head..] + ring[..head + size - |ring|]
  }

  /** Moving the head on by `n` drops the `n` oldest elements. */
  lemma RingDrop(ring: seq<byte>, head: nat, size: nat, n: nat)
    requires n <= size <= |ring| && head < |ring|
    ensures RingContents(ring, Wrapped(head + n, |ring|), size - n) == RingContents(ring, head, size)[n..]
  {
  }

  /** Overwriting the `|added|` cells behind the newest element, and no other, appends `added`. */
  lemma RingAppend(ring: seq<byte>, ring': seq<byte>, head: nat, size: nat, added: seq<byte>)
    requires |ring'| == |ring| && head < |ring| && size + |added| <= |ring|
    requires forall i :: 0 <= i < size ==> ring'[Cell(|ring|, head, i)] == ring[Cell(|ring|, head, i)]
    requires forall i :: 0 <= i < |added| ==> ring'[Cell(|ring|, head, size + i)] == added[i]
    ensures RingContents(ring', head, size + |added|) == RingContents(ring, head, size) + added
  {
    var after, expected := RingContents(ring', head, size + |added|), RingContents(ring, head, size) + added;
    forall i | 0 <= i < |after|
      ensures after[i] == expected[i]
    {
      if size <= i {
        assert Cell(|ring|, head, size + (i - size)) == Cell(|ring|, head, i);
      }
    }
  }

  /** Bytes copied in at an offset, and those that do not fit before the ring's end at its start. */
  lemma CopiedIn(ring: seq<byte>, ring': seq<byte>, head: nat, size: nat, offset: nat, first: nat, added: seq<byte>)
    requires |ring'| == |ring| && head < |ring| && size + |added| <= |ring| && offset == Cell(|ring|, head, size)
    requires first == Min(|added|, |ring| - offset)
    requires forall k :: 0 <= k < |ring| ==>
               ring'[k] == if offset <= k < offset + first then added[k - offset]
                           else if k < |added| - first then added[first + k] else ring[k]
    ensures RingContents(ring', head, size + |added|) == RingContents(ring, head, size) + added
  {
    hide RingContents;
    RingAppend(ring, ring', head, size, added);
  }

  lemma RingTake(ring: seq<byte>, head: nat, size: nat, n: nat)
    requires n <= size <= |ring| && head < |ring|
    ensures RingContents(ring, head, n) == RingContents(ring, head, size)[..n]
  {
  }

  /** Bytes copied out from the head, and those past the ring's end from its start. */
  lemma CopiedOut(ring: seq<byte>, head: nat, n: nat, first: nat, before: seq<byte>, after: seq<byte>)
    requires head < |ring| && n <= |ring| && first == Min(n, |ring| - head) && n <= |before| == |after|
    requires forall i :: 0 <= i < |after| ==>
               after[i] == if i < first then ring[head + i] else if i < n then ring[i - first] else before[i]
    ensures after == RingContents(ring, head, n) + before[n..]
  {
  }

  /** The ring. Its storage is allocated by the first write that copies bytes and freed with the read end. */
  class PipeBuffer {
    const capacity: nat
    var storage: array<byte>
    var head: nat
    var size: nat
    var readEndOpen: bool
    var writeEndOpen: bool

    ghost predicate Valid()
      reads this
    {
      && 1 <= capacity
      && size <= storage.Length
      && (storage.Length == 0 || storage.Length == capacity)
      && (if storage.Length == 0 then head == 0 else head < storage.Length)
      && (!readEndOpen ==> size == 0)
    }

    /** The buffered bytes, oldest first. */
    ghost function View(): (p: Pipe)
      requires Valid()
      reads this, storage
    {
      Pipe(capacity, RingContents(storage[..], head, size), readEndOpen, writeEndOpen)
    }

    constructor (capacity: nat)
      requires 1 <= capacity
      ensures Valid() && fresh(storage)
      ensures View() == Pipe(capacity, [], true, true)
    {
      this.capacity := capacity;
      storage := new byte[0];
      head, size := 0, 0;
      readEndOpen, writeEndOpen := true, true;
    }

    /** One turn of Read's loop, for a positive count. */
    method ReadTurn(out: array<byte>, count: nat, stop: bool) returns (turn: Turn)
      requires Valid() && 1 <= count <= out.Length && out != storage
      modifies this`head, this`size, out
      ensures Valid()
      ensures View() == old(ReadPass(View(), count, stop)).0
      ensures turn == old(ReadPass(View(), count, stop)).1
      ensures var bytes := old(ReadPass(View(), count, stop)).2;
              |bytes| <= out.Length && out[..] == bytes + old(out[..])[|bytes|..]
      ensures if old(size) > 0 then
                turn == Finished(if count <= old(size) then count else old(size)) && size == old(size) - turn.result
              else turn == if !writeEndOpen then Finished(0) else if stop then Finished(-3) else MustWait
    {
      if size > 0 {
        var n := Min(count, size);
        Take(out, n);
        return Finished(n);
      }
      if !writeEndOpen {
        return Finished(0);
      }
      if stop {
        return Finished(IO_INTERRUPTED);
      }
      return MustWait;
    }

    /** Hands out the `n` oldest bytes. */
    method Take(out: array<byte>, n: nat)
      requires Valid() && 0 < n <= size && n <= out.Length && out != storage
      modifies this`head, this`size, out
      ensures Valid() && size == old(size) - n
      ensures out[..] == old(View()).contents[..n] + old(out[..])[n..]
      ensures View() == old(View()).(contents := old(View()).contents[n..])
    {
      hide RingContents;
      CopyOut(out, n, Min(n, storage.Length - head));
      RingDrop(storage[..], head, size, n);
      RingTake(storage[..], head, size, n);
      head := Wrapped(head + n, storage.Length);
      size := size - n;
    }

    /** The two memcpy calls of a read: `n` bytes out of the ring, wrapping after `first`. */
    method CopyOut(out: array<byte>, n: nat, first: nat)
      requires out != storage && n <= out.Length
      requires head < storage.Length && n <= storage.Length && first == Min(n, storage.Length - head)
      modifies out
      ensures out[..] == RingContents(storage[..], head, n) + old(out[..])[n..]
    {
      hide RingContents;
      ghost var before := out[..];
      forall i | 0 <= i < first {
        out[i] := storage[head + i];
      }
      if n > first {
        forall i | 0 <= i < n - first {
          out[first + i] := storage[i];
        }
      }
      CopiedOut(storage[..], head, n, first, before, out[..]);
    }

    /** One turn of Write's loop, for a non-empty `data`. */
    method WriteTurn(data: array<byte>, written: nat, stop: bool) returns (turn: Turn, total: nat)
      requires Valid() && written < data.Length && data != storage
      modifies this`storage, this`size, storage
      ensures Valid() && (storage == old(storage) || fresh(storage))
      ensures View() == old(WritePass(View(), data[..], written, stop)).0
      ensures turn == old(WritePass(View(), data[..], written, stop)).1
      ensures total == old(WritePass(View(), data[..], written, stop)).2
      ensures var (room, rest) := (capacity - old(size), data.Length - written);
              if readEndOpen && room >= if data.Length <= 4096 && data.Length <= capacity then data.Length else 1 then
                && total - written == (if room <= rest then room else rest) && size == old(size) + (total - written)
                && turn == if total == data.Length then Finished(total) else Again
              else
                && total == written && size == old(size)
                && turn == if !readEndOpen then Finished(if written > 0 then written else -2)
                           else if stop then Finished(if written > 0 then written else -3) else MustWait
    {
      hide RingContents;
      total := written;
      if !readEndOpen {
        turn := Finished(if written > 0 then written else IO_BROKEN_PIPE);
      } else if capacity - size >= Need(capacity, data.Length) {
        var n := Min(capacity - size, data.Length - written);
        assert data[..][written..written + n] == data[written..written + n];
        Put(data, written, n);
        total := written + n;
        turn := if total == data.Length then Finished(total) else Again;
      } else if stop {
        turn := Finished(if written > 0 then written else IO_INTERRUPTED);
      } else {
        turn := MustWait;
      }
    }

    /** Appends `n` bytes of `data`, allocating the ring if this is the first write to copy any. */
    method Put(data: array<byte>, from: nat, n: nat)
      requires Valid() && readEndOpen && from + n <= data.Length && size + n <= capacity && data != storage
      modifies this`storage, this`size, storage
      ensures Valid() && (storage == old(storage) || fresh(storage))
      ensures View() == old(View()).(contents := old(View()).contents + data[from..from + n])
    {
      if storage.Length == 0 {
        storage := new byte[capacity];
      }
      var offset := Wrapped(head + size, storage.Length);
      CopyIn(data, from, offset, Min(n, storage.Length - offset), n);
      size := size + n;
    }

    /** The two memcpy calls of a write: `n` bytes into the ring behind the newest, wrapping after `first`. */
    method CopyIn(data: array<byte>, from: nat, offset: nat, first: nat, n: nat)
      requires data != storage && from + n <= data.Length
      requires head < storage.Length && size + n <= storage.Length && offset == Cell(storage.Length, head, size)
      requires first == Min(n, storage.Length - offset)
      modifies storage
      ensures RingContents(storage[..], head, size + n) == old(RingContents(storage[..], head, size)) + data[from..from + n]
    {
      hide Cell, RingContents;
      ghost var ring, added := storage[..], data[from..from + n];
      assert forall i :: 0 <= i < n ==> data[from + i] == added[i];
      forall i | 0 <= i < first {
        storage[offset + i] := data[from + i];
      }
      assert forall k :: 0 <= k < |ring| ==> storage[k] == if offset <= k < offset + first then added[k - offset] else ring[k];
      if n > first {
        forall i | 0 <= i < n - first {
          storage[i] := data[from + first + i];
        }
      }
      CopiedIn(ring, storage[..], head, size, offset, first, added);
    }

    method CloseReadEnd()
      requires Valid()
      modifies this`readEndOpen, this`storage, this`head, this`size
      ensures Valid() && View() == old(WithoutReader(View()))
    {
      readEndOpen := false;
      storage := new byte[0];
      head, size := 0, 0;
    }

    method CloseWriteEnd()
      requires Valid()
      modifies this`writeEndOpen
      ensures Valid() && View() == old(WithoutWriter(View()))
    {
      writeEndOpen := false;
    }
  }
}
