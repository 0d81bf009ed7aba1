/**
 What one turn of Read and of Write does in any reachable state (src/components/PipeService/Pipe.cpp:51-155),
 said of the states before and after it.
 */
module PipeLaws {
  import opened Basics
  import opened StopTokens
  import opened PipeSystem
  import opened PipeSync
  import opened PipeData
  import opened PipeTheorems

  /** The thread's step changes nothing of its pipe but its mutex's owner. */
  predicate LeavesPipe(s: System, s': System, p: PipeId)
    requires p < |s.pipes| == |s'.pipes|
  {
    s'.pipes[p].pipe == s.pipes[p].pipe && s'.pipes[p].committed == s.pipes[p].committed
    && s'.pipes[p].delivered == s.pipes[p].delivered
  }

  /** The `n` oldest bytes were handed to the call, and that is all. */
  predicate HandsOut(s: System, s': System, c: Call, n: nat)
    requires c.pipe < |s.pipes| == |s'.pipes|
  {
    var (cell, cell') := (s.pipes[c.pipe], s'.pipes[c.pipe]);
    && n <= |cell.pipe.contents|
    && cell'.pipe == cell.pipe.(contents := cell.pipe.contents[n..])
    && cell'.delivered == cell.delivered + [Segment(c.id, cell.pipe.contents[..n])]
    && cell'.committed == cell.committed
  }

  /**
   A read takes what there is, as much as it asks for, stop or no stop; only an empty pipe is the end of the
   file, interrupts it or makes it wait.
   */
  lemma ReadTakesWhatThereIs(s: System, t: ThreadId, c: Call)
    requires Reachable(s) && CanGo(s, t) && s.threads[t] == Turning(c) && c.op.ReadOp?
    ensures c.pipe < |s.pipes| == |Step(s, t).pipes| && c.op.count > 0
    ensures var (p, s') := (s.pipes[c.pipe].pipe, Step(s, t));
            if p.contents != [] then
              exists n :: 0 < n <= c.op.count && n <= |p.contents| && (n == c.op.count || n == |p.contents|)
                          && s'.threads[t] == Leaving(c, n) && HandsOut(s, s', c, n)
            else
              && LeavesPipe(s, s', c.pipe)
              && s'.threads[t] == if !p.writeEndOpen then Leaving(c, 0)
                                  else if StopSeen(s, c) then Leaving(c, -3) else AboutToWait(c)
  {
    ReachableOk(s);
    ThreadIsOk(s, t);
    hide Reachable, Sync, Data;
    var contents := s.pipes[c.pipe].pipe.contents;
    if contents != [] {
      var n := if c.op.count <= |contents| then c.op.count else |contents|;
      assert HandsOut(s, Step(s, t), c, n);
    }
  }

  /** The next `n` bytes of the call's were put behind those buffered, and that is all. */
  predicate PutsIn(s: System, s': System, c: Call, n: nat)
    requires c.pipe < |s.pipes| == |s'.pipes| && c.op.WriteOp?
  {
    var (cell, cell') := (s.pipes[c.pipe], s'.pipes[c.pipe]);
    && c.written + n <= |c.op.data|
    && cell'.pipe == cell.pipe.(contents := cell.pipe.contents + c.op.data[c.written..c.written + n])
    && cell'.committed == cell.committed + [Segment(c.id, c.op.data[c.written..c.written + n])]
    && cell'.delivered == cell.delivered
  }

  /** The room a write of `count` bytes waits for: all it needs up to 4096 bytes, one byte beyond that or the capacity. */
  function RoomAwaited(capacity: nat, count: nat): nat
  {
    if count <= 4096 && count <= capacity then count else 1
  }

  /** The bytes a turn with room `room` puts in, and where the call goes then. */
  lemma TurnPutsIn(s: System, t: ThreadId, c: Call, n: nat)
    requires CanGo(s, t) && s.threads[t] == Turning(c) && c.op.WriteOp? && c.written < |c.op.data|
    requires s.pipes[c.pipe].pipe.readEndOpen
    requires var p := s.pipes[c.pipe].pipe;
             p.capacity - |p.contents| >= RoomAwaited(p.capacity, |c.op.data|)
             && n == Min(p.capacity - |p.contents|, |c.op.data| - c.written)
    ensures var s' := Step(s, t);
            && |s'.pipes| == |s.pipes| && n > 0 && PutsIn(s, s', c, n)
            && |s'.threads| == |s.threads|
            && s'.threads[t] == (if n == |c.op.data| - c.written then Leaving(c.(written := |c.op.data|), |c.op.data|)
                                 else Turning(c.(written := c.written + n)))
  {
  }

  /** A turn without the room it waits for, or without a reader. */
  lemma TurnPutsNothing(s: System, t: ThreadId, c: Call)
    requires CanGo(s, t) && s.threads[t] == Turning(c) && c.op.WriteOp?
    requires var p := s.pipes[c.pipe].pipe;
             p.readEndOpen ==> p.capacity - |p.contents| < RoomAwaited(p.capacity, |c.op.data|)
    ensures var (p, s') := (s.pipes[c.pipe].pipe, Step(s, t));
            && |s'.pipes| == |s.pipes| && LeavesPipe(s, s', c.pipe) && |s'.threads| == |s.threads|
            && s'.threads[t] == if !p.readEndOpen then Leaving(c, if c.written > 0 then c.written else -2)
                                else if StopSeen(s, c) then Leaving(c, if c.written > 0 then c.written else -3)
                                else AboutToWait(c)
  {
  }

  /** A call at the top of Write's loop has bytes left to put in, and its pipe is a queue within its capacity. */
  lemma TurningWrites(s: System, t: ThreadId, c: Call)
    requires Reachable(s) && CanGo(s, t) && s.threads[t] == Turning(c) && c.op.WriteOp?
    ensures c.pipe < |s.pipes| && c.written < |c.op.data|
    ensures |s.pipes[c.pipe].pipe.contents| <= s.pipes[c.pipe].pipe.capacity
  {
    hide Reachable, Sync, Data, StopSeen;
    ReachableOk(s);
    ThreadIsOk(s, t);
  }

  /**
   A write puts in what fits as soon as there is the room it waits for, stop or no stop; only a pipe without
   that room interrupts it or makes it wait, and only one without a reader breaks it.
   */
  lemma WritePutsInWhatFits(s: System, t: ThreadId, c: Call)
    requires Reachable(s) && CanGo(s, t) && s.threads[t] == Turning(c) && c.op.WriteOp?
    ensures c.pipe < |s.pipes| == |Step(s, t).pipes| && |s.threads| == |Step(s, t).threads| && c.written < |c.op.data|
    ensures |s.pipes[c.pipe].pipe.contents| <= s.pipes[c.pipe].pipe.capacity
    ensures var (p, s', rest) := (s.pipes[c.pipe].pipe, Step(s, t), |c.op.data| - c.written);
            var room := p.capacity - |p.contents|;
            if p.readEndOpen && room >= RoomAwaited(p.capacity, |c.op.data|) then
              exists n :: 0 < n <= room && n <= rest && (n == room || n == rest) && PutsIn(s, s', c, n)
                          && s'.threads[t] == (if n == rest then Leaving(c.(written := |c.op.data|), |c.op.data|)
                                               else Turning(c.(written := c.written + n)))
            else
              && LeavesPipe(s, s', c.pipe)
              && s'.threads[t] == if !p.readEndOpen then Leaving(c, if c.written > 0 then c.written else -2)
                                  else if StopSeen(s, c) then Leaving(c, if c.written > 0 then c.written else -3)
                                  else AboutToWait(c)
  {
    hide *;
    TurningWrites(s, t, c);
    var (p, rest) := (s.pipes[c.pipe].pipe, |c.op.data| - c.written);
    var room := p.capacity - |p.contents|;
    if p.readEndOpen && room >= RoomAwaited(p.capacity, |c.op.data|) {
      TurnPutsIn(s, t, c, Min(room, rest));
    } else {
      TurnPutsNothing(s, t, c);
    }
  }

  /** A call of no bytes returns 0 at once; any other sets out for its token's mutex, or the pipe's without one. */
  lemma EmptyCallsReturnAtOnce(s: System, t: ThreadId, p: PipeId, op: Operation, k: Option<TokenId>)
    requires CanBegin(s, t, Transfer(p, op, k))
    ensures var s' := Start(s, t, Transfer(p, op, k));
            && s'.pipes == s.pipes && s'.tokens == s.tokens && |s'.threads| == |s.threads|
            && if op == ReadOp(0) || op == WriteOp([]) then
                 s'.threads[t] == Idle && s.nextCall in s'.returned && s'.returned[s.nextCall].result == 0
               else
                 && s'.threads[t].HasCall() && s'.threads[t].call == Call(s.nextCall, p, op, k, None, 0, 0)
                 && if k.Some? then s'.threads[t].Registering? else s'.threads[t].Entering?
  {
  }

  /** Closing an end closes that end only; what is buffered goes with the read end and stays without the write end. */
  lemma CloseClosesOneEnd(s: System, t: ThreadId, p: PipeId, e: End)
    requires CanGo(s, t) && s.threads[t] == ClosingHeld(p, e)
    ensures var (pipe, s') := (s.pipes[p].pipe, Step(s, t));
            && s'.threads[t] == Idle && |s'.pipes| == |s.pipes|
            && s'.pipes[p].pipe.capacity == pipe.capacity
            && s'.pipes[p].pipe.readEndOpen == (pipe.readEndOpen && e != ReadEnd)
            && s'.pipes[p].pipe.writeEndOpen == (pipe.writeEndOpen && e != WriteEnd)
            && s'.pipes[p].pipe.contents == (if e == ReadEnd then [] else pipe.contents)
            && forall q :: 0 <= q < |s.pipes| && q != p ==> s'.pipes[q] == s.pipes[q]
  {
  }
}
