/** What holds in every reachable state of the pipe and stop-token protocol. */
module PipeTheorems {
  import opened Basics
  import opened PipeBuffers
  import opened StopTokens
  import opened PipeSystem
  import opened PipeSync
  import opened PipeData

  lemma ReachableOk(s: System)
    requires Reachable(s)
    ensures Sync(s) && Data(s)
  {
    var n: nat :| ReachableIn(s, n);
    DataReachableIn(s, n);
  }

  // ---- Wake-ups -------------------------------------------------------------------------------

  /** `u` is inside RequestStop on token `k` and has still to finish running callback `id`. */
  predicate WillRun(s: System, u: ThreadId, k: TokenId, id: nat)
  {
    u < |s.threads| && k < |s.tokens| && Notifying(s.threads[u], k) && s.tokens[k].cursor <= id
    && id in s.tokens[k].callbacks
  }

  /**
   No lost wake-up. A thread parked without a notification has nothing to do, and its stop token, if
   any, is unsignalled or the RequestStop that signalled it is still to run this call's callback.
   */
  lemma NoLostWakeUp(s: System, t: ThreadId, c: Call)
    requires Reachable(s) && t < |s.threads| && s.threads[t] == Parked(c)
    ensures c.pipe < |s.pipes|
    ensures var p := s.pipes[c.pipe].pipe;
            match c.op
            case ReadOp(_) => p.contents == [] && p.writeEndOpen
            case WriteOp(data) =>
              p.readEndOpen && p.capacity - |p.contents| < if |data| <= 4096 && |data| <= p.capacity then |data| else 1
    ensures StopSeen(s, c) ==> c.registration.Some? && exists u :: WillRun(s, u, c.token.value, c.registration.value)
  {
    ReachableOk(s);
    assert ThreadOk(s, t);
    if StopSeen(s, c) {
      var k, id := c.token.value, c.registration.value;
      assert TokenOk(s, k);
      assert WillRun(s, s.tokens[k].owner.value, k, id);
    }
  }

  /** Once RequestStop has let the token's mutex go, no call carrying the token is parked. */
  lemma StopReachesEveryCall(s: System, t: ThreadId, k: TokenId)
    requires Reachable(s) && t < |s.threads| && k < |s.tokens|
    requires s.tokens[k].stopRequested && s.tokens[k].owner == None
    ensures !(s.threads[t].Parked? && s.threads[t].call.token == Some(k))
  {
    ReachableOk(s);
    assert ThreadOk(s, t);
    assert TokenOk(s, k);
  }

  /** A reader and a writer of one pipe are never both parked. */
  lemma NeverBothParked(s: System, t: ThreadId, u: ThreadId)
    requires Reachable(s) && t < |s.threads| && u < |s.threads|
    requires s.threads[t].Parked? && s.threads[t].call.op.ReadOp?
    requires s.threads[u].Parked? && s.threads[u].call.op.WriteOp?
    ensures s.threads[t].call.pipe != s.threads[u].call.pipe
  {
    ReachableOk(s);
    assert ThreadOk(s, t) && ThreadOk(s, u);
  }

  // ---- Locks ----------------------------------------------------------------------------------

  /** The pipe whose mutex the thread's next step takes. */
  function PipeWanted(s: System, th: Thread): Option<PipeId>
  {
    match th
    case SelfWaking(c) => Some(c.pipe)
    case Entering(c) => Some(c.pipe)
    case Closing(p, _) => Some(p)
    case Calling(k) =>
      if k < |s.tokens| && NextCallback(s.tokens[k], s.tokens[k].cursor) < s.tokens[k].nextId
      then Some(s.tokens[k].callbacks[NextCallback(s.tokens[k], s.tokens[k].cursor)].pipe)
      else None
    case _ => None
  }

  /** The token whose mutex the thread's next step takes. */
  function TokenWanted(th: Thread): Option<TokenId>
  {
    match th
    case Registering(c) => c.token
    case Leaving(c, _) => if c.registration.Some? then c.token else None
    case Stopping(k) => Some(k)
    case _ => None
  }

  /** `t` waits for a mutex that `u` owns. */
  predicate WaitsFor(s: System, t: ThreadId, u: ThreadId)
  {
    && t < |s.threads|
    && ((PipeWanted(s, s.threads[t]).Some? && PipeWanted(s, s.threads[t]).value < |s.pipes|
         && s.pipes[PipeWanted(s, s.threads[t]).value].owner == Some(u))
        || (TokenWanted(s.threads[t]).Some? && TokenWanted(s.threads[t]).value < |s.tokens|
            && s.tokens[TokenWanted(s.threads[t]).value].owner == Some(u)))
  }

  /** Waiting for a pipe's mutex. */
  lemma GoesOrWaitsForPipe(s: System, t: ThreadId, p: PipeId)
    requires Sync(s) && t < |s.threads| && PipeWanted(s, s.threads[t]) == Some(p) && !s.threads[t].Calling?
    ensures CanGo(s, t) || exists u :: WaitsFor(s, t, u)
  {
    assert ThreadOk(s, t);
    if !CanGo(s, t) {
      hide Sync, StopOk;
      assert WaitsFor(s, t, s.pipes[p].owner.value);
    }
  }

  /** Waiting for a token's mutex. */
  lemma GoesOrWaitsForToken(s: System, t: ThreadId, k: TokenId)
    requires Sync(s) && t < |s.threads| && TokenWanted(s.threads[t]) == Some(k)
    ensures CanGo(s, t) || exists u :: WaitsFor(s, t, u)
  {
    assert ThreadOk(s, t);
    if !CanGo(s, t) {
      hide Sync, StopOk;
      assert WaitsFor(s, t, s.tokens[k].owner.value);
    }
  }

  /** Between two callbacks. */
  lemma GoesOrWaitsForNext(s: System, t: ThreadId, k: TokenId)
    requires Sync(s) && t < |s.threads| && s.threads[t] == Calling(k)
    ensures CanGo(s, t) || exists u :: WaitsFor(s, t, u)
  {
    assert ThreadOk(s, t);
    if !CanGo(s, t) {
      assert TokenOk(s, k);
      var id := NextCallback(s.tokens[k], s.tokens[k].cursor);
      var p := s.tokens[k].callbacks[id].pipe;
      assert ThreadOk(s, s.tokens[k].callbacks[id].thread);
      assert WaitsFor(s, t, s.pipes[p].owner.value);
    }
  }

  /** A thread under way goes on, is parked, or waits for one mutex that another thread owns. */
  lemma GoesOrWaits(s: System, t: ThreadId)
    requires Sync(s) && t < |s.threads| && !s.threads[t].Idle? && !s.threads[t].Parked?
    ensures CanGo(s, t) || exists u :: WaitsFor(s, t, u)
  {
    ThreadIsOk(s, t);
    hide Sync, WaitsFor;
    match s.threads[t]
    case SelfWaking(c) => GoesOrWaitsForPipe(s, t, c.pipe);
    case Entering(c) => GoesOrWaitsForPipe(s, t, c.pipe);
    case Closing(p, _) => GoesOrWaitsForPipe(s, t, p);
    case Registering(c) => GoesOrWaitsForToken(s, t, c.token.value);
    case Leaving(c, _) =>
      if c.registration.Some? {
        GoesOrWaitsForToken(s, t, c.token.value);
      }
    case Stopping(k) => GoesOrWaitsForToken(s, t, k);
    case Calling(k) => GoesOrWaitsForNext(s, t, k);
    case _ =>
      HoldersGo(s, t);
  }

  /** A thread that owns a mutex, unless it is RequestStop's loop waiting for a pipe, can go on. */
  lemma HoldersGo(s: System, t: ThreadId)
    requires Sync(s) && t < |s.threads| && !s.threads[t].Calling?
    requires PipeHeld(s.threads[t]).Some? || TokenHeld(s.threads[t]).Some?
    ensures CanGo(s, t)
  {
    assert ThreadOk(s, t);
    match s.threads[t]
    case InCallback(k, id, reg) => CallbackFinds(s, t, k, id, reg);
    case _ =>
  }

  /** Waits for mutexes end after two links: the token's mutex is only ever taken before the pipe's. */
  lemma LockWaitsAreShort(s: System, t: ThreadId, u: ThreadId, v: ThreadId)
    requires Reachable(s) && WaitsFor(s, t, u) && WaitsFor(s, u, v)
    ensures v < |s.threads| && CanGo(s, v)
    ensures forall w :: !WaitsFor(s, v, w)
  {
    ReachableOk(s);
    OwnersAreThreads(s, t, u);
    OwnersAreThreads(s, u, v);
    HoldersGo(s, v);
  }

  lemma OwnersAreThreads(s: System, t: ThreadId, u: ThreadId)
    requires Sync(s) && WaitsFor(s, t, u)
    ensures u < |s.threads|
    ensures PipeWanted(s, s.threads[t]).Some? ==> PipeHeld(s.threads[u]) == PipeWanted(s, s.threads[t])
    ensures TokenWanted(s.threads[t]).Some? ==> TokenHeld(s.threads[u]) == TokenWanted(s.threads[t])
  {
  }

  lemma OwnerIsBusy(s: System, t: ThreadId, u: ThreadId)
    requires Sync(s) && WaitsFor(s, t, u)
    ensures u < |s.threads| && !s.threads[u].Idle? && !s.threads[u].Parked?
  {
    OwnersAreThreads(s, t, u);
    hide Sync, WaitsFor;
  }

  /** No deadlock among the mutexes: from any thread under way and not parked, a thread that can go is at most two owners away. */
  lemma NoLockDeadlock(s: System, t: ThreadId)
    requires Reachable(s) && t < |s.threads| && !s.threads[t].Idle? && !s.threads[t].Parked?
    ensures CanGo(s, t)
            || (exists u :: WaitsFor(s, t, u) && CanGo(s, u))
            || (exists u, v :: WaitsFor(s, t, u) && WaitsFor(s, u, v) && CanGo(s, v))
  {
    ReachableOk(s);
    GoesOrWaits(s, t);
    hide Sync, Data, CanGo, WaitsFor, Reachable;
    if !CanGo(s, t) {
      var u :| WaitsFor(s, t, u);
      OwnerIsBusy(s, t, u);
      GoesOrWaits(s, u);
      if !CanGo(s, u) {
        var v :| WaitsFor(s, u, v);
        LockWaitsAreShort(s, t, u, v);
      }
    }
  }

  // ---- Callbacks ------------------------------------------------------------------------------

  /** A callback has run once if a stop was requested before or during its registered life, and never otherwise. */
  lemma CallbackRunsOnce(s: System, t: ThreadId)
    requires Reachable(s) && t < |s.threads| && s.threads[t].HasCall()
    ensures s.threads[t].call.wakes <= 1
    ensures s.threads[t].LeavingHeld? || (s.threads[t].Leaving? && s.threads[t].call.registration == None) ==>
              s.threads[t].call.wakes == if StopSeen(s, s.threads[t].call) then 1 else 0
  {
    ReachableOk(s);
    assert ThreadOk(s, t);
    hide Data;
    if s.threads[t].LeavingHeld? {
      var k := s.threads[t].call.token.value;
      assert TokenHeld(s.threads[t]) == Some(k);
      assert TokenOk(s, k);
    }
  }

  /**
   Every callback registered or running belongs to a call that has not returned, on the pipe it wakes;
   and a call whose ~StopCallback owns the token's mutex is not the one whose callback runs.
   */
  lemma CallbackOutlivedByCall(s: System, u: ThreadId, k: TokenId, id: nat, reg: Registration)
    requires Reachable(s)
    requires (k < |s.tokens| && id in s.tokens[k].callbacks && s.tokens[k].callbacks[id] == reg)
             || (u < |s.threads| && s.threads[u] == InCallback(k, id, reg))
    ensures reg.thread < |s.threads| && s.threads[reg.thread].HasCall()
    ensures var c := s.threads[reg.thread].call;
            c.id !in s.returned && c.token == Some(k) && c.registration == Some(id) && c.pipe == reg.pipe
    ensures u < |s.threads| && s.threads[u] == InCallback(k, id, reg) ==> !s.threads[reg.thread].LeavingHeld?
  {
    ReachableOk(s);
    RunningIsRegistered(s, u, k, id, reg);
    assert TokenOk(s, k);
    assert IdsApart(s) by { hide Sync; }
    hide Sync, Data, ThreadOk;
  }

  lemma RunningIsRegistered(s: System, u: ThreadId, k: TokenId, id: nat, reg: Registration)
    requires Sync(s)
    requires (k < |s.tokens| && id in s.tokens[k].callbacks && s.tokens[k].callbacks[id] == reg)
             || (u < |s.threads| && s.threads[u] == InCallback(k, id, reg))
    ensures k < |s.tokens| && id in s.tokens[k].callbacks && s.tokens[k].callbacks[id] == reg
    ensures reg.thread < |s.threads|
    ensures u < |s.threads| && s.threads[u] == InCallback(k, id, reg) ==> !s.threads[reg.thread].LeavingHeld?
  {
    if u < |s.threads| && s.threads[u] == InCallback(k, id, reg) {
      RunningHoldsToken(s, u, k, id, reg);
      assert ThreadOk(s, u);
    } else {
      assert TokenOk(s, k);
    }
    hide Sync;
  }

  /** While a callback runs, the call it belongs to cannot be inside ~StopCallback's critical section. */
  lemma RunningHoldsToken(s: System, u: ThreadId, k: TokenId, id: nat, reg: Registration)
    requires Sync(s) && u < |s.threads| && s.threads[u] == InCallback(k, id, reg)
    ensures reg.thread < |s.threads| && !s.threads[reg.thread].LeavingHeld?
  {
    CallbackFinds(s, u, k, id, reg);
    CallbackCallOf(s, u, k, id, reg);
    assert TokenLocks(s);
    hide ThreadOk, TokenOk, Sync;
    assert TokenHeld(s.threads[u]) == Some(k);
  }

  lemma CallbackCallOf(s: System, u: ThreadId, k: TokenId, id: nat, reg: Registration)
    requires CallbackAt(s, u, k, id, reg) && TokenOk(s, k) && ThreadOk(s, u)
    ensures s.threads[reg.thread].call.token == Some(k)
  {
  }

  // ---- Bytes ----------------------------------------------------------------------------------

  /** The pipe is a queue: what was delivered, then what is buffered, is what was committed, in order. */
  lemma FirstInFirstOut(s: System, p: PipeId)
    requires Reachable(s) && p < |s.pipes|
    ensures |s.pipes[p].pipe.contents| <= s.pipes[p].pipe.capacity
    ensures Bytes(s.pipes[p].delivered) <= Bytes(s.pipes[p].committed)
    ensures s.pipes[p].pipe.readEndOpen ==>
              Bytes(s.pipes[p].delivered) + s.pipes[p].pipe.contents == Bytes(s.pipes[p].committed)
  {
    ReachableOk(s);
    assert PipeLogOk(s, p);
  }

  /** A positive result of a write counts the prefix that was committed; a negative one means none was, and why. */
  lemma WriteResultCountsCommitted(s: System, id: CallId)
    requires Reachable(s) && id in s.returned && s.returned[id].call.op.WriteOp?
    ensures var (c, r) := (s.returned[id].call, s.returned[id].result);
            && c.pipe < |s.pipes|
            && r <= |c.op.data|
            && Flatten(SegmentsOf(s.pipes[c.pipe].committed, id)) == (if r > 0 then c.op.data[..r] else [])
            && (r == 0 <==> c.op.data == [])
            && (r < 0 ==> (r == -2 && !s.pipes[c.pipe].pipe.readEndOpen) || (r == -3 && StopSeen(s, c)))
            && (0 < r < |c.op.data| ==> !s.pipes[c.pipe].pipe.readEndOpen || StopSeen(s, c))
  {
    ReachableOk(s);
    assert ProgressOk(s, ProgressOfReturned(s.returned[id]));
    hide SegmentsOf, Flatten;
  }

  /** A write of at most min(4096, capacity) bytes is one contiguous run of the stream, or nothing of it. */
  lemma SmallWritesAreAtomic(s: System, id: CallId)
    requires Reachable(s) && id in s.returned && s.returned[id].call.op.WriteOp?
    requires s.returned[id].call.pipe < |s.pipes| && s.returned[id].call.op.data != []
    requires |s.returned[id].call.op.data| <= 4096
    requires |s.returned[id].call.op.data| <= s.pipes[s.returned[id].call.pipe].pipe.capacity
    ensures var (c, r) := (s.returned[id].call, s.returned[id].result);
            SegmentsOf(s.pipes[c.pipe].committed, id) == (if r < 0 then [] else [c.op.data])
            && (r < 0 || r == |c.op.data|)
  {
    ReachableOk(s);
    assert ProgressOk(s, ProgressOfReturned(s.returned[id]));
    hide SegmentsOf, Flatten;
  }

  /** A read hands out one run of at most `count` bytes, as long as its result; 0 means the write end is gone. */
  lemma ReadResultCountsDelivered(s: System, id: CallId)
    requires Reachable(s) && id in s.returned && s.returned[id].call.op.ReadOp?
    ensures var (c, r) := (s.returned[id].call, s.returned[id].result);
            && c.pipe < |s.pipes| && r <= c.op.count
            && (var runs := SegmentsOf(s.pipes[c.pipe].delivered, id);
                if r > 0 then |runs| == 1 && |runs[0]| == r else runs == [])
            && (r < 0 ==> r == -3 && StopSeen(s, c))
            && (r == 0 && c.op.count > 0 ==> !s.pipes[c.pipe].pipe.writeEndOpen)
  {
    ReachableOk(s);
    assert ProgressOk(s, ProgressOfReturned(s.returned[id]));
    hide SegmentsOf, Flatten;
  }

  /** A turn of Read that ends in 0 comes after the last byte: all that was committed has been delivered. */
  lemma EndOfFileIsTheEnd(s: System, t: ThreadId, c: Call)
    requires Reachable(s) && CanGo(s, t) && s.threads[t] == Turning(c) && c.op.ReadOp?
    requires Step(s, t).threads[t] == Leaving(c, 0)
    ensures !s.pipes[c.pipe].pipe.writeEndOpen
    ensures s.pipes[c.pipe].pipe.readEndOpen ==> Bytes(s.pipes[c.pipe].delivered) == Bytes(s.pipes[c.pipe].committed)
  {
    ReachableOk(s);
    assert PipeLogOk(s, c.pipe) && ThreadOk(s, t);
    hide Bytes;
  }
}
