/** An end of a pipe is open exactly as long as somebody holds it, and what that means for end of file and broken pipes. */
module PipeEnds {
  import opened Basics
  import opened PipeBuffers
  import opened StopTokens
  import opened PipeSystem
  import opened PipeData
  import opened PipeTheorems
  import opened Descriptors
  import opened Holders

  predicate EndOpen(s: System, p: PipeId, e: End)
    requires p < |s.pipes|
  {
    if e.ReadEnd? then s.pipes[p].pipe.readEndOpen else s.pipes[p].pipe.writeEndOpen
  }

  /** What a thread is doing to an end. */
  datatype Role = NoRole | Uses(pipe: PipeId, end: End) | Closes(pipe: PipeId, end: End)

  function RoleOf(th: Thread): Role
  {
    if th.HasCall() then Uses(th.call.pipe, EndOf(th.call.op))
    else if th.Closing? || th.ClosingHeld? then Closes(th.pipe, th.end)
    else NoRole
  }

  // ---- What a step of the protocol does to ends and roles -------------------------------------------

  /** An end closes only in its destructor's critical section. */
  ghost predicate EndsFollow(s: System, s': System, t: ThreadId)
    requires t < |s.threads|
  {
    && |s'.pipes| == |s.pipes| && |s'.threads| == |s.threads|
    && forall p, e :: 0 <= p < |s.pipes| ==>
         (EndOpen(s', p, e) <==> EndOpen(s, p, e) && s.threads[t] != ClosingHeld(p, e))
  }

  /** A step changes no other thread's role, and its own only to end it. */
  ghost predicate RolesFollow(s: System, s': System, t: ThreadId)
    requires t < |s.threads| && |s'.threads| == |s.threads|
  {
    && (forall u :: 0 <= u < |s.threads| && u != t ==> RoleOf(s'.threads[u]) == RoleOf(s.threads[u]))
    && (RoleOf(s'.threads[t]) == RoleOf(s.threads[t])
        || (RoleOf(s'.threads[t]) == NoRole && (s.threads[t].ClosingHeld? || RoleOf(s.threads[t]).Uses?)))
    && (s.threads[t].ClosingHeld? ==> RoleOf(s'.threads[t]) == NoRole)
  }

  ghost predicate Frames(s: System, s': System, t: ThreadId)
  {
    t < |s.threads| && EndsFollow(s, s', t) && RolesFollow(s, s', t)
  }

  lemma FramesTurn(s: System, t: ThreadId)
    requires CanGo(s, t) && s.threads[t].Turning?
    ensures Frames(s, Step(s, t), t)
  {
    if s.threads[t].call.op.ReadOp? {
      FramesRead(s, t, s.threads[t].call);
    } else {
      FramesWrite(s, t, s.threads[t].call);
    }
    hide Frames, ReadTurn, WriteTurn;
  }

  lemma FramesRead(s: System, t: ThreadId, c: Call)
    requires CanGo(s, t) && s.threads[t] == Turning(c) && c.op.ReadOp?
    ensures Frames(s, ReadTurn(s, t, c), t)
  {
  }

  lemma FramesWrite(s: System, t: ThreadId, c: Call)
    requires CanGo(s, t) && s.threads[t] == Turning(c) && c.op.WriteOp?
    ensures Frames(s, WriteTurn(s, t, c), t)
  {
  }

  lemma FramesMutex(s: System, t: ThreadId)
    requires CanGo(s, t)
    requires s.threads[t].SelfWaking? || s.threads[t].Entering? || s.threads[t].Closing? || s.threads[t].AboutToWait?
             || s.threads[t].Registering? || s.threads[t].Stopping?
    ensures Frames(s, Step(s, t), t)
  {
  }

  lemma FramesLeaving(s: System, t: ThreadId)
    requires CanGo(s, t) && (s.threads[t].Leaving? || s.threads[t].LeavingHeld?)
    ensures Frames(s, Step(s, t), t)
  {
  }

  lemma FramesToken(s: System, t: ThreadId)
    requires CanGo(s, t)
    requires s.threads[t].RegisteringHeld? || s.threads[t].StoppingHeld? || s.threads[t].Calling?
    ensures Frames(s, Step(s, t), t)
  {
  }

  lemma FramesClose(s: System, t: ThreadId)
    requires CanGo(s, t) && s.threads[t].ClosingHeld?
    ensures Frames(s, Step(s, t), t)
  {
  }

  lemma FramesSelfWake(s: System, t: ThreadId)
    requires CanGo(s, t) && s.threads[t].SelfWakingHeld?
    ensures Frames(s, Step(s, t), t)
  {
  }

  lemma FramesCallback(s: System, t: ThreadId)
    requires CanGo(s, t) && s.threads[t].InCallback?
    ensures Frames(s, Step(s, t), t)
  {
  }

  lemma StepFrames(s: System, t: ThreadId)
    requires CanGo(s, t)
    ensures Frames(s, Step(s, t), t)
  {
    assert !s.threads[t].Idle? && !s.threads[t].Parked?;
    hide Step, Frames, CanGo;
    match s.threads[t]
    case Turning(_) => FramesTurn(s, t);
    case SelfWakingHeld(_) => FramesSelfWake(s, t);
    case InCallback(_, _, _) => FramesCallback(s, t);
    case ClosingHeld(_, _) => FramesClose(s, t);
    case RegisteringHeld(_) => FramesToken(s, t);
    case StoppingHeld(_) => FramesToken(s, t);
    case Calling(_) => FramesToken(s, t);
    case Leaving(_, _) => FramesLeaving(s, t);
    case LeavingHeld(_, _) => FramesLeaving(s, t);
    case _ => FramesMutex(s, t);
  }

  // ---- The invariant --------------------------------------------------------------------------------

  predicate IsCloser(s: System, t: ThreadId, p: PipeId, e: End)
  {
    t < |s.threads| && RoleOf(s.threads[t]) == Closes(p, e)
  }

  /** A held end is open and not being closed; an open one nobody holds any more is being closed, by one thread. */
  ghost predicate EndOk(w: World, p: PipeId, e: End)
    requires p < |w.sys.pipes|
  {
    && (w.uses[PipeEnd(p, e)] > 0 ==> p < w.made && EndOpen(w.sys, p, e) && forall t :: !IsCloser(w.sys, t, p, e))
    && (forall t :: IsCloser(w.sys, t, p, e) ==> p < w.made && EndOpen(w.sys, p, e))
    && (forall t, u :: IsCloser(w.sys, t, p, e) && IsCloser(w.sys, u, p, e) ==> t == u)
    && (w.uses[PipeEnd(p, e)] == 0 && p < w.made && EndOpen(w.sys, p, e) ==> exists t :: IsCloser(w.sys, t, p, e))
    && (p >= w.made ==> EndOpen(w.sys, p, e))
  }

  /** A thread inside Read or Write holds the end it uses. */
  ghost predicate UserOk(w: World, t: ThreadId)
    requires |w.hands| == |w.sys.threads| && t < |w.hands|
  {
    var role := RoleOf(w.sys.threads[t]);
    role.Uses? ==> PipeEnd(role.pipe, role.end) in w.hands[t]
  }

  ghost predicate Ends(w: World)
  {
    && Conserved(w) && w.made <= |w.sys.pipes|
    && (forall p, e :: 0 <= p < |w.sys.pipes| ==> EndOk(w, p, e))
    && (forall t :: 0 <= t < |w.hands| ==> UserOk(w, t))
    && (forall p, e :: p >= |w.sys.pipes| ==> w.uses[PipeEnd(p, e)] == 0)
  }

  /** For one end nothing that matters has changed. */
  ghost predicate SameEnd(w: World, w': World, p: PipeId, e: End)
  {
    && p < |w.sys.pipes| == |w'.sys.pipes|
    && (EndOpen(w'.sys, p, e) <==> EndOpen(w.sys, p, e))
    && (forall t :: IsCloser(w'.sys, t, p, e) <==> IsCloser(w.sys, t, p, e))
    && (w'.uses[PipeEnd(p, e)] > 0 <==> w.uses[PipeEnd(p, e)] > 0)
    && (p < w'.made <==> p < w.made)
  }

  lemma KeepEnd(w: World, w': World, p: PipeId, e: End)
    requires SameEnd(w, w', p, e) && EndOk(w, p, e)
    ensures EndOk(w', p, e)
  {
    hide EndOpen, IsCloser;
    if w'.uses[PipeEnd(p, e)] == 0 && p < w'.made && EndOpen(w'.sys, p, e) {
      var t :| IsCloser(w.sys, t, p, e);
      assert IsCloser(w'.sys, t, p, e);
    }
  }

  /** A step of the protocol leaves an end as it is or, having nobody holding it, closed. */
  lemma StepKeepsEnd(w: World, w': World, t: ThreadId, p: PipeId, e: End)
    requires p < |w.sys.pipes| && EndOk(w, p, e) && Frames(w.sys, w'.sys, t)
    requires w'.uses == w.uses && w'.made == w.made
    ensures EndOk(w', p, e)
  {
    if w.sys.threads[t] == ClosingHeld(p, e) {
      assert IsCloser(w.sys, t, p, e);
      forall u: ThreadId
        ensures !IsCloser(w'.sys, u, p, e)
      {
        if u < |w.sys.threads| && u != t {
          assert !IsCloser(w.sys, u, p, e);
        }
      }
    } else {
      KeepEnd(w, w', p, e) by { SameCloser(w, w', t, p, e); }
    }
  }

  lemma SameCloser(w: World, w': World, t: ThreadId, p: PipeId, e: End)
    requires p < |w.sys.pipes| && Frames(w.sys, w'.sys, t) && w.sys.threads[t] != ClosingHeld(p, e)
    requires w'.uses == w.uses && w'.made == w.made
    ensures SameEnd(w, w', p, e)
  {
    assert EndOpen(w'.sys, p, e) <==> EndOpen(w.sys, p, e);
    assert IsCloser(w'.sys, t, p, e) <==> IsCloser(w.sys, t, p, e);
    hide EndOpen;
  }

  lemma ProtocolKeepsEnds(w: World, w': World, t: ThreadId)
    requires Ends(w) && Frames(w.sys, w'.sys, t) && w' == w.(sys := w'.sys)
    ensures Ends(w')
  {
    forall p, e | 0 <= p < |w'.sys.pipes|
      ensures EndOk(w', p, e)
    {
      assert EndOk(w, p, e);
      hide Ends, EndOk;
      StepKeepsEnd(w, w', t, p, e);
    }
    forall u | 0 <= u < |w'.hands|
      ensures UserOk(w', u)
    {
      assert UserOk(w, u);
    }
    hide Frames, EndOk, UserOk;
  }

  /** Steps of the protocol other than Go that World allows change no role and no end. */
  lemma OtherProtocolFrames(s: System, a: Action)
    requires Enabled(s, a) && !a.Go? && (a.Begin? ==> a.request.RequestStop?)
    ensures Frames(s, Apply(s, a), a.thread)
  {
  }

  /** A call starts: only its thread's role changes, and the thread holds the end. */
  lemma CallKeepsEnds(w: World, t: ThreadId, p: PipeId, op: Operation, k: Option<TokenId>)
    requires Ends(w) && CanMove(w, Enter(t, p, op, k))
    ensures Ends(Moved(w, Enter(t, p, op, k)))
  {
    var w' := Moved(w, Enter(t, p, op, k));
    forall q, e | 0 <= q < |w'.sys.pipes|
      ensures EndOk(w', q, e)
    {
      assert EndOk(w, q, e);
      assert SameEnd(w, w', q, e);
      hide Ends, EndOk, SameEnd;
      KeepEnd(w, w', q, e);
    }
    forall u | 0 <= u < |w'.hands|
      ensures UserOk(w', u)
    {
      assert UserOk(w, u);
    }
    hide EndOk, UserOk;
  }

  /** Whoever finds a reference in a slot or in hand may copy it: the file is in use. */
  lemma HeldIsUsed(w: World, f: File)
    requires Conserved(w)
    ensures (exists q :: 0 <= q < |w.tables| && Held(w.tables[q], f) > 0) ==> w.uses[f] > 0
    ensures (exists t :: 0 <= t < |w.hands| && w.hands[t][f] > 0) ==> w.uses[f] > 0
  {
    UsesAre(w, f);
    hide Conserved, Held, InTables, InHands;
    if q :| 0 <= q < |w.tables| && Held(w.tables[q], f) > 0 {
      InTablesChanges(w.tables, q, w.tables[q], f);
    }
    if t :| 0 <= t < |w.hands| && w.hands[t][f] > 0 {
      InHandsChanges(w.hands, t, w.hands[t], f);
    }
  }

  /** References were only added: to files in use, or, when a pipe is made, to its two ends. */
  ghost predicate Adds(w: World, w': World)
    requires |w.hands| == |w.sys.threads|
  {
    && w'.sys == w.sys && |w'.hands| == |w.hands|
    && (forall f :: w'.uses[f] >= w.uses[f])
    && ((w'.made == w.made && forall f :: w'.uses[f] > 0 ==> w.uses[f] > 0)
        || (w'.made == w.made + 1 <= |w.sys.pipes| && MakesPipe(w, w')))
    && (forall t :: 0 <= t < |w.hands| && !w.sys.threads[t].Idle? ==> w.hands[t] <= w'.hands[t])
  }

  ghost predicate MakesPipe(w: World, w': World)
  {
    && (forall f :: w'.uses[f] > 0 ==> w.uses[f] > 0 || (f.PipeEnd? && f.pipe == w.made))
    && (forall e :: w'.uses[PipeEnd(w.made, e)] > 0)
  }

  lemma AddingKeepsEnds(w: World, w': World)
    requires Ends(w) && Conserved(w') && Adds(w, w')
    ensures Ends(w')
  {
    forall p, e | 0 <= p < |w'.sys.pipes|
      ensures EndOk(w', p, e)
    {
      assert EndOk(w, p, e);
      hide Ends, Conserved;
      if w'.made == w.made || p != w.made {
        hide EndOk;
        KeepEnd(w, w', p, e);
      }
    }
    forall u | 0 <= u < |w'.hands|
      ensures UserOk(w', u)
    {
      assert UserOk(w, u);
    }
    hide EndOk, UserOk, Conserved;
  }

  lemma CopyAdds(w: World, t: ThreadId, f: File)
    requires Ends(w) && t < |w.hands| && w.uses[f] > 0
    ensures Adds(w, Copied(w, t, f))
  {
    hide Ends, IsCloser;
  }

  lemma TableChangeAdds(w: World, t: ThreadId, q: ProcessId, op: TableOp)
    requires Ends(w) && CanMove(w, OnTable(t, q, op))
    ensures Adds(w, TableChanged(w, t, q, op))
  {
    var w' := TableChanged(w, t, q, op);
    var copies := MadeBy(op, w.tables[q], w.made);
    assert Conserved(w);
    assert op.PipeOp? ==> copies == multiset{PipeEnd(w.made, ReadEnd), PipeEnd(w.made, WriteEnd)};
    forall f | copies[f] > 0
      ensures w.uses[f] > 0 || (op.PipeOp? && f.PipeEnd? && f.pipe == w.made)
    {
      hide Ends, ChangeOf, MadeBy, TableChanged, Conserved;
      CopiesAreHeld(op, w.tables[q], w.made, f);
      HeldIsUsed(w, f);
    }
    hide ChangeOf, MadeBy, EndOk, UserOk;
    CopiesAdd(w, w', t, copies, op.PipeOp?);
  }

  lemma CopiesAdd(w: World, w': World, t: ThreadId, copies: multiset<File>, pipe: bool)
    requires |w.hands| == |w.sys.threads| && IsIdle(w, t)
    requires w'.sys == w.sys && w'.uses == w.uses + copies && |w'.hands| == |w.hands|
    requires forall u :: 0 <= u < |w.hands| && u != t ==> w'.hands[u] == w.hands[u]
    requires w'.made == (if pipe then w.made + 1 else w.made) <= |w.sys.pipes|
    requires forall f :: copies[f] > 0 ==> w.uses[f] > 0 || (pipe && f.PipeEnd? && f.pipe == w.made)
    requires pipe ==> copies == multiset{PipeEnd(w.made, ReadEnd), PipeEnd(w.made, WriteEnd)}
    ensures Adds(w, w')
  {
    assert forall f :: w'.uses[f] == w.uses[f] + copies[f];
    if pipe {
      PipeIsMade(w, w');
    }
  }

  lemma PipeIsMade(w: World, w': World)
    requires w'.uses == w.uses + multiset{PipeEnd(w.made, ReadEnd), PipeEnd(w.made, WriteEnd)}
    ensures MakesPipe(w, w')
  {
    forall e
      ensures w'.uses[PipeEnd(w.made, e)] > 0
    {
      assert e == ReadEnd || e == WriteEnd;
    }
  }

  /** A table operation copies only what a slot refers to, or makes a pipe. */
  lemma CopiesAreHeld(op: TableOp, table: Table, made: PipeId, f: File)
    ensures MadeBy(op, table, made)[f] > 0 ==> Held(table, f) > 0 || (op.PipeOp? && f.PipeEnd? && f.pipe == made)
  {
    hide Dupped2;
    assert forall fd :: IsOpen(table, fd) ==> table[fd] in multiset(table);
    Dupped2IsOpen(op, table);
  }

  lemma Dupped2IsOpen(op: TableOp, table: Table)
    ensures op.Dup2Op? && Dupped2(table, op.oldFd, op.newFd).result >= 0 ==> IsOpen(table, op.oldFd)
  {
  }

  lemma DropKeepsEnd(w: World, t: ThreadId, f: File, p: PipeId, e: End)
    requires CanMove(w, Drop(t, f)) && w.uses[f] > 0 && p < |w.sys.pipes| && EndOk(w, p, e)
    ensures p < |Dropped(w, t, f).sys.pipes| && EndOk(Dropped(w, t, f), p, e)
  {
    hide EndOk;
    if PipeEnd(p, e) == f && w.uses[f] == 1 {
      LastDropCloses(w, t, p, e);
    } else {
      hide SameEnd;
      DropKeepsOthers(w, t, f, p, e);
      KeepEnd(w, Dropped(w, t, f), p, e);
    }
  }

  lemma DropKeepsUser(w: World, t: ThreadId, f: File, u: ThreadId)
    requires CanMove(w, Drop(t, f)) && |w.hands| == |w.sys.threads| && u < |w.hands| && UserOk(w, u)
    ensures UserOk(Dropped(w, t, f), u)
  {
  }

  /** A reference dropped: when it was the last, its thread is the one that closes the end. */
  lemma DropKeepsEnds(w: World, t: ThreadId, f: File)
    requires Ends(w) && CanMove(w, Drop(t, f)) && Conserved(Dropped(w, t, f))
    ensures Ends(Dropped(w, t, f))
  {
    var w' := Dropped(w, t, f);
    HeldIsUsed(w, f);
    assert |w'.sys.pipes| == |w.sys.pipes| && w'.made == w.made && |w'.hands| == |w.hands|;
    forall p, e | 0 <= p < |w'.sys.pipes|
      ensures EndOk(w', p, e)
    {
      assert EndOk(w, p, e);
      hide Ends, Conserved, EndOk, Dropped, CanMove;
      DropKeepsEnd(w, t, f, p, e);
    }
    forall u | 0 <= u < |w'.hands|
      ensures UserOk(w', u)
    {
      assert UserOk(w, u) && |w.hands| == |w.sys.threads|;
      hide Ends, Conserved, Dropped, CanMove;
      DropKeepsUser(w, t, f, u);
    }
    hide EndOk, UserOk, Conserved;
  }

  lemma DropKeepsOthers(w: World, t: ThreadId, f: File, p: PipeId, e: End)
    requires CanMove(w, Drop(t, f)) && p < |w.sys.pipes| && w.uses[f] > 0 && !(PipeEnd(p, e) == f && w.uses[f] == 1)
    ensures SameEnd(w, Dropped(w, t, f), p, e)
  {
    var w' := Dropped(w, t, f);
    assert forall u: ThreadId :: IsCloser(w'.sys, u, p, e) <==> IsCloser(w.sys, u, p, e);
    hide IsCloser;
  }

  lemma LastDropCloses(w: World, t: ThreadId, p: PipeId, e: End)
    requires CanMove(w, Drop(t, PipeEnd(p, e))) && EndOk(w, p, e) && w.uses[PipeEnd(p, e)] == 1
    ensures EndOk(Dropped(w, t, PipeEnd(p, e)), p, e)
  {
    var w' := Dropped(w, t, PipeEnd(p, e));
    assert IsCloser(w'.sys, t, p, e);
    forall u: ThreadId
      ensures IsCloser(w'.sys, u, p, e) ==> u == t
    {
      assert !IsCloser(w.sys, u, p, e);
    }
  }

  // ---- Every run --------------------------------------------------------------------------------------

  lemma EndsAtOutset(w: World)
    requires Outset(w)
    ensures Ends(w)
  {
    hide InTables, InHands;
  }

  lemma MoveKeepsThreads(w: World, m: Move)
    requires CanMove(w, m)
    ensures |Moved(w, m).sys.threads| == |w.sys.threads|
  {
    match m
    case Protocol(Go(t)) => StepFrames(w.sys, t); hide Step;
    case Protocol(a) => OtherProtocolFrames(w.sys, a); hide Apply;
    case _ =>
  }

  lemma MoveKeepsEnds(w: World, m: Move)
    requires Ends(w) && CanMove(w, m)
    ensures Ends(Moved(w, m))
  {
    var w' := Moved(w, m);
    MoveKeepsThreads(w, m);
    MoveConserves(w, m);
    assert |w.hands| == |w.sys.threads|;
    match m
    case Protocol(Go(t)) =>
      StepFrames(w.sys, t);
      hide Ends, Frames, Conserved, Step;
      ProtocolKeepsEnds(w, w', t);
    case Protocol(a) =>
      OtherProtocolFrames(w.sys, a);
      hide Ends, Frames, Conserved, Apply;
      ProtocolKeepsEnds(w, w', a.thread);
    case Enter(t, p, op, k) => hide Ends, Conserved; CallKeepsEnds(w, t, p, op, k);
    case Drop(t, f) => hide Ends, Conserved, Dropped; DropKeepsEnds(w, t, f);
    case _ => GrowthKeepsEnds(w, m);
  }

  lemma GrowthKeepsEnds(w: World, m: Move)
    requires Ends(w) && CanMove(w, m) && (m.Fetch? || m.Share? || m.OnTable?) && Conserved(Moved(w, m))
    ensures Ends(Moved(w, m))
  {
    var w' := Moved(w, m);
    assert |w.hands| == |w.sys.threads| && Conserved(w);
    hide Ends, Conserved, Copied, TableChanged, Held;
    match m
    case Fetch(t, q, fd) =>
      if IsOpen(w.tables[q], fd) {
        var f := w.tables[q][fd].value;
        SlotHolds(w.tables[q], fd);
        HeldIsUsed(w, f);
        CopyAdds(w, t, f);
        AddingKeepsEnds(w, w');
      }
    case Share(t, u, f) =>
      HeldIsUsed(w, f);
      CopyAdds(w, u, f);
      AddingKeepsEnds(w, w');
    case OnTable(t, q, op) =>
      TableChangeAdds(w, t, q, op);
      AddingKeepsEnds(w, w');
  }

  lemma SlotHolds(table: Table, fd: nat)
    requires IsOpen(table, fd)
    ensures Held(table, table[fd].value) > 0
  {
    assert table[fd] in multiset(table);
  }

  /** A run of the world is a run of the pipe protocol, and keeps the ends right. */
  lemma {:induction false} ReachedOk(w: World, n: nat)
    requires ReachedIn(w, n)
    ensures Ends(w) && Reachable(w.sys)
    decreases n
  {
    hide Ends, CanMove, Moved, Outset, Reachable;
    if n == 0 {
      EndsAtOutset(w);
      OutsetIsInitial(w);
    } else {
      var w0, m :| ReachedIn(w0, n - 1) && CanMove(w0, m) && w == Moved(w0, m);
      ReachedOk(w0, n - 1);
      MoveKeepsEnds(w0, m);
      MoveIsProtocol(w0, m);
    }
  }

  lemma OutsetIsInitial(w: World)
    requires Outset(w)
    ensures Reachable(w.sys)
  {
    assert ReachableIn(w.sys, 0);
  }

  lemma ReachesOn(s: System, a: Action)
    requires Reachable(s) && Enabled(s, a)
    ensures Reachable(Apply(s, a))
  {
    var n: nat :| ReachableIn(s, n);
    hide Enabled, Apply;
    assert ReachableIn(Apply(s, a), n + 1);
  }

  /** Every move is a step of the pipe protocol, or none. */
  lemma MoveIsProtocol(w: World, m: Move)
    requires CanMove(w, m) && Reachable(w.sys)
    ensures Reachable(Moved(w, m).sys)
  {
    hide Reachable, Start, Step;
    match m
    case Protocol(a) => ReachesOn(w.sys, a);
    case Enter(t, p, op, k) => ReachesOn(w.sys, Begin(t, Transfer(p, op, k)));
    case Drop(t, f) =>
      if f.PipeEnd? {
        ReachesOn(w.sys, Begin(t, CloseEnd(f.pipe, f.end)));
      }
    case _ =>
  }

  // ---- What follows -----------------------------------------------------------------------------------

  /** Use counts are exact in every reachable state: the references in all tables and all threads' hands. */
  lemma UseCountsAreHolders(w: World, f: File)
    requires Reached(w)
    ensures w.uses[f] == HolderCount(w, f)
  {
    var n: nat :| ReachedIn(w, n);
    ReachedOk(w, n);
    UsesAre(w, f);
  }

  lemma EndOkWhenReached(w: World, p: PipeId, e: End)
    requires Reached(w) && p < w.made
    ensures p < |w.sys.pipes| && EndOk(w, p, e) && w.uses[PipeEnd(p, e)] == HolderCount(w, PipeEnd(p, e))
  {
    var n: nat :| ReachedIn(w, n);
    ReachedOk(w, n);
    assert EndOk(w, p, e);
    UsesAre(w, PipeEnd(p, e));
  }

  /** A pipe's end is open exactly while some slot or thread holds it or the last to drop it is closing it. */
  lemma OpenWhileHeld(w: World, p: PipeId, e: End)
    requires Reached(w) && p < w.made
    ensures p < |w.sys.pipes|
    ensures EndOpen(w.sys, p, e) <==> HolderCount(w, PipeEnd(p, e)) > 0 || exists t :: IsCloser(w.sys, t, p, e)
    ensures !(HolderCount(w, PipeEnd(p, e)) > 0 && exists t :: IsCloser(w.sys, t, p, e))
  {
    EndOkWhenReached(w, p, e);
    hide EndOpen, IsCloser;
  }

  /** What nobody holds nobody can ever hold again. */
  lemma ReleasedForGood(w: World, m: Move, p: PipeId, e: End)
    requires Reached(w) && CanMove(w, m) && p < w.made && HolderCount(w, PipeEnd(p, e)) == 0
    ensures HolderCount(Moved(w, m), PipeEnd(p, e)) == 0 && p < Moved(w, m).made
  {
    var n: nat :| ReachedIn(w, n);
    ReachedOk(w, n);
    MoveKeepsEnds(w, m);
    UsesAre(w, PipeEnd(p, e));
    UsesAre(Moved(w, m), PipeEnd(p, e));
    NotHeldNotCopied(w, m, PipeEnd(p, e));
  }

  lemma NotHeldNotCopied(w: World, m: Move, f: File)
    requires Ends(w) && CanMove(w, m) && f.PipeEnd? && f.pipe < w.made && w.uses[f] == 0
    ensures Moved(w, m).uses[f] == 0 && f.pipe < Moved(w, m).made
  {
    HeldIsUsed(w, f);
    hide Ends, Conserved, Apply, Start;
    match m
    case Fetch(t, q, fd) =>
      if IsOpen(w.tables[q], fd) {
        SlotHolds(w.tables[q], fd);
      }
    case OnTable(t, q, op) => CopiesAreHeld(op, w.tables[q], w.made, f); hide MadeBy, ChangeOf;
    case _ =>
  }

  /**
   End of file. A Read of a positive count has returned 0 only when no slot of any process and no thread
   holds the pipe's write end any more.
   */
  lemma EndOfFileMeansNoWriter(w: World, id: CallId)
    requires Reached(w) && id in w.sys.returned && w.sys.returned[id].call.op.ReadOp?
    requires w.sys.returned[id].call.op.count > 0 && w.sys.returned[id].result == 0
    ensures HolderCount(w, PipeEnd(w.sys.returned[id].call.pipe, WriteEnd)) == 0
  {
    var n: nat :| ReachedIn(w, n);
    ReachedOk(w, n);
    var p := w.sys.returned[id].call.pipe;
    ReadResultCountsDelivered(w.sys, id);
    assert EndOk(w, p, WriteEnd);
    UsesAre(w, PipeEnd(p, WriteEnd));
  }

  /** Broken pipe. A Write has reported it only when nobody holds the read end any more. */
  lemma BrokenPipeMeansNoReader(w: World, id: CallId)
    requires Reached(w) && id in w.sys.returned && w.sys.returned[id].call.op.WriteOp?
    requires w.sys.returned[id].result == IO_BROKEN_PIPE
    ensures HolderCount(w, PipeEnd(w.sys.returned[id].call.pipe, ReadEnd)) == 0
  {
    var n: nat :| ReachedIn(w, n);
    ReachedOk(w, n);
    var p := w.sys.returned[id].call.pipe;
    WriteResultCountsCommitted(w.sys, id);
    assert EndOk(w, p, ReadEnd);
    UsesAre(w, PipeEnd(p, ReadEnd));
  }

  /** When a turn of Read ends in 0, every byte ever committed to the pipe has been delivered. */
  lemma EndOfFileComesLast(w: World, t: ThreadId, c: PipeSystem.Call)
    requires Reached(w) && CanGo(w.sys, t) && w.sys.threads[t] == Turning(c) && c.op.ReadOp?
    requires Step(w.sys, t).threads[t] == Leaving(c, 0)
    ensures HolderCount(w, PipeEnd(c.pipe, WriteEnd)) == 0
    ensures Bytes(w.sys.pipes[c.pipe].delivered) == Bytes(w.sys.pipes[c.pipe].committed)
  {
    var n: nat :| ReachedIn(w, n);
    ReachedOk(w, n);
    EndOfFileIsTheEnd(w.sys, t, c);
    assert EndOk(w, c.pipe, ReadEnd) && EndOk(w, c.pipe, WriteEnd) && UserOk(w, t);
    UsesAre(w, PipeEnd(c.pipe, WriteEnd));
    HeldIsUsed(w, PipeEnd(c.pipe, ReadEnd));
    hide Ends, Step, Bytes, CanGo;
  }

  /** A reader left parked means a writer may still come: somebody holds the write end, or is closing it. */
  lemma ParkedReaderHasWriter(w: World, t: ThreadId, c: PipeSystem.Call)
    requires Reached(w) && t < |w.sys.threads| && w.sys.threads[t] == Parked(c) && c.op.ReadOp? && c.pipe < w.made
    ensures HolderCount(w, PipeEnd(c.pipe, WriteEnd)) > 0 || exists u :: IsCloser(w.sys, u, c.pipe, WriteEnd)
  {
    var n: nat :| ReachedIn(w, n);
    ReachedOk(w, n);
    NoLostWakeUp(w.sys, t, c);
    OpenWhileHeld(w, c.pipe, WriteEnd);
    hide Reachable;
  }
}
