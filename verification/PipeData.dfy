/** What every step of the pipe protocol keeps about the bytes: first in, first out, and whole atomic writes. */
module PipeData {
  import opened Basics
  import opened PipeBuffers
  import opened StopTokens
  import opened PipeSystem
  import opened PipeSync

  /** All the bytes of a log, in order. */
  function Bytes(log: seq<Segment>): seq<byte>
  {
    if log == [] then [] else Bytes(log[..|log| - 1]) + log[|log| - 1].bytes
  }

  /** The segments of one call, in order. */
  function SegmentsOf(log: seq<Segment>, id: CallId): seq<seq<byte>>
  {
    if log == [] then []
    else SegmentsOf(log[..|log| - 1], id) + (if log[|log| - 1].call == id then [log[|log| - 1].bytes] else [])
  }

  lemma LogGrows(log: seq<Segment>, added: seq<Segment>, id: CallId)
    requires |added| <= 1
    ensures Bytes(log + added) == Bytes(log) + Bytes(added)
    ensures SegmentsOf(log + added, id) == SegmentsOf(log, id) + SegmentsOf(added, id)
  {
    if added == [] {
      assert log + added == log;
    } else {
      assert (log + added)[..|log|] == log;
    }
  }

  /** What a thread's state tells of its call, the wake-ups and registration apart. */
  datatype Progress = NoCall | InCall(id: CallId, pipe: PipeId, op: Operation, token: Option<TokenId>, written: nat, result: Option<int>)

  function ProgressOf(th: Thread): Progress
  {
    if th.HasCall() then
      InCall(th.call.id, th.call.pipe, th.call.op, th.call.token, th.call.written,
             if th.Leaving? || th.LeavingHeld? then Some(th.result) else None)
    else NoCall
  }

  function ProgressOfReturned(r: Returned): Progress
  {
    InCall(r.call.id, r.call.pipe, r.call.op, r.call.token, r.call.written, Some(r.result))
  }

  /** A write has committed exactly the first `written` bytes; an atomic one all in one segment, or none. */
  ghost predicate WriteLogOk(cell: PipeCell, g: Progress)
    requires g.InCall? && g.op.WriteOp?
  {
    var data := g.op.data;
    var segments := SegmentsOf(cell.committed, g.id);
    && g.written <= |data|
    && Flatten(segments) == data[..g.written]
    && (IsAtomic(cell.pipe.capacity, |data|) && data != [] ==>
          (g.written == 0 && segments == []) || (g.written == |data| && segments == [data]))
    && SegmentsOf(cell.delivered, g.id) == []
  }

  /** A write's result is the count committed, or negative when none was. */
  ghost predicate WriteResultOk(cell: PipeCell, g: Progress, stopped: bool)
    requires g.InCall? && g.op.WriteOp? && g.result.Some?
  {
    var r := g.result.value;
    && (if g.written > 0 then r == g.written
        else if g.op.data == [] then r == 0
        else r == IO_BROKEN_PIPE || r == IO_INTERRUPTED)
    && (0 < r < |g.op.data| ==> !cell.pipe.readEndOpen || stopped)
    && (r == IO_BROKEN_PIPE ==> !cell.pipe.readEndOpen)
    && (r == IO_INTERRUPTED ==> stopped)
  }

  /** A read hands out one segment when it ends and none before, as long as its result says. */
  ghost predicate ReadLogOk(cell: PipeCell, g: Progress, stopped: bool)
    requires g.InCall? && g.op.ReadOp?
  {
    var segments := SegmentsOf(cell.delivered, g.id);
    && SegmentsOf(cell.committed, g.id) == []
    && match g.result
       case None => segments == []
       case Some(r) =>
         && (if r > 0 then |segments| == 1 && |segments[0]| == r && r <= g.op.count else segments == [])
         && (r <= 0 ==> r == 0 || r == IO_INTERRUPTED)
         && (r == 0 && g.op.count > 0 ==> !cell.pipe.writeEndOpen)
         && (r == IO_INTERRUPTED ==> stopped)
  }

  predicate Stopped(s: System, g: Progress)
    requires g.InCall?
  {
    g.token.Some? && g.token.value < |s.tokens| && s.tokens[g.token.value].stopRequested
  }

  ghost predicate ProgressOk(s: System, g: Progress)
  {
    g.InCall? ==>
      && g.id < s.nextCall && g.pipe < |s.pipes|
      && (g.op.ReadOp? ==> ReadLogOk(s.pipes[g.pipe], g, Stopped(s, g)))
      && (g.op.WriteOp? ==>
            WriteLogOk(s.pipes[g.pipe], g) && (g.result.Some? ==> WriteResultOk(s.pipes[g.pipe], g, Stopped(s, g))))
  }

  /** What was delivered is the front of what was committed; what is buffered is the rest while anyone can read it. */
  ghost predicate CellLogOk(cell: PipeCell, nextCall: CallId)
  {
    && Bytes(cell.delivered) <= Bytes(cell.committed)
    && (cell.pipe.readEndOpen ==> Bytes(cell.delivered) + cell.pipe.contents == Bytes(cell.committed))
    && (forall i :: 0 <= i < |cell.committed| ==> cell.committed[i].call < nextCall)
    && (forall i :: 0 <= i < |cell.delivered| ==> cell.delivered[i].call < nextCall)
  }

  ghost predicate PipeLogOk(s: System, p: PipeId)
    requires p < |s.pipes|
  {
    CellLogOk(s.pipes[p], s.nextCall)
  }

  /** Calls under way have ids of their own. */
  ghost predicate IdsApart(s: System)
  {
    && (forall t, u :: 0 <= t < u < |s.threads| && s.threads[t].HasCall() && s.threads[u].HasCall() ==>
          s.threads[t].call.id != s.threads[u].call.id)
    && (forall t :: 0 <= t < |s.threads| && s.threads[t].HasCall() ==> s.threads[t].call.id !in s.returned)
  }

  ghost predicate Data(s: System)
  {
    && (forall p :: 0 <= p < |s.pipes| ==> PipeLogOk(s, p))
    && (forall t :: 0 <= t < |s.threads| ==> ProgressOk(s, ProgressOf(s.threads[t])))
    && (forall id :: id in s.returned ==> s.returned[id].call.id == id && ProgressOk(s, ProgressOfReturned(s.returned[id])))
    && IdsApart(s)
  }

  lemma DataInitially(s: System)
    requires Initial(s)
    ensures Data(s)
  {
  }

  /** Nothing is logged under an id no call has had yet. */
  lemma {:induction false} UnusedId(log: seq<Segment>, id: CallId)
    requires forall i :: 0 <= i < |log| ==> log[i].call < id
    ensures SegmentsOf(log, id) == []
  {
    if log != [] {
      UnusedId(log[..|log| - 1], id);
    }
  }

  /** A step that logs nothing: ends may close and stops be requested, but no byte moves. */
  ghost predicate Quiet(s: System, s': System)
  {
    && |s'.pipes| == |s.pipes| && |s'.tokens| == |s.tokens| && s.nextCall <= s'.nextCall
    && (forall p :: 0 <= p < |s.pipes| ==> QuietPipe(s.pipes[p], s'.pipes[p]))
    && (forall k :: 0 <= k < |s.tokens| && s.tokens[k].stopRequested ==> s'.tokens[k].stopRequested)
  }

  ghost predicate QuietPipe(cell: PipeCell, cell': PipeCell)
  {
    && cell'.committed == cell.committed && cell'.delivered == cell.delivered
    && cell'.pipe.capacity == cell.pipe.capacity
    && (cell'.pipe.readEndOpen ==> cell.pipe.readEndOpen && cell'.pipe.contents == cell.pipe.contents)
    && (cell'.pipe.writeEndOpen ==> cell.pipe.writeEndOpen)
  }

  /** A quiet step in which every call goes on as it was. */
  ghost predicate QuietlyOn(s: System, s': System)
  {
    && Quiet(s, s') && s'.returned == s.returned && |s'.threads| == |s.threads|
    && forall u :: 0 <= u < |s.threads| ==> ProgressOf(s'.threads[u]) == ProgressOf(s.threads[u])
  }

  lemma QuietKeepsProgress(s: System, s': System, g: Progress)
    requires Quiet(s, s') && ProgressOk(s, g)
    ensures ProgressOk(s', g)
  {
  }

  lemma DataQuietStep(s: System, s': System)
    requires Data(s) && QuietlyOn(s, s')
    ensures Data(s')
  {
    forall u | 0 <= u < |s'.threads|
      ensures ProgressOk(s', ProgressOf(s'.threads[u]))
    {
      QuietKeepsProgress(s, s', ProgressOf(s.threads[u]));
    }
    forall id | id in s'.returned
      ensures ProgressOk(s', ProgressOfReturned(s'.returned[id]))
    {
      QuietKeepsProgress(s, s', ProgressOfReturned(s.returned[id]));
    }
    forall t, u | 0 <= t < u < |s'.threads| && s'.threads[t].HasCall() && s'.threads[u].HasCall()
      ensures s'.threads[t].call.id != s'.threads[u].call.id
    {
      assert ProgressOf(s'.threads[t]) == ProgressOf(s.threads[t]) && ProgressOf(s'.threads[u]) == ProgressOf(s.threads[u]);
    }
    forall t | 0 <= t < |s'.threads| && s'.threads[t].HasCall()
      ensures s'.threads[t].call.id !in s'.returned
    {
      assert ProgressOf(s'.threads[t]) == ProgressOf(s.threads[t]);
    }
    KeepPipeLogs(s, s');
    hide ProgressOk, PipeLogOk;
  }

  lemma KeepPipeLogs(s: System, s': System)
    requires Quiet(s, s') && forall p :: 0 <= p < |s.pipes| ==> PipeLogOk(s, p)
    ensures forall p :: 0 <= p < |s'.pipes| ==> PipeLogOk(s', p)
  {
    forall p | 0 <= p < |s'.pipes|
      ensures PipeLogOk(s', p)
    {
      assert PipeLogOk(s, p) && QuietPipe(s.pipes[p], s'.pipes[p]);
    }
  }

  /** A call returns: what is known of it is kept with the results. */
  lemma DataReturns(s: System, s1: System, t: ThreadId, c: Call, r: int)
    requires Data(s) && t < |s.threads| && Quiet(s, s1) && s1.threads == s.threads && s1.returned == s.returned
    requires s.threads[t] == Leaving(c, r) || s.threads[t] == LeavingHeld(c, r)
    ensures Data(Return(s1, t, c, r))
  {
    var s' := Return(s1, t, c, r);
    assert ProgressOk(s, ProgressOf(s.threads[t]));
    forall u | 0 <= u < |s'.threads|
      ensures ProgressOk(s', ProgressOf(s'.threads[u]))
    {
      if u != t {
        QuietKeepsProgress(s, s', ProgressOf(s.threads[u]));
      }
    }
    forall id | id in s'.returned
      ensures s'.returned[id].call.id == id && ProgressOk(s', ProgressOfReturned(s'.returned[id]))
    {
      QuietKeepsProgress(s, s', if id == c.id then ProgressOf(s.threads[t]) else ProgressOfReturned(s.returned[id]));
    }
    KeepPipeLogs(s, s');
    hide ProgressOk, PipeLogOk;
  }

  /** A new call: nothing is logged under its id yet. */
  lemma FreshCall(s: System, s': System, g: Progress)
    requires Data(s) && Quiet(s, s') && s'.nextCall == s.nextCall + 1
    requires g.InCall? && g.id == s.nextCall && g.pipe < |s.pipes| && g.written == 0
    requires g.result == None || (g.result == Some(0) && IsEmpty(g.op))
    ensures ProgressOk(s', g)
  {
    assert PipeLogOk(s, g.pipe) && QuietPipe(s.pipes[g.pipe], s'.pipes[g.pipe]);
    UnusedId(s.pipes[g.pipe].committed, g.id);
    UnusedId(s.pipes[g.pipe].delivered, g.id);
  }

  lemma KeepOthers(s: System, s': System, t: ThreadId)
    requires Data(s) && Quiet(s, s') && |s'.threads| == |s.threads|
    requires forall u :: 0 <= u < |s.threads| && u != t ==> s'.threads[u] == s.threads[u]
    ensures forall u :: 0 <= u < |s'.threads| && u != t ==> ProgressOk(s', ProgressOf(s'.threads[u]))
    ensures forall u :: 0 <= u < |s'.threads| && u != t && s'.threads[u].HasCall() ==> s'.threads[u].call.id < s.nextCall
    ensures forall id :: id in s.returned ==> ProgressOk(s', ProgressOfReturned(s.returned[id])) && id < s.nextCall
  {
    forall u | 0 <= u < |s'.threads| && u != t
      ensures ProgressOk(s', ProgressOf(s'.threads[u]))
      ensures s'.threads[u].HasCall() ==> s'.threads[u].call.id < s.nextCall
    {
      assert ProgressOk(s, ProgressOf(s.threads[u]));
      QuietKeepsProgress(s, s', ProgressOf(s.threads[u]));
    }
    forall id | id in s.returned
      ensures ProgressOk(s', ProgressOfReturned(s.returned[id])) && id < s.nextCall
    {
      QuietKeepsProgress(s, s', ProgressOfReturned(s.returned[id]));
    }
  }

  lemma DataTransfers(s: System, t: ThreadId, p: PipeId, op: Operation, k: Option<TokenId>)
    requires Data(s) && CanBegin(s, t, Transfer(p, op, k)) && !IsEmpty(op)
    ensures Data(Start(s, t, Transfer(p, op, k)))
  {
    var s' := Start(s, t, Transfer(p, op, k));
    FreshCall(s, s', ProgressOf(s'.threads[t]));
    KeepOthers(s, s', t);
    KeepPipeLogs(s, s');
    hide ProgressOk, PipeLogOk, ProgressOf, Quiet, IsEmpty;
  }

  lemma DataEmptyTransfers(s: System, t: ThreadId, p: PipeId, op: Operation, k: Option<TokenId>)
    requires Data(s) && CanBegin(s, t, Transfer(p, op, k)) && IsEmpty(op)
    ensures Data(Start(s, t, Transfer(p, op, k)))
  {
    var s' := Start(s, t, Transfer(p, op, k));
    FreshCall(s, s', ProgressOfReturned(Returned(Call(s.nextCall, p, op, k, None, 0, 0), 0)));
    KeepOthers(s, s', t);
    KeepPipeLogs(s, s');
    hide ProgressOk, PipeLogOk, ProgressOf, Quiet, IsEmpty;
  }

  /** A step that moves bytes of call `c` on its pipe: the other calls are told nothing new. */
  ghost predicate Logs(s: System, s': System, t: ThreadId, c: Call, committed: seq<Segment>, delivered: seq<Segment>)
  {
    && t < |s.threads| == |s'.threads| && c.pipe < |s.pipes| == |s'.pipes|
    && s.threads[t] == Turning(c) && s'.tokens == s.tokens && s'.nextCall == s.nextCall && s'.returned == s.returned
    && (forall u :: 0 <= u < |s.threads| && u != t ==> ProgressOf(s'.threads[u]) == ProgressOf(s.threads[u]))
    && (forall p :: 0 <= p < |s.pipes| && p != c.pipe ==> s'.pipes[p] == s.pipes[p])
    && s'.pipes[c.pipe].committed == s.pipes[c.pipe].committed + committed
    && s'.pipes[c.pipe].delivered == s.pipes[c.pipe].delivered + delivered
    && s'.pipes[c.pipe].pipe == s.pipes[c.pipe].pipe.(contents := s'.pipes[c.pipe].pipe.contents)
    && |committed| + |delivered| <= 1
    && (forall i :: 0 <= i < |committed| ==> committed[i].call == c.id)
    && (forall i :: 0 <= i < |delivered| ==> delivered[i].call == c.id)
  }

  lemma LogsTellOthersNothing(s: System, s': System, t: ThreadId, c: Call, committed: seq<Segment>, delivered: seq<Segment>,
                              g: Progress)
    requires Logs(s, s', t, c, committed, delivered) && ProgressOk(s, g) && (g.InCall? ==> g.id != c.id)
    ensures ProgressOk(s', g)
  {
    if g.InCall? && g.pipe == c.pipe {
      LogGrows(s.pipes[c.pipe].committed, committed, g.id);
      LogGrows(s.pipes[c.pipe].delivered, delivered, g.id);
      assert SegmentsOf(committed, g.id) == [] && SegmentsOf(delivered, g.id) == [];
      assert SegmentsOf(s'.pipes[c.pipe].committed, g.id) == SegmentsOf(s.pipes[c.pipe].committed, g.id);
      assert SegmentsOf(s'.pipes[c.pipe].delivered, g.id) == SegmentsOf(s.pipes[c.pipe].delivered, g.id);
      hide SegmentsOf;
    }
  }

  lemma DataLogs(s: System, s': System, t: ThreadId, c: Call, committed: seq<Segment>, delivered: seq<Segment>)
    requires Data(s) && Logs(s, s', t, c, committed, delivered)
    requires s'.threads[t].HasCall() && s'.threads[t].call.id == c.id
    requires ProgressOk(s', ProgressOf(s'.threads[t])) && PipeLogOk(s', c.pipe)
    ensures Data(s')
  {
    forall u | 0 <= u < |s'.threads| && u != t
      ensures ProgressOk(s', ProgressOf(s'.threads[u]))
      ensures s'.threads[u].HasCall() == s.threads[u].HasCall()
      ensures s'.threads[u].HasCall() ==> s'.threads[u].call.id == s.threads[u].call.id
    {
      assert ProgressOf(s'.threads[u]) == ProgressOf(s.threads[u]);
      LogsTellOthersNothing(s, s', t, c, committed, delivered, ProgressOf(s.threads[u]));
    }
    forall id | id in s'.returned
      ensures ProgressOk(s', ProgressOfReturned(s'.returned[id]))
    {
      LogsTellOthersNothing(s, s', t, c, committed, delivered, ProgressOfReturned(s.returned[id]));
    }
    forall p | 0 <= p < |s'.pipes| && p != c.pipe
      ensures PipeLogOk(s', p)
    {
      assert PipeLogOk(s, p);
    }
    hide ProgressOk, PipeLogOk, ProgressOf;
  }

  /** The log of one segment, or of none for no bytes. */
  function LogOf(id: CallId, bytes: seq<byte>): (log: seq<Segment>)
    ensures |log| <= 1
    ensures Bytes(log) == bytes && SegmentsOf(log, id) == if bytes == [] then [] else [bytes]
  {
    if bytes == [] then [] else
    assert [Segment(id, bytes)][..0] == [];
    [Segment(id, bytes)]
  }

  lemma ReadMoves(s: System, t: ThreadId, c: Call, bytes: seq<byte>)
    requires t < |s.threads| && s.threads[t] == Turning(c) && c.pipe < |s.pipes| && c.op.ReadOp?
    requires bytes == ReadPass(s.pipes[c.pipe].pipe, c.op.count, StopSeen(s, c)).2
    ensures Logs(s, ReadTurn(s, t, c), t, c, [], LogOf(c.id, bytes))
  {
    hide Bytes, SegmentsOf;
    var cell, cell' := s.pipes[c.pipe], ReadTurn(s, t, c).pipes[c.pipe];
    assert cell'.committed == cell.committed + [];
    assert cell'.delivered == cell.delivered + LogOf(c.id, bytes);
  }

  lemma QueueTakes(committed: seq<byte>, delivered: seq<byte>, bytes: seq<byte>, rest: seq<byte>)
    requires delivered + (bytes + rest) == committed
    ensures (delivered + bytes) + rest == committed && delivered + bytes <= committed
  {
  }

  lemma CellTakes(cell: PipeCell, cell': PipeCell, id: CallId, bytes: seq<byte>, nextCall: CallId)
    requires CellLogOk(cell, nextCall) && id < nextCall && cell.pipe.Valid()
    requires cell'.committed == cell.committed && cell'.delivered == cell.delivered + LogOf(id, bytes)
    requires cell'.pipe.readEndOpen == cell.pipe.readEndOpen && cell.pipe.contents == bytes + cell'.pipe.contents
    ensures CellLogOk(cell', nextCall)
  {
    LogGrows(cell.delivered, LogOf(id, bytes), id);
    hide Bytes, SegmentsOf;
    if cell'.pipe.readEndOpen {
      QueueTakes(Bytes(cell.committed), Bytes(cell.delivered), bytes, cell'.pipe.contents);
    } else {
      assert bytes == [];
    }
  }

  lemma ReadKeepsPipeLog(s: System, t: ThreadId, c: Call)
    requires t < |s.threads| && c.pipe < |s.pipes| && c.op.ReadOp? && c.id < s.nextCall
    requires s.pipes[c.pipe].pipe.Valid() && PipeLogOk(s, c.pipe)
    ensures PipeLogOk(ReadTurn(s, t, c), c.pipe)
  {
    hide CellLogOk, Bytes, SegmentsOf;
    var bytes := ReadPass(s.pipes[c.pipe].pipe, c.op.count, StopSeen(s, c)).2;
    CellTakes(s.pipes[c.pipe], ReadTurn(s, t, c).pipes[c.pipe], c.id, bytes, s.nextCall);
  }

  /** What a turn of a read does to its pipe and its call, the waiters apart. */
  lemma ReadEffect(s: System, t: ThreadId, c: Call)
    requires t < |s.threads| && c.pipe < |s.pipes| && c.op.ReadOp?
    ensures var (p, turn, bytes) := ReadPass(s.pipes[c.pipe].pipe, c.op.count, StopSeen(s, c));
            var s' := ReadTurn(s, t, c);
            && s'.pipes[c.pipe].pipe == p && s'.pipes[c.pipe].committed == s.pipes[c.pipe].committed
            && s'.pipes[c.pipe].delivered == s.pipes[c.pipe].delivered + LogOf(c.id, bytes)
            && |s'.pipes| == |s.pipes| && s'.tokens == s.tokens && s'.nextCall == s.nextCall
            && |s'.threads| == |s.threads| && s'.threads[t] == AfterTurn(c, turn)
  {
    hide Bytes, SegmentsOf;
    assert s.pipes[c.pipe].delivered + [] == s.pipes[c.pipe].delivered;
  }

  /** What the end of a turn says of the bytes handed out. */
  ghost predicate EndFits(cell': PipeCell, count: nat, result: Option<int>, bytes: seq<byte>, stopped: bool)
  {
    match result
    case None => bytes == []
    case Some(r) =>
      && (if r > 0 then |bytes| == r && r <= count else bytes == [])
      && (r <= 0 ==> (r == 0 && !cell'.pipe.writeEndOpen) || (r == IO_INTERRUPTED && stopped))
  }

  lemma ReadLogCarriesOn(cell: PipeCell, cell': PipeCell, g: Progress, result: Option<int>, bytes: seq<byte>, stopped: bool)
    requires g.InCall? && g.op.ReadOp? && g.result == None && ReadLogOk(cell, g, stopped)
    requires cell'.committed == cell.committed && cell'.delivered == cell.delivered + LogOf(g.id, bytes)
    requires EndFits(cell', g.op.count, result, bytes, stopped)
    ensures ReadLogOk(cell', g.(result := result), stopped)
  {
    LogGrows(cell.delivered, LogOf(g.id, bytes), g.id);
    hide Bytes, SegmentsOf;
  }

  /** How a read's state goes on: at the same call, ended or not as the bytes handed out say. */
  lemma ReadEnds(s: System, t: ThreadId, c: Call)
    requires t < |s.threads| && c.pipe < |s.pipes| && c.op.ReadOp? && c.op.count > 0 && s.threads[t] == Turning(c)
    ensures var (s', g) := (ReadTurn(s, t, c), ProgressOf(s.threads[t]));
            var g' := ProgressOf(s'.threads[t]);
            && g.InCall? && g.id == c.id && g.pipe == c.pipe && g.op == c.op && g.result == None
            && g' == g.(result := g'.result) && Stopped(s', g') == Stopped(s, g) == StopSeen(s, c)
            && EndFits(s'.pipes[c.pipe], c.op.count, g'.result,
                       ReadPass(s.pipes[c.pipe].pipe, c.op.count, StopSeen(s, c)).2, StopSeen(s, c))
  {
    hide Bytes, SegmentsOf;
  }

  lemma ReadProgresses(s: System, t: ThreadId, c: Call)
    requires t < |s.threads| && c.pipe < |s.pipes| && c.op.ReadOp? && c.op.count > 0
    requires s.threads[t] == Turning(c) && ProgressOk(s, ProgressOf(s.threads[t]))
    ensures ProgressOk(ReadTurn(s, t, c), ProgressOf(ReadTurn(s, t, c).threads[t]))
  {
    var s', g := ReadTurn(s, t, c), ProgressOf(s.threads[t]);
    var bytes := ReadPass(s.pipes[c.pipe].pipe, c.op.count, StopSeen(s, c)).2;
    ReadEffect(s, t, c);
    ReadEnds(s, t, c);
    hide Bytes, SegmentsOf, LogOf, ReadLogOk, ReadTurn, ReadPass, Flatten, ProgressOf, Stopped, EndFits, StopSeen;
    ReadLogCarriesOn(s.pipes[c.pipe], s'.pipes[c.pipe], g, ProgressOf(s'.threads[t]).result, bytes, StopSeen(s, c));
  }

  lemma ReadLogs(s: System, t: ThreadId, c: Call)
    requires Data(s) && t < |s.threads| && s.threads[t] == Turning(c) && c.pipe < |s.pipes| && c.op.ReadOp? && c.op.count > 0
    requires s.pipes[c.pipe].pipe.Valid()
    ensures Data(ReadTurn(s, t, c))
  {
    var bytes := ReadPass(s.pipes[c.pipe].pipe, c.op.count, StopSeen(s, c)).2;
    assert ProgressOk(s, ProgressOf(s.threads[t]));
    assert PipeLogOk(s, c.pipe);
    ReadMoves(s, t, c, bytes);
    ReadKeepsPipeLog(s, t, c);
    ReadProgresses(s, t, c);
    hide ProgressOk, PipeLogOk, Logs, Data;
    DataLogs(s, ReadTurn(s, t, c), t, c, [], LogOf(c.id, bytes));
  }

  /** A thread at the top of Write's loop, with bytes still to write. */
  predicate WritingAt(s: System, t: ThreadId, c: Call)
  {
    && t < |s.threads| && s.threads[t] == Turning(c) && c.pipe < |s.pipes| && c.op.WriteOp?
    && s.pipes[c.pipe].pipe.Valid() && c.written < |c.op.data|
  }

  /** The bytes a turn of a write commits. */
  function CommittedNow(s: System, t: ThreadId, c: Call): seq<byte>
    requires WritingAt(s, t, c)
  {
    c.op.data[c.written..WritePass(s.pipes[c.pipe].pipe, c.op.data, c.written, StopSeen(s, c)).2]
  }

  lemma WriteMoves(s: System, t: ThreadId, c: Call)
    requires WritingAt(s, t, c)
    ensures Logs(s, WriteTurn(s, t, c), t, c, LogOf(c.id, CommittedNow(s, t, c)), [])
  {
    hide Bytes, SegmentsOf;
    var cell, cell' := s.pipes[c.pipe], WriteTurn(s, t, c).pipes[c.pipe];
    assert cell'.delivered == cell.delivered + [];
    assert cell'.committed == cell.committed + LogOf(c.id, CommittedNow(s, t, c));
  }

  lemma QueuePuts(committed: seq<byte>, delivered: seq<byte>, contents: seq<byte>, bytes: seq<byte>)
    requires delivered + contents == committed
    ensures delivered + (contents + bytes) == committed + bytes && delivered <= committed + bytes
  {
  }

  lemma CellPuts(cell: PipeCell, cell': PipeCell, id: CallId, bytes: seq<byte>, nextCall: CallId)
    requires CellLogOk(cell, nextCall) && id < nextCall
    requires cell'.committed == cell.committed + LogOf(id, bytes) && cell'.delivered == cell.delivered
    requires cell'.pipe.readEndOpen ==> cell.pipe.readEndOpen && cell'.pipe.contents == cell.pipe.contents + bytes
    ensures CellLogOk(cell', nextCall)
  {
    LogGrows(cell.committed, LogOf(id, bytes), id);
    hide Bytes, SegmentsOf;
    if cell'.pipe.readEndOpen {
      QueuePuts(Bytes(cell.committed), Bytes(cell.delivered), cell.pipe.contents, bytes);
    }
  }

  lemma WriteKeepsPipeLog(s: System, t: ThreadId, c: Call)
    requires WritingAt(s, t, c) && c.id < s.nextCall && PipeLogOk(s, c.pipe)
    ensures PipeLogOk(WriteTurn(s, t, c), c.pipe)
  {
    hide CellLogOk, Bytes, SegmentsOf;
    CellPuts(s.pipes[c.pipe], WriteTurn(s, t, c).pipes[c.pipe], c.id, CommittedNow(s, t, c), s.nextCall);
  }

  /** Committing `data[written..w]` carries a write from `written` bytes to `w`. */
  lemma CommitCarriesOn(segments: seq<seq<byte>>, data: seq<byte>, written: nat, w: nat)
    requires written <= w <= |data| && Flatten(segments) == data[..written]
    ensures Flatten(segments + (if w == written then [] else [data[written..w]])) == data[..w]
  {
    if w == written {
      assert segments + [] == segments;
    } else {
      FlattenSnoc(segments, data[written..w]);
      assert data[..w] == data[..written] + data[written..w];
    }
  }

  /** An atomic write that has put nothing in goes in whole or not at all in one turn. */
  lemma AtomicTurn(p: Pipe, data: seq<byte>, stop: bool)
    requires p.Valid() && data != [] && IsAtomic(p.capacity, |data|)
    ensures WritePass(p, data, 0, stop).2 == 0 || WritePass(p, data, 0, stop).2 == |data|
  {
  }

  lemma WriteLogCarriesOn(cell: PipeCell, cell': PipeCell, g: Progress, w: nat, result: Option<int>)
    requires g.InCall? && g.op.WriteOp? && WriteLogOk(cell, g) && g.written < |g.op.data| && g.written <= w <= |g.op.data|
    requires cell'.committed == cell.committed + LogOf(g.id, g.op.data[g.written..w])
    requires cell'.delivered == cell.delivered && cell'.pipe.capacity == cell.pipe.capacity
    requires IsAtomic(cell.pipe.capacity, |g.op.data|) && g.written == 0 ==> w == 0 || w == |g.op.data|
    ensures WriteLogOk(cell', g.(written := w, result := result))
  {
    var data := g.op.data;
    LogGrows(cell.committed, LogOf(g.id, data[g.written..w]), g.id);
    CommitCarriesOn(SegmentsOf(cell.committed, g.id), data, g.written, w);
    assert data[0..|data|] == data;
    hide SegmentsOf, Flatten, Bytes;
  }

  lemma WriteKeepsLog(s: System, t: ThreadId, c: Call)
    requires WritingAt(s, t, c) && ProgressOk(s, ProgressOf(s.threads[t]))
    ensures WriteLogOk(WriteTurn(s, t, c).pipes[c.pipe], ProgressOf(WriteTurn(s, t, c).threads[t]))
  {
    var cell, s' := s.pipes[c.pipe], WriteTurn(s, t, c);
    var w := WritePass(cell.pipe, c.op.data, c.written, StopSeen(s, c)).2;
    if c.written == 0 && IsAtomic(cell.pipe.capacity, |c.op.data|) {
      AtomicTurn(cell.pipe, c.op.data, StopSeen(s, c));
    }
    var g, g' := ProgressOf(s.threads[t]), ProgressOf(s'.threads[t]);
    assert g'.InCall? && g' == g.(written := w, result := g'.result);
    assert s'.pipes[c.pipe].committed == cell.committed + LogOf(c.id, c.op.data[c.written..w]);
    assert s'.pipes[c.pipe].delivered == cell.delivered && s'.pipes[c.pipe].pipe.capacity == cell.pipe.capacity;
    hide WriteLogOk, WriteTurn, WritePass, ProgressOf, LogOf;
    WriteLogCarriesOn(cell, s'.pipes[c.pipe], g, w, g'.result);
  }

  lemma WriteEnds(s: System, t: ThreadId, c: Call)
    requires WritingAt(s, t, c)
    ensures var s' := WriteTurn(s, t, c);
            var g := ProgressOf(s'.threads[t]);
            g.InCall? && g.op == c.op && (g.result.Some? ==> WriteResultOk(s'.pipes[c.pipe], g, Stopped(s', g)))
  {
  }

  lemma WriteProgresses(s: System, t: ThreadId, c: Call)
    requires WritingAt(s, t, c) && ProgressOk(s, ProgressOf(s.threads[t]))
    ensures ProgressOk(WriteTurn(s, t, c), ProgressOf(WriteTurn(s, t, c).threads[t]))
  {
    WriteKeepsLog(s, t, c);
    WriteEnds(s, t, c);
    hide WriteLogOk, WriteResultOk;
  }

  lemma WriteLogs(s: System, t: ThreadId, c: Call)
    requires Data(s) && WritingAt(s, t, c)
    ensures Data(WriteTurn(s, t, c))
  {
    var s', added := WriteTurn(s, t, c), LogOf(c.id, CommittedNow(s, t, c));
    assert ProgressOk(s, ProgressOf(s.threads[t])) && PipeLogOk(s, c.pipe) && c.id < s.nextCall;
    assert s'.threads[t].HasCall() && s'.threads[t].call.id == c.id;
    hide ProgressOk, PipeLogOk, Logs, Data, WriteTurn, WritingAt, CommittedNow, IdsApart;
    WriteMoves(s, t, c);
    WriteKeepsPipeLog(s, t, c);
    WriteProgresses(s, t, c);
    DataLogs(s, s', t, c, added, []);
  }

  /** Steps around a pipe's mutex that move no byte. */
  lemma QuietTakesPipe(s: System, t: ThreadId)
    requires CanGo(s, t)
    requires s.threads[t].SelfWaking? || s.threads[t].Entering?
    ensures QuietlyOn(s, Step(s, t))
  {
  }

  lemma QuietGoesToPipe(s: System, t: ThreadId)
    requires CanGo(s, t)
    requires s.threads[t].Closing? || s.threads[t].AboutToWait?
    ensures QuietlyOn(s, Step(s, t))
  {
  }

  lemma StepInCallback(s: System, t: ThreadId, k: TokenId, id: nat, reg: Registration)
    requires CanGo(s, t) && s.threads[t] == InCallback(k, id, reg)
    ensures Step(s, t) == RunCallback(s, t, k, id, reg)
  {
    hide RunCallback;
  }

  /** A caller wakes everyone on its pipe itself. */
  lemma QuietWakesItself(s: System, t: ThreadId)
    requires CanGo(s, t)
    requires s.threads[t].SelfWakingHeld?
    ensures QuietlyOn(s, Step(s, t))
  {
  }

  lemma WokenGoOn(threads: seq<Thread>, p: PipeId)
    ensures forall u :: 0 <= u < |threads| ==> ProgressOf(WakeAll(threads, p)[u]) == ProgressOf(threads[u])
  {
  }

  lemma CountedGoesOn(th: Thread)
    requires th.HasCall()
    ensures ProgressOf(CountWake(th)) == ProgressOf(th)
  {
  }

  /** A callback wakes everyone on its pipe. */
  lemma QuietRunsCallback(s: System, t: ThreadId, k: TokenId, id: nat, reg: Registration)
    requires CanGo(s, t) && s.threads[t] == InCallback(k, id, reg)
    ensures QuietlyOn(s, RunCallback(s, t, k, id, reg))
  {
    WokenGoOn(s.threads, reg.pipe);
    var woken := WakeAll(s.threads, reg.pipe);
    assert woken[reg.thread].HasCall();
    CountedGoesOn(woken[reg.thread]);
    assert ProgressOf(s.threads[t]) == NoCall == ProgressOf(Calling(k));
    hide WakeAll, CountWake, ProgressOf;
  }

  /** Steps that take a token's mutex. */
  lemma QuietTakesToken(s: System, t: ThreadId)
    requires CanGo(s, t)
    requires s.threads[t].Registering? || s.threads[t].Stopping?
             || (s.threads[t].Leaving? && s.threads[t].call.registration.Some?)
    ensures QuietlyOn(s, Step(s, t))
  {
  }

  /** Steps under a token's mutex. */
  lemma QuietUnderToken(s: System, t: ThreadId)
    requires CanGo(s, t)
    requires s.threads[t].RegisteringHeld? || s.threads[t].StoppingHeld? || s.threads[t].Calling?
    ensures QuietlyOn(s, Step(s, t))
  {
  }

  /** An end closes. */
  lemma QuietCloses(s: System, t: ThreadId)
    requires CanGo(s, t)
    requires s.threads[t].ClosingHeld?
    ensures QuietlyOn(s, Step(s, t))
  {
  }

  lemma DataTurns(s: System, t: ThreadId, c: Call)
    requires Sync(s) && Data(s) && CanGo(s, t) && s.threads[t] == Turning(c)
    ensures Data(Step(s, t))
  {
    assert ThreadOk(s, t);
    assert s.pipes[c.pipe].pipe.Valid() && !IsEmpty(c.op);
    assert c.op.WriteOp? ==> WritingAt(s, t, c);
    hide Data, Sync, ThreadOk, WritingAt, StopOk;
    if c.op.ReadOp? {
      ReadLogs(s, t, c);
    } else {
      WriteLogs(s, t, c);
    }
  }

  lemma DataStep(s: System, t: ThreadId)
    requires Sync(s) && Data(s) && CanGo(s, t)
    ensures Data(Step(s, t))
  {
    hide Data, Sync;
    match s.threads[t]
    case Turning(c) => DataTurns(s, t, c);
    case LeavingHeld(c, r) => DataReturns(s, Unregister(s, c.token.value, c.registration.value), t, c, r);
    case Leaving(c, r) =>
      if c.registration == None {
        DataReturns(s, s, t, c, r);
      } else {
        DataOtherStep(s, t);
      }
    case _ => DataOtherStep(s, t);
  }

  lemma DataOtherStep(s: System, t: ThreadId)
    requires Data(s) && CanGo(s, t) && !s.threads[t].Turning? && !s.threads[t].LeavingHeld?
    requires s.threads[t].Leaving? ==> s.threads[t].call.registration.Some?
    ensures Data(Step(s, t))
  {
    hide Data, Step, QuietlyOn;
    match s.threads[t] {
      case SelfWakingHeld(_) => QuietWakesItself(s, t);
      case InCallback(k, id, reg) => QuietRunsCallback(s, t, k, id, reg); StepInCallback(s, t, k, id, reg);
      case ClosingHeld(_, _) => QuietCloses(s, t);
      case RegisteringHeld(_) => QuietUnderToken(s, t);
      case StoppingHeld(_) => QuietUnderToken(s, t);
      case Calling(_) => QuietUnderToken(s, t);
      case Registering(_) => QuietTakesToken(s, t);
      case Stopping(_) => QuietTakesToken(s, t);
      case Leaving(_, _) => QuietTakesToken(s, t);
      case Closing(_, _) => QuietGoesToPipe(s, t);
      case AboutToWait(_) => QuietGoesToPipe(s, t);
      case _ => QuietTakesPipe(s, t);
    }
    DataQuietStep(s, Step(s, t));
  }

  lemma DataApply(s: System, a: Action)
    requires Sync(s) && Data(s) && Enabled(s, a)
    ensures Data(Apply(s, a))
  {
    hide Data, Sync;
    match a
    case Begin(t, Transfer(p, op, k)) =>
      if IsEmpty(op) { DataEmptyTransfers(s, t, p, op, k); } else { DataTransfers(s, t, p, op, k); }
    case Begin(t, r) => DataQuietStep(s, Apply(s, a));
    case Go(t) => DataStep(s, t);
    case WakeSpuriously(t) => DataQuietStep(s, Apply(s, a));
  }

  lemma {:induction false} DataReachableIn(s: System, n: nat)
    requires ReachableIn(s, n)
    ensures Sync(s) && Data(s)
    decreases n
  {
    hide Sync, Data, Enabled, Apply;
    if n == 0 {
      SyncInitially(s);
      DataInitially(s);
    } else {
      var s0, a :| ReachableIn(s0, n - 1) && Enabled(s0, a) && s == Apply(s0, a);
      DataReachableIn(s0, n - 1);
      SyncApply(s0, a);
      DataApply(s0, a);
    }
  }
}
