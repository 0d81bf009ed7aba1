/**
 Any number of threads, pipes and stop tokens, interleaved one atomic step at a time
 (src/components/PipeService/Pipe.cpp and src/components/libheaders/StopToken.h).

 A step is what a thread does between two points where another thread may be seen to run: taking a
 mutex, one critical section, one turn of a wait loop, the release that parks it. What a turn does to
 a pipe is PipeBuffers.ReadPass and WritePass.
 */
module PipeSystem {
  import opened Basics
  import opened PipeBuffers
  import opened StopTokens

  type CallId = nat

  datatype Operation = ReadOp(count: nat) | WriteOp(data: seq<byte>)

  /**
   A Read or Write under way. `token` is the calling thread's stop token, `registration` the id its
   StopCallback got (none while not registered), `written` the bytes a Write has put in so far and
   `wakes` how often the callback has run.
   */
  datatype Call = Call(id: CallId, pipe: PipeId, op: Operation, token: Option<TokenId>,
                       registration: Option<nat>, written: nat, wakes: nat)

  datatype End = ReadEnd | WriteEnd

  /** Where a thread stands. A state named `...Held` owns the mutex the one before it waits for. */
  datatype Thread =
    | Idle
    | Registering(call: Call)              // StopCallback(): waits for the token's mutex
    | RegisteringHeld(call: Call)
    | SelfWaking(call: Call)               // a stop was requested already: runs its callback itself
    | SelfWakingHeld(call: Call)
    | Entering(call: Call)                 // waits for the pipe's mutex, at first or once notified
    | Turning(call: Call)                  // owns the pipe's mutex, at the top of the loop
    | AboutToWait(call: Call)              // owns the pipe's mutex, the turn found nothing to do
    | Parked(call: Call)                   // inside wait(), not notified
    | Leaving(call: Call, result: int)     // ~StopCallback(): waits for the token's mutex
    | LeavingHeld(call: Call, result: int)
    | Stopping(token: TokenId)             // RequestStop(): waits for the token's mutex
    | StoppingHeld(token: TokenId)
    | Calling(token: TokenId)              // between two callbacks: waits for the next one's pipe mutex
    | InCallback(token: TokenId, id: nat, waiter: Registration) // owns both mutexes
    | Closing(pipe: PipeId, end: End)      // an end's destructor: waits for the pipe's mutex
    | ClosingHeld(pipe: PipeId, end: End)
  {
    predicate HasCall()
    {
      !(Idle? || Stopping? || StoppingHeld? || Calling? || InCallback? || Closing? || ClosingHeld?)
    }

    predicate ParkedOn(p: PipeId)
    {
      Parked? && call.pipe == p
    }
  }

  /** A contiguous run of bytes one call moved. */
  datatype Segment = Segment(call: CallId, bytes: seq<byte>)

  /** A pipe, its mutex, and the history of what was committed to it and delivered from it. */
  datatype PipeCell = PipeCell(pipe: Pipe, owner: Option<ThreadId>, committed: seq<Segment>, delivered: seq<Segment>)

  datatype Returned = Returned(call: Call, result: int)

  datatype System = System(threads: seq<Thread>, pipes: seq<PipeCell>, tokens: seq<Token>,
                           nextCall: CallId, returned: map<CallId, Returned>)

  /** What an idle thread may ask for. */
  datatype Request =
    | Transfer(pipe: PipeId, op: Operation, token: Option<TokenId>)
    | RequestStop(signalled: TokenId)
    | CloseEnd(pipe: PipeId, end: End)

  datatype Action = Begin(thread: ThreadId, request: Request) | Go(thread: ThreadId) | WakeSpuriously(thread: ThreadId)

  /** notify_all on m_canRead: every parked reader of `p` has the mutex to take again. */
  function WakeReaders(threads: seq<Thread>, p: PipeId): (r: seq<Thread>)
    ensures |r| == |threads|
  {
    seq(|threads|, i requires 0 <= i < |threads| =>
      if threads[i].ParkedOn(p) && threads[i].call.op.ReadOp? then Entering(threads[i].call) else threads[i])
  }

  /** notify_all on m_canWrite. */
  function WakeWriters(threads: seq<Thread>, p: PipeId): (r: seq<Thread>)
    ensures |r| == |threads|
  {
    seq(|threads|, i requires 0 <= i < |threads| =>
      if threads[i].ParkedOn(p) && threads[i].call.op.WriteOp? then Entering(threads[i].call) else threads[i])
  }

  function WakeAll(threads: seq<Thread>, p: PipeId): (r: seq<Thread>)
    ensures |r| == |threads|
  {
    seq(|threads|, i requires 0 <= i < |threads| =>
      if threads[i].ParkedOn(p) then Entering(threads[i].call) else threads[i])
  }

  predicate TokenFree(s: System, k: TokenId)
  {
    k < |s.tokens| && s.tokens[k].owner == None
  }

  predicate PipeFree(s: System, p: PipeId)
  {
    p < |s.pipes| && s.pipes[p].owner == None
  }

  /** Whether the thread's next step can be taken now: it can unless it waits for a mutex or is parked. */
  predicate CanGo(s: System, t: ThreadId)
  {
    t < |s.threads| &&
    match s.threads[t]
    case Idle => false
    case Registering(c) => c.token.Some? && TokenFree(s, c.token.value)
    case RegisteringHeld(c) => c.token.Some? && c.token.value < |s.tokens|
    case SelfWaking(c) => PipeFree(s, c.pipe)
    case SelfWakingHeld(c) => c.pipe < |s.pipes|
    case Entering(c) => PipeFree(s, c.pipe)
    case Turning(c) => c.pipe < |s.pipes| && s.pipes[c.pipe].pipe.Valid() && TurnDefined(c)
                       && (c.token.Some? ==> c.token.value < |s.tokens|)
    case AboutToWait(c) => c.pipe < |s.pipes|
    case Parked(c) => false
    case Leaving(c, _) => c.registration == None || (c.token.Some? && TokenFree(s, c.token.value))
    case LeavingHeld(c, _) => c.registration.Some? && c.token.Some? && c.token.value < |s.tokens|
    case Stopping(k) => TokenFree(s, k)
    case StoppingHeld(k) => k < |s.tokens|
    case Calling(k) => k < |s.tokens| &&
                       var id := NextCallback(s.tokens[k], s.tokens[k].cursor);
                       (id < s.tokens[k].nextId ==> PipeFree(s, s.tokens[k].callbacks[id].pipe))
    case InCallback(k, _, reg) => k < |s.tokens| && reg.pipe < |s.pipes|
                                  && reg.thread < |s.threads| && s.threads[reg.thread].HasCall()
    case Closing(p, _) => PipeFree(s, p)
    case ClosingHeld(p, _) => p < |s.pipes|
  }

  predicate TurnDefined(c: Call)
  {
    c.op.WriteOp? ==> c.written <= |c.op.data|
  }

  /** StopRequested() of the call's token; without a token a call is never interrupted. */
  predicate StopSeen(s: System, c: Call)
  {
    c.token.Some? && c.token.value < |s.tokens| && s.tokens[c.token.value].stopRequested
  }

  function SetThread(s: System, t: ThreadId, th: Thread): System
    requires t < |s.threads|
  {
    s.(threads := s.threads[t := th])
  }

  function SetToken(s: System, k: TokenId, tok: Token): System
    requires k < |s.tokens|
  {
    s.(tokens := s.tokens[k := tok])
  }

  function SetPipe(s: System, p: PipeId, cell: PipeCell): System
    requires p < |s.pipes|
  {
    s.(pipes := s.pipes[p := cell])
  }

  function SetPipeOwner(s: System, p: PipeId, owner: Option<ThreadId>): System
    requires p < |s.pipes|
  {
    SetPipe(s, p, s.pipes[p].(owner := owner))
  }

  function SetTokenOwner(s: System, k: TokenId, owner: Option<ThreadId>): System
    requires k < |s.tokens|
  {
    SetToken(s, k, s.tokens[k].(owner := owner))
  }

  /** The next step of a thread in the middle of something. */
  function Step(s: System, t: ThreadId): System
    requires CanGo(s, t)
  {
    match s.threads[t]
    case Registering(c) => SetThread(SetTokenOwner(s, c.token.value, Some(t)), t, RegisteringHeld(c))
    case RegisteringHeld(c) => Register(s, t, c)
    case SelfWaking(c) => SetThread(SetPipeOwner(s, c.pipe, Some(t)), t, SelfWakingHeld(c))
    case SelfWakingHeld(c) =>
      SetThread(SetPipeOwner(s.(threads := WakeAll(s.threads, c.pipe)), c.pipe, None), t, Entering(c.(wakes := c.wakes + 1)))
    case Entering(c) => SetThread(SetPipeOwner(s, c.pipe, Some(t)), t, Turning(c))
    case Turning(c) => if c.op.ReadOp? then ReadTurn(s, t, c) else WriteTurn(s, t, c)
    case AboutToWait(c) => SetThread(SetPipeOwner(s, c.pipe, None), t, Parked(c))
    case Leaving(c, r) =>
      if c.registration == None then Return(s, t, c, r)
      else SetThread(SetTokenOwner(s, c.token.value, Some(t)), t, LeavingHeld(c, r))
    case LeavingHeld(c, r) => Return(Unregister(s, c.token.value, c.registration.value), t, c, r)
    case Stopping(k) => SetThread(SetTokenOwner(s, k, Some(t)), t, StoppingHeld(k))
    case StoppingHeld(k) =>
      if s.tokens[k].stopRequested then SetThread(SetTokenOwner(s, k, None), t, Idle)
      else Signal(s, t, k)
    case Calling(k) =>
      var id := NextCallback(s.tokens[k], s.tokens[k].cursor);
      if id < s.tokens[k].nextId then CallNext(s, t, k, id) else FinishStop(s, t, k)
    case InCallback(k, id, reg) => RunCallback(s, t, k, id, reg)
    case Closing(p, e) => SetThread(SetPipeOwner(s, p, Some(t)), t, ClosingHeld(p, e))
    case ClosingHeld(p, e) => Close(s, t, p, e)
  }

  /** StopCallback's critical section. */
  function Register(s: System, t: ThreadId, c: Call): System
    requires t < |s.threads| && c.token.Some? && c.token.value < |s.tokens|
  {
    var tok := s.tokens[c.token.value];
    if tok.stopRequested then
      SetThread(SetTokenOwner(s, c.token.value, None), t, SelfWaking(c))
    else
      var tok' := AddCallback(tok, Registration(t, c.pipe));
      SetThread(SetToken(s, c.token.value, tok'.(owner := None)), t, Entering(c.(registration := Some(tok.nextId))))
  }

  /** Where a call goes after a turn, which has released the pipe's mutex when it finished. */
  function AfterTurn(c: Call, turn: Turn): Thread
  {
    match turn
    case Finished(r) => Leaving(c, r)
    case Again => Turning(c)
    case MustWait => AboutToWait(c)
  }

  function OwnerAfter(t: ThreadId, turn: Turn): Option<ThreadId>
  {
    if turn.Finished? then None else Some(t)
  }

  function ReadTurn(s: System, t: ThreadId, c: Call): System
    requires t < |s.threads| && c.pipe < |s.pipes| && c.op.ReadOp?
  {
    var cell := s.pipes[c.pipe];
    var (p, turn, bytes) := ReadPass(cell.pipe, c.op.count, StopSeen(s, c));
    if bytes == [] then
      SetThread(SetPipe(s, c.pipe, cell.(pipe := p, owner := OwnerAfter(t, turn))), t, AfterTurn(c, turn))
    else
      var cell' := cell.(pipe := p, owner := OwnerAfter(t, turn), delivered := cell.delivered + [Segment(c.id, bytes)]);
      SetThread(SetPipe(s.(threads := WakeWriters(s.threads, c.pipe)), c.pipe, cell'), t, AfterTurn(c, turn))
  }

  function WriteTurn(s: System, t: ThreadId, c: Call): System
    requires t < |s.threads| && c.pipe < |s.pipes| && c.op.WriteOp?
    requires s.pipes[c.pipe].pipe.Valid() && c.written <= |c.op.data|
  {
    var cell := s.pipes[c.pipe];
    var (p, turn, w) := WritePass(cell.pipe, c.op.data, c.written, StopSeen(s, c));
    var c' := c.(written := w);
    if w == c.written then
      SetThread(SetPipe(s, c.pipe, cell.(pipe := p, owner := OwnerAfter(t, turn))), t, AfterTurn(c', turn))
    else
      var added := Segment(c.id, c.op.data[c.written..w]);
      var cell' := cell.(pipe := p, owner := OwnerAfter(t, turn), committed := cell.committed + [added]);
      SetThread(SetPipe(s.(threads := WakeReaders(s.threads, c.pipe)), c.pipe, cell'), t, AfterTurn(c', turn))
  }

  function Return(s: System, t: ThreadId, c: Call, r: int): System
    requires t < |s.threads|
  {
    SetThread(s.(returned := s.returned[c.id := Returned(c, r)]), t, Idle)
  }

  /** ~StopCallback's critical section. */
  function Unregister(s: System, k: TokenId, id: nat): System
    requires k < |s.tokens|
  {
    SetToken(s, k, RemoveCallback(s.tokens[k], id).(owner := None))
  }

  /** RequestStop sets the flag; it keeps the token's mutex. */
  function Signal(s: System, t: ThreadId, k: TokenId): System
    requires t < |s.threads| && k < |s.tokens|
  {
    SetThread(SetToken(s, k, s.tokens[k].(stopRequested := true)), t, Calling(k))
  }

  /** RequestStop's loop reaches callback `id`, which takes its pipe's mutex. */
  function CallNext(s: System, t: ThreadId, k: TokenId, id: nat): System
    requires t < |s.threads| && k < |s.tokens| && id in s.tokens[k].callbacks
    requires s.tokens[k].callbacks[id].pipe < |s.pipes|
  {
    var reg := s.tokens[k].callbacks[id];
    SetThread(SetPipeOwner(SetToken(s, k, s.tokens[k].(cursor := id)), reg.pipe, Some(t)), t, InCallback(k, id, reg))
  }

  /** RequestStop's loop is over: it releases the token's mutex. */
  function FinishStop(s: System, t: ThreadId, k: TokenId): System
    requires t < |s.threads| && k < |s.tokens|
  {
    SetThread(SetToken(s, k, s.tokens[k].(cursor := s.tokens[k].nextId, owner := None)), t, Idle)
  }

  /** The pipe's wake callback, under both mutexes. */
  function RunCallback(s: System, t: ThreadId, k: TokenId, id: nat, reg: Registration): System
    requires t < |s.threads| && k < |s.tokens| && reg.pipe < |s.pipes| && reg.thread < |s.threads|
    requires s.threads[reg.thread].HasCall()
  {
    var woken := WakeAll(s.threads, reg.pipe);
    var counted := woken[reg.thread := CountWake(woken[reg.thread])];
    SetThread(SetPipeOwner(SetToken(s.(threads := counted), k, s.tokens[k].(cursor := id + 1)), reg.pipe, None), t, Calling(k))
  }

  function CountWake(th: Thread): Thread
    requires th.HasCall()
  {
    th.(call := th.call.(wakes := th.call.wakes + 1))
  }

  function Close(s: System, t: ThreadId, p: PipeId, e: End): System
    requires t < |s.threads| && p < |s.pipes|
  {
    var cell := s.pipes[p];
    var pipe' := if e.ReadEnd? then WithoutReader(cell.pipe) else WithoutWriter(cell.pipe);
    var woken := if e.ReadEnd? then WakeWriters(s.threads, p) else WakeReaders(s.threads, p);
    SetThread(SetPipe(s.(threads := woken), p, cell.(pipe := pipe', owner := None)), t, Idle)
  }

  /** A call of zero bytes returns 0 at once. */
  predicate IsEmpty(op: Operation)
  {
    match op
    case ReadOp(count) => count == 0
    case WriteOp(data) => data == []
  }

  predicate CanBegin(s: System, t: ThreadId, r: Request)
  {
    t < |s.threads| && s.threads[t].Idle? &&
    match r
    case Transfer(p, _, k) => p < |s.pipes| && (k.Some? ==> k.value < |s.tokens|)
    case RequestStop(k) => k < |s.tokens|
    case CloseEnd(p, _) => p < |s.pipes|
  }

  function Start(s: System, t: ThreadId, r: Request): System
    requires CanBegin(s, t, r)
  {
    match r
    case Transfer(p, op, k) =>
      var c := Call(s.nextCall, p, op, k, None, 0, 0);
      var s' := s.(nextCall := s.nextCall + 1);
      if IsEmpty(op) then Return(s', t, c, 0)
      else SetThread(s', t, if k.Some? then Registering(c) else Entering(c))
    case RequestStop(k) => SetThread(s, t, Stopping(k))
    case CloseEnd(p, e) => SetThread(s, t, Closing(p, e))
  }

  predicate Enabled(s: System, a: Action)
  {
    match a
    case Begin(t, r) => CanBegin(s, t, r)
    case Go(t) => CanGo(s, t)
    case WakeSpuriously(t) => t < |s.threads| && s.threads[t].Parked?
  }

  function Apply(s: System, a: Action): System
    requires Enabled(s, a)
  {
    match a
    case Begin(t, r) => Start(s, t, r)
    case Go(t) => Step(s, t)
    case WakeSpuriously(t) => SetThread(s, t, Entering(s.threads[t].call))
  }

  /** Fresh pipes, unsignalled tokens and idle threads, any number of each. */
  ghost predicate Initial(s: System)
  {
    && (forall t :: 0 <= t < |s.threads| ==> s.threads[t] == Idle)
    && (forall p :: 0 <= p < |s.pipes| ==>
          s.pipes[p] == PipeCell(Pipe(s.pipes[p].pipe.capacity, [], true, true), None, [], []) && s.pipes[p].pipe.Valid())
    && (forall k :: 0 <= k < |s.tokens| ==> s.tokens[k] == Token(false, map[], 0, 0, None))
    && s.nextCall == 0 && s.returned == map[]
  }

  ghost predicate ReachableIn(s: System, n: nat)
    decreases n
  {
    if n == 0 then Initial(s)
    else exists s0, a :: ReachableIn(s0, n - 1) && Enabled(s0, a) && s == Apply(s0, a)
  }

  ghost predicate Reachable(s: System)
  {
    exists n: nat :: ReachableIn(s, n)
  }
}
