/** What every step of the pipe and stop-token protocol keeps: mutexes, registrations and wake-ups. */
module PipeSync {
  import opened Basics
  import opened PipeBuffers
  import opened StopTokens
  import opened PipeSystem

  /** The pipe whose mutex a thread owns. */
  function PipeHeld(th: Thread): Option<PipeId>
  {
    match th
    case SelfWakingHeld(c) => Some(c.pipe)
    case Turning(c) => Some(c.pipe)
    case AboutToWait(c) => Some(c.pipe)
    case InCallback(_, _, reg) => Some(reg.pipe)
    case ClosingHeld(p, _) => Some(p)
    case _ => None
  }

  /** The token whose mutex a thread owns. */
  function TokenHeld(th: Thread): Option<TokenId>
  {
    match th
    case RegisteringHeld(c) => c.token
    case LeavingHeld(c, _) => c.token
    case StoppingHeld(k) => Some(k)
    case Calling(k) => Some(k)
    case InCallback(k, _, _) => Some(k)
    case _ => None
  }

  /** Each pipe's mutex names its one owner. */
  ghost predicate PipeLocks(s: System)
  {
    && (forall p :: 0 <= p < |s.pipes| && s.pipes[p].owner.Some? ==>
          s.pipes[p].owner.value < |s.threads| && PipeHeld(s.threads[s.pipes[p].owner.value]) == Some(p))
    && (forall t :: 0 <= t < |s.threads| && PipeHeld(s.threads[t]).Some? ==>
          PipeHeld(s.threads[t]).value < |s.pipes| && s.pipes[PipeHeld(s.threads[t]).value].owner == Some(t))
  }

  /** Each token's mutex names its one owner. */
  ghost predicate TokenLocks(s: System)
  {
    && (forall k :: 0 <= k < |s.tokens| && s.tokens[k].owner.Some? ==>
          s.tokens[k].owner.value < |s.threads| && TokenHeld(s.threads[s.tokens[k].owner.value]) == Some(k))
    && (forall t :: 0 <= t < |s.threads| && TokenHeld(s.threads[t]).Some? ==>
          TokenHeld(s.threads[t]).value < |s.tokens| && s.tokens[TokenHeld(s.threads[t]).value].owner == Some(t))
  }

  /** The owner of mutex `l` after a step of `t`, which held `before` of its kind and now holds `after`. */
  function OwnerNow(owner: Option<ThreadId>, l: nat, before: Option<nat>, after: Option<nat>, t: ThreadId): Option<ThreadId>
  {
    if after == Some(l) then Some(t) else if before == Some(l) then None else owner
  }

  /** A pipe mutex that changes hands is taken or let go by `t`, which finds it free or has it already. */
  ghost predicate PipesFollow(s: System, s': System, t: ThreadId)
    requires t < |s.threads| == |s'.threads| && |s'.pipes| == |s.pipes|
  {
    var before, after := PipeHeld(s.threads[t]), PipeHeld(s'.threads[t]);
    && (after.Some? ==>
          after.value < |s.pipes| && (s.pipes[after.value].owner == None || s.pipes[after.value].owner == Some(t)))
    && (forall p :: 0 <= p < |s.pipes| ==> s'.pipes[p].owner == OwnerNow(s.pipes[p].owner, p, before, after, t))
  }

  ghost predicate TokensFollow(s: System, s': System, t: ThreadId)
    requires t < |s.threads| == |s'.threads| && |s'.tokens| == |s.tokens|
  {
    var before, after := TokenHeld(s.threads[t]), TokenHeld(s'.threads[t]);
    && (after.Some? ==>
          after.value < |s.tokens| && (s.tokens[after.value].owner == None || s.tokens[after.value].owner == Some(t)))
    && (forall k :: 0 <= k < |s.tokens| ==> s'.tokens[k].owner == OwnerNow(s.tokens[k].owner, k, before, after, t))
  }

  lemma KeepPipeLocks(s: System, s': System, t: ThreadId)
    requires PipeLocks(s) && t < |s.threads| == |s'.threads| && |s'.pipes| == |s.pipes| && PipesFollow(s, s', t)
    requires forall u :: 0 <= u < |s.threads| && u != t ==> PipeHeld(s'.threads[u]) == PipeHeld(s.threads[u])
    ensures PipeLocks(s')
  {
    hide PipeHeld;
  }

  lemma KeepTokenLocks(s: System, s': System, t: ThreadId)
    requires TokenLocks(s) && t < |s.threads| == |s'.threads| && |s'.tokens| == |s.tokens| && TokensFollow(s, s', t)
    requires forall u :: 0 <= u < |s.threads| && u != t ==> TokenHeld(s'.threads[u]) == TokenHeld(s.threads[u])
    ensures TokenLocks(s')
  {
    hide TokenHeld;
    forall k | 0 <= k < |s.tokens| && s'.tokens[k].owner.Some?
      ensures s'.tokens[k].owner.value < |s.threads| && TokenHeld(s'.threads[s'.tokens[k].owner.value]) == Some(k)
    {
      assert s'.tokens[k].owner == OwnerNow(s.tokens[k].owner, k, TokenHeld(s.threads[t]), TokenHeld(s'.threads[t]), t);
    }
    forall u | 0 <= u < |s.threads| && TokenHeld(s'.threads[u]).Some?
      ensures TokenHeld(s'.threads[u]).value < |s.tokens| && s'.tokens[TokenHeld(s'.threads[u]).value].owner == Some(u)
    {
      var k := TokenHeld(s'.threads[u]).value;
      assert 0 <= k < |s.tokens| ==>
          s'.tokens[k].owner == OwnerNow(s.tokens[k].owner, k, TokenHeld(s.threads[t]), TokenHeld(s'.threads[t]), t);
    }
  }

  /** The thread is running RequestStop's loop over the callbacks of `k`. */
  predicate Notifying(th: Thread, k: TokenId)
  {
    th == Calling(k) || (th.InCallback? && th.token == k)
  }

  /** Registrations belong to calls under way; once signalled, a cursor short of the end means a loop in progress. */
  ghost predicate TokenOk(s: System, k: TokenId)
    requires k < |s.tokens|
  {
    var tok := s.tokens[k];
    && tok.cursor <= tok.nextId
    && (!tok.stopRequested ==> tok.cursor == 0)
    && (tok.stopRequested && tok.cursor < tok.nextId ==>
          tok.owner.Some? && tok.owner.value < |s.threads| && Notifying(s.threads[tok.owner.value], k))
    && (forall id :: id in tok.callbacks ==>
          && id < tok.nextId
          && tok.callbacks[id].thread < |s.threads|
          && s.threads[tok.callbacks[id].thread].HasCall()
          && Registered(s.threads[tok.callbacks[id].thread].call, k, id, tok.callbacks[id].pipe))
  }

  predicate Registered(c: Call, k: TokenId, id: nat, p: PipeId)
  {
    c.token == Some(k) && c.registration == Some(id) && c.pipe == p
  }

  /** A call past its StopCallback's constructor. */
  predicate Past(th: Thread)
  {
    th.HasCall() && !th.Registering? && !th.RegisteringHeld? && !th.SelfWaking? && !th.SelfWakingHeld?
  }

  /** Whether callback `id` is still to run, or is running, should its token be or have been signalled. */
  predicate StillToRun(tok: Token, id: nat)
  {
    id >= tok.cursor
  }

  /**
   A call and its StopCallback. Registered, its callback has run once if RequestStop's loop has passed
   it and never otherwise; not registered although it carries a token, a stop was requested first and
   the caller ran it itself.
   */
  ghost predicate StopOk(s: System, t: ThreadId, th: Thread)
    requires th.HasCall()
  {
    var c := th.call;
    match c.token
    case None => c.registration == None && c.wakes == 0 && Past(th) && !th.LeavingHeld?
    case Some(k) =>
      && k < |s.tokens|
      && (Past(th) && c.registration.Some? ==>
            && c.registration.value in s.tokens[k].callbacks
            && s.tokens[k].callbacks[c.registration.value] == Registration(t, c.pipe)
            && c.wakes == if StillToRun(s.tokens[k], c.registration.value) then 0 else 1)
      && (Past(th) && c.registration == None ==> s.tokens[k].stopRequested && c.wakes == 1)
      && (!Past(th) ==> c.registration == None && c.wakes == 0)
      && (th.SelfWaking? || th.SelfWakingHeld? ==> s.tokens[k].stopRequested)
      && (th.LeavingHeld? ==> c.registration.Some?)
  }

  /** There is nothing for the call to do: what a turn that ends in a wait has found. */
  predicate NothingToDo(p: Pipe, c: Call)
  {
    match c.op
    case ReadOp(_) => p.contents == [] && p.writeEndOpen
    case WriteOp(data) => p.readEndOpen && p.capacity - |p.contents| < Need(p.capacity, |data|)
  }

  /** The call's stop token, if any, is unsignalled or its RequestStop has still to run this call's callback. */
  ghost predicate WakeDue(s: System, c: Call)
  {
    c.token.Some? ==> c.token.value < |s.tokens| && c.registration.Some?
                      && StillToRun(s.tokens[c.token.value], c.registration.value)
  }

  ghost predicate ThreadOk(s: System, t: ThreadId)
    requires t < |s.threads|
  {
    var th := s.threads[t];
    && (th.HasCall() ==>
          && th.call.pipe < |s.pipes|
          && StopOk(s, t, th)
          && !IsEmpty(th.call.op)
          && TurnDefined(th.call)
          && (th.call.op.WriteOp? && !th.Leaving? && !th.LeavingHeld? ==> th.call.written < |th.call.op.data|))
    && (th.AboutToWait? || th.Parked? ==> NothingToDo(s.pipes[th.call.pipe].pipe, th.call) && WakeDue(s, th.call))
    && (th.Stopping? || th.StoppingHeld? || th.Calling? || th.InCallback? ==> th.token < |s.tokens|)
    && (th.Calling? || th.InCallback? ==> s.tokens[th.token].stopRequested)
    && (th.InCallback? ==>
          && s.tokens[th.token].cursor == th.id
          && th.id in s.tokens[th.token].callbacks
          && s.tokens[th.token].callbacks[th.id] == th.waiter)
    && (th.Closing? || th.ClosingHeld? ==> th.pipe < |s.pipes|)
  }

  ghost predicate Sync(s: System)
  {
    && PipeLocks(s)
    && TokenLocks(s)
    && (forall p :: 0 <= p < |s.pipes| ==> s.pipes[p].pipe.Valid())
    && (forall k :: 0 <= k < |s.tokens| ==> TokenOk(s, k))
    && (forall t :: 0 <= t < |s.threads| ==> ThreadOk(s, t))
  }

  lemma SyncInitially(s: System)
    requires Initial(s)
    ensures Sync(s)
  {
  }

  // ---- What a step leaves alone -------------------------------------------------------------

  /** A bystander's state: unchanged, or notified. */
  predicate Kept(th: Thread, th': Thread)
  {
    th' == th || (th.Parked? && th' == Entering(th.call))
  }

  lemma KeptSame(th: Thread)
    ensures Kept(th, th)
  {
  }

  /** What the token keeps as far as thread `u` can tell. */
  ghost predicate SameFor(tok: Token, tok': Token, u: ThreadId)
  {
    && (tok.stopRequested ==> tok'.stopRequested)
    && (forall id :: id in tok.callbacks && tok.callbacks[id].thread == u ==>
          && id in tok'.callbacks && tok'.callbacks[id] == tok.callbacks[id]
          && StillToRun(tok', id) == StillToRun(tok, id))
  }

  lemma KeepThread(s: System, s': System, u: ThreadId)
    requires u < |s.threads| == |s'.threads| && |s'.pipes| == |s.pipes| && |s'.tokens| == |s.tokens|
    requires ThreadOk(s, u) && Kept(s.threads[u], s'.threads[u])
    requires forall k :: 0 <= k < |s.tokens| ==> SameFor(s.tokens[k], s'.tokens[k], u)
    requires s.threads[u].InCallback? ==> s'.tokens[s.threads[u].token].callbacks == s.tokens[s.threads[u].token].callbacks
    requires s.threads[u].InCallback? ==> s'.tokens[s.threads[u].token].cursor == s.tokens[s.threads[u].token].cursor
    requires s'.threads[u].AboutToWait? || s'.threads[u].Parked? ==>
               NothingToDo(s'.pipes[s.threads[u].call.pipe].pipe, s.threads[u].call)
    ensures ThreadOk(s', u)
  {
  }

  /** A call that `k` knows keeps what it was registered with. */
  predicate SameRegistration(th: Thread, th': Thread, k: TokenId)
  {
    th.HasCall() && th.call.token == Some(k) && th.call.registration.Some? ==>
      th'.HasCall() && th'.call.token == th.call.token && th'.call.registration == th.call.registration
      && th'.call.pipe == th.call.pipe
  }

  lemma KeepToken(s: System, s': System, k: TokenId)
    requires k < |s.tokens| == |s'.tokens| && |s'.threads| == |s.threads|
    requires TokenOk(s, k) && s'.tokens[k] == s.tokens[k].(owner := s'.tokens[k].owner)
    requires forall u :: 0 <= u < |s.threads| ==> SameRegistration(s.threads[u], s'.threads[u], k)
    requires s.tokens[k].owner.Some? && s.tokens[k].owner.value < |s.threads| && Notifying(s.threads[s.tokens[k].owner.value], k) ==>
               s'.tokens[k].owner == s.tokens[k].owner && Notifying(s'.threads[s.tokens[k].owner.value], k)
    ensures TokenOk(s', k)
  {
  }

  /** The thread whose wake-ups were counted, if another than the one stepping. */
  predicate Counted(th: Thread, th': Thread)
  {
    th.HasCall() && (th' == CountWake(th) || (th.Parked? && th' == CountWake(Entering(th.call))))
  }

  /**
   The step of `t` hands mutexes on as the owners say, may count a wake-up of `w` (`w == t` when it
   does not) and keeps every other thread but for notifying it.
   */
  ghost predicate Moves(s: System, s': System, t: ThreadId, w: ThreadId)
  {
    && t < |s.threads| == |s'.threads| && w < |s.threads|
    && |s'.pipes| == |s.pipes| && |s'.tokens| == |s.tokens|
    && (forall u :: 0 <= u < |s.threads| && u != t && u != w ==> Kept(s.threads[u], s'.threads[u]))
    && (w != t ==> Counted(s.threads[w], s'.threads[w]))
    && PipesFollow(s, s', t)
    && TokensFollow(s, s', t)
  }

  /** A bystander keeps the mutexes it holds, and the tokens that know its call still do. */
  lemma KeptHolds(th: Thread, th': Thread)
    requires Kept(th, th') || Counted(th, th')
    ensures PipeHeld(th') == PipeHeld(th) && TokenHeld(th') == TokenHeld(th)
    ensures forall k :: SameRegistration(th, th', k) && (Notifying(th, k) ==> Notifying(th', k))
  {
  }

  lemma KeepLocks(s: System, s': System, t: ThreadId, w: ThreadId)
    requires PipeLocks(s) && TokenLocks(s) && Moves(s, s', t, w)
    ensures PipeLocks(s') && TokenLocks(s')
  {
    forall u | 0 <= u < |s.threads| && u != t
      ensures PipeHeld(s'.threads[u]) == PipeHeld(s.threads[u]) && TokenHeld(s'.threads[u]) == TokenHeld(s.threads[u])
    {
      KeptHolds(s.threads[u], s'.threads[u]);
    }
    hide PipeHeld, TokenHeld;
    KeepPipeLocks(s, s', t);
    KeepTokenLocks(s, s', t);
  }

  ghost predicate SamePipes(s: System, s': System)
  {
    |s'.pipes| == |s.pipes| && forall p :: 0 <= p < |s.pipes| ==> s'.pipes[p].pipe == s.pipes[p].pipe
  }

  /** No token but `k`, whose mutex `t` owns, changes other than in its owner, and `k` shows the bystanders no change. */
  ghost predicate TokenChanges(s: System, s': System, t: ThreadId, w: ThreadId, k: TokenId)
  {
    && k < |s.tokens| == |s'.tokens| && t < |s.threads| && TokenHeld(s.threads[t]) == Some(k)
    && (forall j :: 0 <= j < |s.tokens| && j != k ==> s'.tokens[j] == s.tokens[j].(owner := s'.tokens[j].owner))
    && (forall u :: 0 <= u < |s.threads| && u != t && u != w ==> SameFor(s.tokens[k], s'.tokens[k], u))
  }

  ghost predicate OnlyTokenOwners(s: System, s': System)
  {
    && |s'.tokens| == |s.tokens|
    && (forall k :: 0 <= k < |s.tokens| ==> s'.tokens[k] == s.tokens[k].(owner := s'.tokens[k].owner))
  }

  /** What a bystander of the step can tell of it. */
  ghost predicate Bystander(s: System, s': System, u: ThreadId)
  {
    && u < |s.threads| == |s'.threads| && |s'.tokens| == |s.tokens|
    && Kept(s.threads[u], s'.threads[u]) && SamePipes(s, s')
    && forall k :: 0 <= k < |s.tokens| ==> SameFor(s.tokens[k], s'.tokens[k], u)
  }

  lemma BystanderKeeps(s: System, s': System, u: ThreadId)
    requires Bystander(s, s', u) && ThreadOk(s, u)
    requires s.threads[u].InCallback? ==> s'.tokens[s.threads[u].token].callbacks == s.tokens[s.threads[u].token].callbacks
    requires s.threads[u].InCallback? ==> s'.tokens[s.threads[u].token].cursor == s.tokens[s.threads[u].token].cursor
    ensures ThreadOk(s', u)
  {
    hide SameFor;
    KeepThread(s, s', u);
  }

  lemma OwnersAreBystanders(s: System, s': System, t: ThreadId, w: ThreadId, k: TokenId, u: ThreadId)
    requires Moves(s, s', t, w) && SamePipes(s, s') && u < |s.threads| && u != t && u != w
    requires OnlyTokenOwners(s, s') || TokenChanges(s, s', t, w, k)
    ensures Bystander(s, s', u)
  {
    hide SamePipes, PipesFollow, TokensFollow, Kept, Counted, TokenHeld;
  }

  /** Only one thread owns a token's mutex, so no bystander runs a callback of the one that changes. */
  lemma OtherCallbacks(s: System, s': System, t: ThreadId, w: ThreadId, k: TokenId, u: ThreadId)
    requires u < |s.threads| && u != t && TokenLocks(s) && ThreadOk(s, u)
    requires OnlyTokenOwners(s, s') || TokenChanges(s, s', t, w, k)
    requires s.threads[u].InCallback?
    ensures var j := s.threads[u].token;
            j < |s.tokens| == |s'.tokens| && s'.tokens[j].callbacks == s.tokens[j].callbacks && s'.tokens[j].cursor == s.tokens[j].cursor
  {
    assert TokenHeld(s.threads[u]) == Some(s.threads[u].token);
    hide SameFor, StopOk;
  }

  lemma KeepThreads(s: System, s': System, t: ThreadId, w: ThreadId, k: TokenId)
    requires Sync(s) && Moves(s, s', t, w) && SamePipes(s, s')
    requires OnlyTokenOwners(s, s') || TokenChanges(s, s', t, w, k)
    ensures forall u :: 0 <= u < |s'.threads| && u != t && u != w ==> ThreadOk(s', u)
  {
    forall u | 0 <= u < |s'.threads| && u != t && u != w
      ensures ThreadOk(s', u)
    {
      assert ThreadOk(s, u) && TokenLocks(s) && |s.threads| == |s'.threads|;
      hide Sync, ThreadOk, TokenLocks, Moves, SamePipes, OnlyTokenOwners, TokenChanges, Bystander;
      OwnersAreBystanders(s, s', t, w, k, u);
      if s.threads[u].InCallback? {
        OtherCallbacks(s, s', t, w, k, u);
      }
      BystanderKeeps(s, s', u);
    }
  }

  lemma KeepTokens(s: System, s': System, t: ThreadId)
    requires Sync(s) && Moves(s, s', t, t) && OnlyTokenOwners(s, s')
    requires forall j :: 0 <= j < |s.tokens| ==> SameRegistration(s.threads[t], s'.threads[t], j)
    requires !s.threads[t].Calling? && !s.threads[t].InCallback?
    ensures forall j :: 0 <= j < |s'.tokens| ==> TokenOk(s', j)
  {
    forall j | 0 <= j < |s'.tokens|
      ensures TokenOk(s', j)
    {
      KeepToken(s, s', j);
    }
  }

  lemma KeepOtherTokens(s: System, s': System, t: ThreadId, w: ThreadId, k: TokenId)
    requires Sync(s) && Moves(s, s', t, w) && TokenChanges(s, s', t, w, k)
    requires forall j :: 0 <= j < |s.tokens| && j != k ==> SameRegistration(s.threads[t], s'.threads[t], j)
    ensures forall j :: 0 <= j < |s'.tokens| && j != k ==> TokenOk(s', j)
  {
    forall u | 0 <= u < |s.threads| && u != t
      ensures forall j :: SameRegistration(s.threads[u], s'.threads[u], j)
                          && (Notifying(s.threads[u], j) ==> Notifying(s'.threads[u], j))
    {
      KeptHolds(s.threads[u], s'.threads[u]);
    }
    hide SameRegistration, Notifying, Kept, Counted, CountWake, TokenOk;
    forall j | 0 <= j < |s'.tokens| && j != k
      ensures TokenOk(s', j)
    {
      KeepToken(s, s', j);
    }
  }

  /** A step that changes no pipe and no token but for their owners. */
  lemma SyncMutexStep(s: System, s': System, t: ThreadId)
    requires Sync(s) && Moves(s, s', t, t) && SamePipes(s, s') && OnlyTokenOwners(s, s')
    requires !s.threads[t].Calling? && !s.threads[t].InCallback?
    requires forall j :: 0 <= j < |s.tokens| ==> SameRegistration(s.threads[t], s'.threads[t], j)
    requires ThreadOk(s', t)
    ensures Sync(s')
  {
    hide ThreadOk, TokenOk;
    KeepLocks(s, s', t, t);
    KeepThreads(s, s', t, t, 0);
    KeepTokens(s, s', t);
  }

  /** A step under the mutex of token `k` that changes no pipe. */
  lemma SyncTokenStep(s: System, s': System, t: ThreadId, w: ThreadId, k: TokenId)
    requires Sync(s) && Moves(s, s', t, w) && SamePipes(s, s') && TokenChanges(s, s', t, w, k)
    requires forall j :: 0 <= j < |s.tokens| && j != k ==> SameRegistration(s.threads[t], s'.threads[t], j)
    requires ThreadOk(s', t) && ThreadOk(s', w) && TokenOk(s', k)
    ensures Sync(s')
  {
    hide ThreadOk, TokenOk;
    KeepLocks(s, s', t, w);
    KeepThreads(s, s', t, w, k);
    KeepOtherTokens(s, s', t, w, k);
  }

  /** A step under the mutex of pipe `p` that changes it and no token. */
  lemma SyncPipeStep(s: System, s': System, t: ThreadId, p: PipeId)
    requires Sync(s) && Moves(s, s', t, t) && s'.tokens == s.tokens
    requires PipeHeld(s.threads[t]) == Some(p) && !s.threads[t].InCallback?
    requires forall q :: 0 <= q < |s.pipes| && q != p ==> s'.pipes[q].pipe == s.pipes[q].pipe
    requires p < |s.pipes| && s'.pipes[p].pipe.Valid()
    requires forall u :: 0 <= u < |s.threads| && u != t && s'.threads[u].ParkedOn(p) ==>
               NothingToDo(s'.pipes[p].pipe, s'.threads[u].call)
    requires forall j :: 0 <= j < |s.tokens| ==> SameRegistration(s.threads[t], s'.threads[t], j)
    requires ThreadOk(s', t)
    ensures Sync(s')
  {
    PipeStepKeepsThreads(s, s', t, p);
    hide TokenOk, ThreadOk;
    KeepLocks(s, s', t, t);
    KeepTokens(s, s', t);
  }

  lemma PipeStepKeepsThreads(s: System, s': System, t: ThreadId, p: PipeId)
    requires Sync(s) && Moves(s, s', t, t) && s'.tokens == s.tokens
    requires p < |s.pipes| && PipeHeld(s.threads[t]) == Some(p)
    requires forall q :: 0 <= q < |s.pipes| && q != p ==> s'.pipes[q].pipe == s.pipes[q].pipe
    requires forall u :: 0 <= u < |s.threads| && u != t && s'.threads[u].ParkedOn(p) ==>
               NothingToDo(s'.pipes[p].pipe, s'.threads[u].call)
    ensures forall u :: 0 <= u < |s'.threads| && u != t ==> ThreadOk(s', u)
  {
    forall u | 0 <= u < |s'.threads| && u != t
      ensures ThreadOk(s', u)
    {
      assert ThreadOk(s, u);
      if s.threads[u].AboutToWait? {
        assert PipeHeld(s.threads[u]) == Some(s.threads[u].call.pipe);
        assert s.threads[u].call.pipe != p;
      }
      hide TokenOk, PipeLocks, TokenLocks;
      KeepThread(s, s', u);
    }
  }

  // ---- One lemma for each kind of step -------------------------------------------------------

  /** The moves of a thread that change nothing but mutexes. */
  predicate SimpleMove(s: System, th: Thread, th': Thread)
  {
    match th
    case Registering(c) => th' == RegisteringHeld(c)
    case RegisteringHeld(c) => th' == SelfWaking(c) && StopSeen(s, c)
    case SelfWaking(c) => th' == SelfWakingHeld(c)
    case SelfWakingHeld(c) => th' == Entering(c.(wakes := c.wakes + 1))
    case Entering(c) => th' == Turning(c)
    case AboutToWait(c) => th' == Parked(c)
    case Parked(c) => th' == Entering(c)
    case Leaving(c, r) => if c.registration == None then th' == Idle else th' == LeavingHeld(c, r)
    case Stopping(k) => th' == StoppingHeld(k)
    case StoppingHeld(k) => th' == Idle
    case Closing(p, e) => th' == ClosingHeld(p, e)
    case Idle => (th'.Stopping? && th'.token < |s.tokens|) || (th'.Closing? && th'.pipe < |s.pipes|) || th' == Idle
                 || NewCall(s, th')
    case _ => false
  }

  /** A call that has just begun. */
  predicate NewCall(s: System, th: Thread)
  {
    && (th.Registering? || th.Entering?)
    && th.Registering? == th.call.token.Some?
    && th.call.pipe < |s.pipes| && !IsEmpty(th.call.op)
    && (th.call.token.Some? ==> th.call.token.value < |s.tokens|)
    && th.call.registration == None && th.call.written == th.call.wakes == 0
  }

  lemma SimpleMoveOk(s: System, s': System, t: ThreadId)
    requires t < |s.threads| == |s'.threads| && ThreadOk(s, t) && SimpleMove(s, s.threads[t], s'.threads[t])
    requires SamePipes(s, s') && OnlyTokenOwners(s, s')
    ensures ThreadOk(s', t)
    ensures forall j :: 0 <= j < |s.tokens| ==> SameRegistration(s.threads[t], s'.threads[t], j)
  {
  }

  /** A thread moves on holding no mutex, before and after. */
  lemma SyncMoves(s: System, s': System, t: ThreadId, th': Thread)
    requires Sync(s) && t < |s.threads| && s' == SetThread(s, t, th').(nextCall := s'.nextCall, returned := s'.returned)
    requires PipeHeld(s.threads[t]) == PipeHeld(th') == None
    requires TokenHeld(s.threads[t]) == TokenHeld(th') == None
    requires SimpleMove(s, s.threads[t], th')
    ensures Sync(s')
  {
    assert ThreadOk(s, t);
    SimpleMoveOk(s, s', t);
    hide ThreadOk, TokenOk, SimpleMove;
    SyncMutexStep(s, s', t);
  }

  lemma SyncTakesPipe(s: System, t: ThreadId, p: PipeId, th': Thread)
    requires Sync(s) && t < |s.threads| && PipeFree(s, p)
    requires PipeHeld(s.threads[t]) == None && PipeHeld(th') == Some(p)
    requires TokenHeld(s.threads[t]) == None && TokenHeld(th') == None
    requires SimpleMove(s, s.threads[t], th')
    ensures Sync(SetThread(SetPipeOwner(s, p, Some(t)), t, th'))
  {
    var s' := SetThread(SetPipeOwner(s, p, Some(t)), t, th');
    assert ThreadOk(s, t);
    SimpleMoveOk(s, s', t);
    hide ThreadOk, TokenOk, SimpleMove;
    SyncMutexStep(s, s', t);
  }

  lemma SyncTakesToken(s: System, t: ThreadId, k: TokenId, th': Thread)
    requires Sync(s) && t < |s.threads| && TokenFree(s, k)
    requires PipeHeld(s.threads[t]) == None && PipeHeld(th') == None
    requires TokenHeld(s.threads[t]) == None && TokenHeld(th') == Some(k)
    requires SimpleMove(s, s.threads[t], th')
    ensures Sync(SetThread(SetTokenOwner(s, k, Some(t)), t, th'))
  {
    var s' := SetThread(SetTokenOwner(s, k, Some(t)), t, th');
    assert ThreadOk(s, t);
    SimpleMoveOk(s, s', t);
    hide ThreadOk, TokenOk, SimpleMove;
    SyncMutexStep(s, s', t);
  }

  lemma SyncDropsToken(s: System, t: ThreadId, k: TokenId, th': Thread)
    requires Sync(s) && t < |s.threads| && k < |s.tokens|
    requires PipeHeld(s.threads[t]) == None && PipeHeld(th') == None
    requires TokenHeld(s.threads[t]) == Some(k) && TokenHeld(th') == None
    requires SimpleMove(s, s.threads[t], th')
    ensures Sync(SetThread(SetTokenOwner(s, k, None), t, th'))
  {
    var s' := SetThread(SetTokenOwner(s, k, None), t, th');
    assert ThreadOk(s, t);
    SimpleMoveOk(s, s', t);
    assert !s.threads[t].Calling? && !s.threads[t].InCallback?;
    hide ThreadOk, TokenOk, SimpleMove;
    SyncMutexStep(s, s', t);
  }

  /** A thread lets a pipe's mutex go, with or without notifying everyone on the pipe. */
  lemma SyncDropsPipe(s: System, threads: seq<Thread>, t: ThreadId, p: PipeId, th': Thread)
    requires Sync(s) && t < |s.threads| == |threads| && p < |s.pipes|
    requires PipeHeld(s.threads[t]) == Some(p) && PipeHeld(th') == None
    requires TokenHeld(s.threads[t]) == None && TokenHeld(th') == None
    requires forall u :: 0 <= u < |threads| ==> Kept(s.threads[u], threads[u])
    requires SimpleMove(s, s.threads[t], th')
    ensures Sync(SetThread(SetPipeOwner(s.(threads := threads), p, None), t, th'))
  {
    hide ThreadOk, TokenOk, SimpleMove, Kept, Sync, Moves, TokensFollow, PipesFollow, SameRegistration;
    var s' := SetThread(SetPipeOwner(s.(threads := threads), p, None), t, th');
    ThreadIsOk(s, t);
    SimpleMoveOk(s, s', t);
    HolderOwns(s, t, p);
    DropMoves(s, s', t, p);
    HolderIsNoCaller(s, t, p);
    SyncMutexStep(s, s', t);
  }

  lemma HolderOwns(s: System, t: ThreadId, p: PipeId)
    requires Sync(s) && t < |s.threads| && PipeHeld(s.threads[t]) == Some(p)
    ensures p < |s.pipes| && s.pipes[p].owner == Some(t)
  {
    hide ThreadOk, TokenOk;
  }

  lemma HolderIsNoCaller(s: System, t: ThreadId, p: PipeId)
    requires t < |s.threads| && PipeHeld(s.threads[t]) == Some(p) && TokenHeld(s.threads[t]) == None
    ensures !s.threads[t].Calling? && !s.threads[t].InCallback?
  {
  }

  /** Letting go of a pipe's mutex changes no other thread's and no token's. */
  lemma DropMoves(s: System, s': System, t: ThreadId, p: PipeId)
    requires t < |s.threads| == |s'.threads| && p < |s.pipes| && s.pipes[p].owner == Some(t)
    requires PipeHeld(s.threads[t]) == Some(p) && PipeHeld(s'.threads[t]) == None
    requires TokenHeld(s.threads[t]) == None && TokenHeld(s'.threads[t]) == None
    requires s'.tokens == s.tokens && s'.pipes == s.pipes[p := s.pipes[p].(owner := None)]
    requires forall u :: 0 <= u < |s.threads| && u != t ==> Kept(s.threads[u], s'.threads[u])
    ensures Moves(s, s', t, t) && SamePipes(s, s') && OnlyTokenOwners(s, s')
  {
    hide Kept, PipeHeld, TokenHeld;
  }

  /** `t`, owner of the mutex of `k`, steps from `s` to `s'`: what it owes the token, itself and the others. */
  ghost predicate TokenStepOk(s: System, s': System, t: ThreadId, w: ThreadId, k: TokenId)
  {
    && t < |s.threads| == |s'.threads| && w < |s.threads| && k < |s.tokens| == |s'.tokens|
    && TokenOk(s', k) && ThreadOk(s', t) && ThreadOk(s', w)
    && (forall u :: 0 <= u < |s.threads| && u != t && u != w ==> SameFor(s.tokens[k], s'.tokens[k], u))
  }

  lemma RegisterOk(s: System, t: ThreadId, c: Call, k: TokenId)
    requires t < |s.threads| && k < |s.tokens| && TokenOk(s, k) && ThreadOk(s, t)
    requires s.threads[t] == RegisteringHeld(c) && c.token == Some(k) && !s.tokens[k].stopRequested
    ensures TokenStepOk(s, Register(s, t, c), t, t, k)
  {
  }

  lemma RegisterMoves(s: System, t: ThreadId, c: Call, k: TokenId)
    requires t < |s.threads| && k < |s.tokens| && s.tokens[k].owner == Some(t)
    requires s.threads[t] == RegisteringHeld(c) && c.token == Some(k) && !s.tokens[k].stopRequested
    ensures var s' := Register(s, t, c); Moves(s, s', t, t) && SamePipes(s, s')
  {
  }

  lemma SyncRegisters(s: System, t: ThreadId, c: Call, k: TokenId)
    requires Sync(s) && t < |s.threads| && k < |s.tokens|
    requires s.threads[t] == RegisteringHeld(c) && c.token == Some(k) && !s.tokens[k].stopRequested
    ensures Sync(Register(s, t, c))
  {
    assert s.tokens[k].owner == Some(t) by { assert TokenHeld(s.threads[t]) == Some(k); }
    assert TokenOk(s, k) && ThreadOk(s, t);
    RegisterOk(s, t, c, k);
    RegisterMoves(s, t, c, k);
    hide TokenOk, ThreadOk, SameFor, Moves, SamePipes, Sync;
    SyncTokenStep(s, Register(s, t, c), t, t, k);
  }

  lemma UnregisterOk(s: System, t: ThreadId, c: Call, r: int, k: TokenId)
    requires t < |s.threads| && k < |s.tokens| && TokenOk(s, k) && ThreadOk(s, t)
    requires s.threads[t] == LeavingHeld(c, r) && c.token == Some(k) && c.registration.Some?
    requires s.tokens[k].owner == Some(t)
    ensures TokenStepOk(s, Return(Unregister(s, k, c.registration.value), t, c, r), t, t, k)
  {
  }

  lemma UnregisterMoves(s: System, t: ThreadId, c: Call, r: int, k: TokenId)
    requires t < |s.threads| && k < |s.tokens| && s.tokens[k].owner == Some(t)
    requires s.threads[t] == LeavingHeld(c, r) && c.token == Some(k) && c.registration.Some?
    ensures var s' := Return(Unregister(s, k, c.registration.value), t, c, r); Moves(s, s', t, t) && SamePipes(s, s')
  {
  }

  lemma SyncUnregisters(s: System, t: ThreadId, c: Call, r: int, k: TokenId)
    requires Sync(s) && t < |s.threads| && k < |s.tokens|
    requires s.threads[t] == LeavingHeld(c, r) && c.token == Some(k) && c.registration.Some?
    ensures Sync(Return(Unregister(s, k, c.registration.value), t, c, r))
  {
    assert s.tokens[k].owner == Some(t) by { assert TokenHeld(s.threads[t]) == Some(k); }
    assert TokenOk(s, k) && ThreadOk(s, t);
    UnregisterOk(s, t, c, r, k);
    UnregisterMoves(s, t, c, r, k);
    hide TokenOk, ThreadOk, SameFor, Moves, SamePipes, Sync;
    SyncTokenStep(s, Return(Unregister(s, k, c.registration.value), t, c, r), t, t, k);
  }

  lemma SignalOk(s: System, t: ThreadId, k: TokenId)
    requires t < |s.threads| && k < |s.tokens| && TokenOk(s, k) && ThreadOk(s, t)
    requires s.threads[t] == StoppingHeld(k) && !s.tokens[k].stopRequested && s.tokens[k].owner == Some(t)
    ensures TokenStepOk(s, Signal(s, t, k), t, t, k)
  {
  }

  lemma SignalMoves(s: System, t: ThreadId, k: TokenId)
    requires t < |s.threads| && k < |s.tokens| && s.threads[t] == StoppingHeld(k) && s.tokens[k].owner == Some(t)
    ensures var s' := Signal(s, t, k); Moves(s, s', t, t) && SamePipes(s, s')
  {
  }

  lemma SyncSignals(s: System, t: ThreadId, k: TokenId)
    requires Sync(s) && t < |s.threads| && k < |s.tokens|
    requires s.threads[t] == StoppingHeld(k) && !s.tokens[k].stopRequested
    ensures Sync(Signal(s, t, k))
  {
    assert s.tokens[k].owner == Some(t) by { assert TokenHeld(s.threads[t]) == Some(k); }
    assert TokenOk(s, k) && ThreadOk(s, t);
    SignalOk(s, t, k);
    SignalMoves(s, t, k);
    hide TokenOk, ThreadOk, SameFor, Moves, SamePipes, Sync;
    SyncTokenStep(s, Signal(s, t, k), t, t, k);
  }

  lemma CallNextOk(s: System, t: ThreadId, k: TokenId, id: nat)
    requires t < |s.threads| && k < |s.tokens| && TokenOk(s, k) && ThreadOk(s, t)
    requires s.threads[t] == Calling(k) && id == NextCallback(s.tokens[k], s.tokens[k].cursor) < s.tokens[k].nextId
    requires s.tokens[k].owner == Some(t) && s.tokens[k].callbacks[id].pipe < |s.pipes|
    ensures TokenStepOk(s, CallNext(s, t, k, id), t, t, k)
  {
  }

  lemma CallNextMoves(s: System, t: ThreadId, k: TokenId, id: nat)
    requires t < |s.threads| && k < |s.tokens| && id in s.tokens[k].callbacks && s.threads[t] == Calling(k)
    requires s.tokens[k].owner == Some(t) && PipeFree(s, s.tokens[k].callbacks[id].pipe)
    ensures var s' := CallNext(s, t, k, id); Moves(s, s', t, t) && SamePipes(s, s')
  {
    hide Kept;
    forall u | 0 <= u < |s.threads| && u != t
      ensures Kept(s.threads[u], CallNext(s, t, k, id).threads[u])
    {
      KeptSame(s.threads[u]);
    }
  }

  lemma SyncCallsNext(s: System, t: ThreadId, k: TokenId, id: nat)
    requires Sync(s) && t < |s.threads| && k < |s.tokens|
    requires s.threads[t] == Calling(k) && id == NextCallback(s.tokens[k], s.tokens[k].cursor) < s.tokens[k].nextId
    requires PipeFree(s, s.tokens[k].callbacks[id].pipe)
    ensures Sync(CallNext(s, t, k, id))
  {
    hide TokenOk, ThreadOk, SameFor, Moves, SamePipes, Sync, NextCallback;
    CallingIsOk(s, t, k);
    CallNextOk(s, t, k, id);
    CallNextMoves(s, t, k, id);
    SyncTokenStep(s, CallNext(s, t, k, id), t, t, k);
  }

  /** A thread going through a token's callbacks owns its mutex. */
  lemma CallingIsOk(s: System, t: ThreadId, k: TokenId)
    requires Sync(s) && t < |s.threads| && k < |s.tokens| && s.threads[t] == Calling(k)
    ensures TokenOk(s, k) && ThreadOk(s, t) && s.tokens[k].owner == Some(t)
  {
    hide TokenOk, ThreadOk;
    assert TokenHeld(s.threads[t]) == Some(k);
  }

  lemma FinishOk(s: System, t: ThreadId, k: TokenId)
    requires t < |s.threads| && k < |s.tokens| && TokenOk(s, k) && ThreadOk(s, t)
    requires s.threads[t] == Calling(k) && s.tokens[k].nextId <= NextCallback(s.tokens[k], s.tokens[k].cursor)
    ensures TokenStepOk(s, FinishStop(s, t, k), t, t, k)
  {
  }

  lemma FinishMoves(s: System, t: ThreadId, k: TokenId)
    requires t < |s.threads| && k < |s.tokens| && s.threads[t] == Calling(k) && s.tokens[k].owner == Some(t)
    ensures var s' := FinishStop(s, t, k); Moves(s, s', t, t) && SamePipes(s, s')
  {
  }

  lemma SyncFinishes(s: System, t: ThreadId, k: TokenId)
    requires Sync(s) && t < |s.threads| && k < |s.tokens|
    requires s.threads[t] == Calling(k) && s.tokens[k].nextId <= NextCallback(s.tokens[k], s.tokens[k].cursor)
    ensures Sync(FinishStop(s, t, k))
  {
    assert s.tokens[k].owner == Some(t) by { assert TokenHeld(s.threads[t]) == Some(k); }
    assert TokenOk(s, k) && ThreadOk(s, t);
    FinishOk(s, t, k);
    FinishMoves(s, t, k);
    hide TokenOk, ThreadOk, SameFor, Moves, SamePipes, Sync, NextCallback;
    SyncTokenStep(s, FinishStop(s, t, k), t, t, k);
  }

  /** What a thread running a callback finds. */
  ghost predicate CallbackAt(s: System, t: ThreadId, k: TokenId, id: nat, reg: Registration)
  {
    && t < |s.threads| && k < |s.tokens| && s.threads[t] == InCallback(k, id, reg)
    && reg.pipe < |s.pipes| && reg.thread < |s.threads| && s.threads[reg.thread].HasCall()
    && s.tokens[k].owner == Some(t)
  }

  lemma CallbackTokenOk(s: System, t: ThreadId, k: TokenId, id: nat, reg: Registration)
    requires CallbackAt(s, t, k, id, reg) && TokenOk(s, k) && ThreadOk(s, t)
    ensures TokenOk(RunCallback(s, t, k, id, reg), k)
    ensures ThreadOk(RunCallback(s, t, k, id, reg), t)
  {
    hide TokenOk, ThreadOk;
    CallbackKeepsToken(s, t, k, id, reg);
    CallbackKeepsCaller(s, t, k, id, reg);
  }

  lemma CallbackKeepsToken(s: System, t: ThreadId, k: TokenId, id: nat, reg: Registration)
    requires CallbackAt(s, t, k, id, reg) && TokenOk(s, k) && ThreadOk(s, t)
    ensures TokenOk(RunCallback(s, t, k, id, reg), k)
  {
  }

  lemma CallbackKeepsCaller(s: System, t: ThreadId, k: TokenId, id: nat, reg: Registration)
    requires CallbackAt(s, t, k, id, reg) && TokenOk(s, k) && ThreadOk(s, t)
    ensures ThreadOk(RunCallback(s, t, k, id, reg), t)
  {
  }

  /** The thread whose callback has run: no longer parked, its wake-up counted. */
  lemma CallbackWaiterOk(s: System, t: ThreadId, k: TokenId, id: nat, reg: Registration)
    requires CallbackAt(s, t, k, id, reg) && TokenOk(s, k) && ThreadOk(s, t) && ThreadOk(s, reg.thread)
    requires !s.threads[reg.thread].AboutToWait?
    ensures ThreadOk(RunCallback(s, t, k, id, reg), reg.thread)
  {
  }

  lemma CallbackOthers(s: System, t: ThreadId, k: TokenId, id: nat, reg: Registration)
    requires CallbackAt(s, t, k, id, reg) && TokenOk(s, k) && ThreadOk(s, t)
    ensures TokenChanges(s, RunCallback(s, t, k, id, reg), t, reg.thread, k)
  {
  }

  lemma CallbackMoves(s: System, t: ThreadId, k: TokenId, id: nat, reg: Registration)
    requires CallbackAt(s, t, k, id, reg)
    ensures var s' := RunCallback(s, t, k, id, reg); Moves(s, s', t, reg.thread) && SamePipes(s, s')
  {
  }

  /** In every state the protocol keeps, a callback belongs to a call that is not about to wait on its pipe. */
  lemma CallbackFinds(s: System, t: ThreadId, k: TokenId, id: nat, reg: Registration)
    requires Sync(s) && t < |s.threads| && s.threads[t] == InCallback(k, id, reg)
    ensures CallbackAt(s, t, k, id, reg)
    ensures TokenOk(s, k) && ThreadOk(s, t) && ThreadOk(s, reg.thread) && !s.threads[reg.thread].AboutToWait?
  {
    InCallbackOwns(s, t, k, id, reg);
    assert reg.thread < |s.threads| && s.threads[reg.thread].HasCall() && s.threads[reg.thread].call.pipe == reg.pipe;
    hide Sync, ThreadOk, TokenOk, PipeLocks, TokenLocks;
    ThreadIsOk(s, reg.thread);
    OnlyOwnerHolds(s, t, reg.thread, reg.pipe);
  }

  /** A thread in a callback owns the token's mutex and the pipe's. */
  lemma InCallbackOwns(s: System, t: ThreadId, k: TokenId, id: nat, reg: Registration)
    requires Sync(s) && t < |s.threads| && s.threads[t] == InCallback(k, id, reg)
    ensures k < |s.tokens| && s.tokens[k].owner == Some(t) && TokenOk(s, k) && ThreadOk(s, t)
    ensures reg.pipe < |s.pipes| && s.pipes[reg.pipe].owner == Some(t)
  {
    hide TokenOk, ThreadOk;
    assert TokenHeld(s.threads[t]) == Some(k) && PipeHeld(s.threads[t]) == Some(reg.pipe);
  }

  lemma OnlyOwnerHolds(s: System, t: ThreadId, u: ThreadId, p: PipeId)
    requires Sync(s) && t < |s.threads| && u < |s.threads| && u != t && p < |s.pipes| && s.pipes[p].owner == Some(t)
    ensures PipeHeld(s.threads[u]) != Some(p)
  {
    hide TokenOk, ThreadOk;
  }

  lemma SyncCallback(s: System, t: ThreadId, k: TokenId, id: nat, reg: Registration)
    requires Sync(s) && t < |s.threads| && s.threads[t] == InCallback(k, id, reg)
    ensures CallbackAt(s, t, k, id, reg) && Sync(RunCallback(s, t, k, id, reg))
  {
    CallbackFinds(s, t, k, id, reg);
    CallbackTokenOk(s, t, k, id, reg);
    CallbackWaiterOk(s, t, k, id, reg);
    CallbackOthers(s, t, k, id, reg);
    CallbackMoves(s, t, k, id, reg);
    hide TokenOk, ThreadOk, TokenChanges, Moves, SamePipes, Sync, RunCallback;
    SyncTokenStep(s, RunCallback(s, t, k, id, reg), t, reg.thread, k);
  }

  lemma TurnOk(s: System, s': System, t: ThreadId, c: Call, c': Call, turn: Turn)
    requires t < |s.threads| == |s'.threads| && s'.tokens == s.tokens && c.pipe < |s.pipes| == |s'.pipes|
    requires ThreadOk(s, t) && s.threads[t] == Turning(c) && s'.threads[t] == AfterTurn(c', turn)
    requires c.token.Some? && c.token.value < |s.tokens| ==> TokenOk(s, c.token.value)
    requires c' == c.(written := c'.written) && TurnDefined(c')
    requires !turn.Finished? && c.op.WriteOp? ==> c'.written < |c.op.data|
    requires turn.MustWait? ==> NothingToDo(s'.pipes[c.pipe].pipe, c') && !StopSeen(s, c)
    ensures ThreadOk(s', t)
  {
  }

  lemma TurnMoves(s: System, s': System, t: ThreadId, c: Call, c': Call, turn: Turn)
    requires t < |s.threads| && c.pipe < |s.pipes| == |s'.pipes|
    requires s.threads[t] == Turning(c) && s.pipes[c.pipe].owner == Some(t) && c'.pipe == c.pipe
    requires s'.threads == s.threads[t := AfterTurn(c', turn)]
             || s'.threads == WakeReaders(s.threads, c.pipe)[t := AfterTurn(c', turn)]
             || s'.threads == WakeWriters(s.threads, c.pipe)[t := AfterTurn(c', turn)]
    requires s'.pipes == s.pipes[c.pipe := s'.pipes[c.pipe]] && s'.pipes[c.pipe].owner == OwnerAfter(t, turn)
    requires s'.tokens == s.tokens
    ensures Moves(s, s', t, t)
  {
  }

  /** What a turn leaves parked on its pipe still has nothing to do. */
  lemma ReadLeavesParked(s: System, t: ThreadId, u: ThreadId, c: Call)
    requires t < |s.threads| && u < |s.threads| && u != t && c.pipe < |s.pipes| && c.op.ReadOp? && ThreadOk(s, u)
    requires ReadTurn(s, t, c).threads[u].ParkedOn(c.pipe)
    ensures NothingToDo(ReadTurn(s, t, c).pipes[c.pipe].pipe, ReadTurn(s, t, c).threads[u].call)
  {
  }

  lemma WriteLeavesParked(s: System, t: ThreadId, u: ThreadId, c: Call)
    requires t < |s.threads| && u < |s.threads| && u != t && c.pipe < |s.pipes| && c.op.WriteOp? && ThreadOk(s, u)
    requires s.pipes[c.pipe].pipe.Valid() && c.written <= |c.op.data|
    requires WriteTurn(s, t, c).threads[u].ParkedOn(c.pipe)
    ensures NothingToDo(WriteTurn(s, t, c).pipes[c.pipe].pipe, WriteTurn(s, t, c).threads[u].call)
  {
  }

  lemma SyncReads(s: System, t: ThreadId, c: Call)
    requires Sync(s) && t < |s.threads| && s.threads[t] == Turning(c) && c.pipe < |s.pipes| && c.op.ReadOp?
    ensures Sync(ReadTurn(s, t, c))
  {
    hide Sync, ThreadOk, TokenOk, Moves, ReadTurn, NothingToDo, SameRegistration;
    var s' := ReadTurn(s, t, c);
    TurningIsOk(s, t, c);
    ReadTurnOk(s, t, c);
    forall u | 0 <= u < |s.threads| && u != t && s'.threads[u].ParkedOn(c.pipe)
      ensures NothingToDo(s'.pipes[c.pipe].pipe, s'.threads[u].call)
    {
      ThreadIsOk(s, u);
      ReadLeavesParked(s, t, u, c);
    }
    SyncPipeStep(s, s', t, c.pipe);
  }

  lemma ThreadIsOk(s: System, t: ThreadId)
    requires Sync(s) && t < |s.threads|
    ensures ThreadOk(s, t)
  {
  }

  /** A thread at the top of a wait loop holds its pipe's mutex. */
  lemma TurningIsOk(s: System, t: ThreadId, c: Call)
    requires Sync(s) && t < |s.threads| && s.threads[t] == Turning(c) && c.pipe < |s.pipes|
    ensures ThreadOk(s, t) && PipeHeld(s.threads[t]) == Some(c.pipe) && !s.threads[t].InCallback?
    ensures s.pipes[c.pipe].owner == Some(t) && s.pipes[c.pipe].pipe.Valid()
    ensures c.token.Some? && c.token.value < |s.tokens| ==> TokenOk(s, c.token.value)
  {
    hide ThreadOk, TokenOk;
  }

  lemma ReadTurnOk(s: System, t: ThreadId, c: Call)
    requires t < |s.threads| && s.threads[t] == Turning(c) && c.pipe < |s.pipes| && c.op.ReadOp?
    requires ThreadOk(s, t) && s.pipes[c.pipe].owner == Some(t) && s.pipes[c.pipe].pipe.Valid()
    requires c.token.Some? && c.token.value < |s.tokens| ==> TokenOk(s, c.token.value)
    ensures var s' := ReadTurn(s, t, c);
            && |s'.threads| == |s.threads| && |s'.pipes| == |s.pipes|
            && ThreadOk(s', t) && Moves(s, s', t, t) && s'.tokens == s.tokens && s'.pipes[c.pipe].pipe.Valid()
            && (forall q :: 0 <= q < |s.pipes| && q != c.pipe ==> s'.pipes[q].pipe == s.pipes[q].pipe)
            && forall j :: 0 <= j < |s.tokens| ==> SameRegistration(s.threads[t], s'.threads[t], j)
  {
    var s' := ReadTurn(s, t, c);
    var (p, turn, bytes) := ReadPass(s.pipes[c.pipe].pipe, c.op.count, StopSeen(s, c));
    TurnOk(s, s', t, c, c, turn);
    TurnMoves(s, s', t, c, c, turn);
    assert s'.threads[t].HasCall() && s'.threads[t].call == c;
    hide ThreadOk, TokenOk, Moves, AfterTurn, OwnerAfter;
  }

  lemma SyncWrites(s: System, t: ThreadId, c: Call)
    requires Sync(s) && t < |s.threads| && s.threads[t] == Turning(c) && c.pipe < |s.pipes| && c.op.WriteOp?
    requires c.written < |c.op.data|
    ensures s.pipes[c.pipe].pipe.Valid() && Sync(WriteTurn(s, t, c))
  {
    hide Sync, ThreadOk, TokenOk, Moves, WriteTurn, NothingToDo, SameRegistration;
    TurningIsOk(s, t, c);
    var s' := WriteTurn(s, t, c);
    WriteTurnOk(s, t, c);
    forall u | 0 <= u < |s.threads| && u != t && s'.threads[u].ParkedOn(c.pipe)
      ensures NothingToDo(s'.pipes[c.pipe].pipe, s'.threads[u].call)
    {
      ThreadIsOk(s, u);
      WriteLeavesParked(s, t, u, c);
    }
    SyncPipeStep(s, s', t, c.pipe);
  }

  lemma WriteTurnOk(s: System, t: ThreadId, c: Call)
    requires t < |s.threads| && s.threads[t] == Turning(c) && c.pipe < |s.pipes| && c.op.WriteOp? && c.written < |c.op.data|
    requires ThreadOk(s, t) && s.pipes[c.pipe].owner == Some(t) && s.pipes[c.pipe].pipe.Valid()
    requires c.token.Some? && c.token.value < |s.tokens| ==> TokenOk(s, c.token.value)
    ensures var s' := WriteTurn(s, t, c);
            && |s'.threads| == |s.threads| && |s'.pipes| == |s.pipes|
            && ThreadOk(s', t) && Moves(s, s', t, t) && s'.tokens == s.tokens && s'.pipes[c.pipe].pipe.Valid()
            && (forall q :: 0 <= q < |s.pipes| && q != c.pipe ==> s'.pipes[q].pipe == s.pipes[q].pipe)
            && forall j :: 0 <= j < |s.tokens| ==> SameRegistration(s.threads[t], s'.threads[t], j)
  {
    var s' := WriteTurn(s, t, c);
    var (p, turn, w) := WritePass(s.pipes[c.pipe].pipe, c.op.data, c.written, StopSeen(s, c));
    TurnOk(s, s', t, c, c.(written := w), turn);
    TurnMoves(s, s', t, c, c.(written := w), turn);
    assert s'.threads[t].HasCall() && s'.threads[t].call == c.(written := w);
    hide ThreadOk, TokenOk, Moves, AfterTurn, OwnerAfter;
  }

  lemma SyncCloses(s: System, t: ThreadId, p: PipeId, e: End)
    requires Sync(s) && t < |s.threads| && s.threads[t] == ClosingHeld(p, e) && p < |s.pipes|
    ensures Sync(Close(s, t, p, e))
  {
    hide ThreadOk, TokenOk, Sync, Moves, SameRegistration, NothingToDo;
    var s' := Close(s, t, p, e);
    HolderOwns(s, t, p);
    PipeIsValid(s, p);
    CloseOk(s, t, p, e);
    forall u | 0 <= u < |s.threads| && u != t && s'.threads[u].ParkedOn(p)
      ensures NothingToDo(s'.pipes[p].pipe, s'.threads[u].call)
    {
      ThreadIsOk(s, u);
      CloseLeavesParked(s, t, p, e, u);
    }
    SyncPipeStep(s, s', t, p);
  }

  lemma PipeIsValid(s: System, p: PipeId)
    requires Sync(s) && p < |s.pipes|
    ensures s.pipes[p].pipe.Valid()
  {
    hide ThreadOk, TokenOk, PipeLocks, TokenLocks;
  }

  lemma CloseOk(s: System, t: ThreadId, p: PipeId, e: End)
    requires t < |s.threads| && s.threads[t] == ClosingHeld(p, e) && p < |s.pipes| && s.pipes[p].owner == Some(t)
    requires s.pipes[p].pipe.Valid()
    ensures var s' := Close(s, t, p, e);
            && ThreadOk(s', t) && Moves(s, s', t, t) && s'.pipes[p].pipe.Valid()
            && forall j :: 0 <= j < |s.tokens| ==> SameRegistration(s.threads[t], s'.threads[t], j)
  {
  }

  /** Closing an end wakes everybody parked. */
  lemma CloseLeavesParked(s: System, t: ThreadId, p: PipeId, e: End, u: ThreadId)
    requires t < |s.threads| && p < |s.pipes| && u < |s.threads| && u != t && ThreadOk(s, u)
    requires Close(s, t, p, e).threads[u].ParkedOn(p)
    ensures NothingToDo(Close(s, t, p, e).pipes[p].pipe, Close(s, t, p, e).threads[u].call)
  {
  }

  lemma SyncSelfWakes(s: System, t: ThreadId, c: Call)
    requires Sync(s) && t < |s.threads| && s.threads[t] == SelfWakingHeld(c) && c.pipe < |s.pipes|
    ensures Sync(SetThread(SetPipeOwner(s.(threads := WakeAll(s.threads, c.pipe)), c.pipe, None), t,
                           Entering(c.(wakes := c.wakes + 1))))
  {
    SyncDropsPipe(s, WakeAll(s.threads, c.pipe), t, c.pipe, Entering(c.(wakes := c.wakes + 1)));
  }

  lemma SyncParks(s: System, t: ThreadId, c: Call)
    requires Sync(s) && t < |s.threads| && s.threads[t] == AboutToWait(c) && c.pipe < |s.pipes|
    ensures Sync(SetThread(SetPipeOwner(s, c.pipe, None), t, Parked(c)))
  {
    assert s.(threads := s.threads) == s;
    SyncDropsPipe(s, s.threads, t, c.pipe, Parked(c));
  }

  lemma SyncTurns(s: System, t: ThreadId, c: Call)
    requires Sync(s) && CanGo(s, t) && s.threads[t] == Turning(c)
    ensures Sync(Step(s, t))
  {
    assert ThreadOk(s, t);
    hide ThreadOk, TokenOk, Sync;
    if c.op.ReadOp? {
      SyncReads(s, t, c);
    } else {
      SyncWrites(s, t, c);
    }
  }

  /** Steps around a pipe's mutex, the turns apart. */
  lemma SyncPipeSide(s: System, t: ThreadId)
    requires Sync(s) && CanGo(s, t)
    requires var th := s.threads[t];
             th.SelfWaking? || th.SelfWakingHeld? || th.Entering? || th.AboutToWait? || th.Closing? || th.ClosingHeld?
    ensures Sync(Step(s, t))
  {
    hide ThreadOk, TokenOk, Sync;
    match s.threads[t]
    case SelfWaking(c) => SyncTakesPipe(s, t, c.pipe, SelfWakingHeld(c));
    case SelfWakingHeld(c) => SyncSelfWakes(s, t, c);
    case Entering(c) => SyncTakesPipe(s, t, c.pipe, Turning(c));
    case AboutToWait(c) => SyncParks(s, t, c);
    case Closing(p, e) => SyncTakesPipe(s, t, p, ClosingHeld(p, e));
    case ClosingHeld(p, e) => SyncCloses(s, t, p, e);
  }

  /** The token's side, the callbacks apart. */
  lemma SyncTokenSide(s: System, t: ThreadId)
    requires Sync(s) && CanGo(s, t)
    requires var th := s.threads[t];
             th.Registering? || th.RegisteringHeld? || th.Leaving? || th.LeavingHeld? || th.Stopping? || th.StoppingHeld?
    ensures Sync(Step(s, t))
  {
    hide ThreadOk, TokenOk, Sync;
    match s.threads[t]
    case Registering(c) => SyncTakesToken(s, t, c.token.value, RegisteringHeld(c));
    case RegisteringHeld(c) =>
      if s.tokens[c.token.value].stopRequested {
        SyncDropsToken(s, t, c.token.value, SelfWaking(c));
      } else {
        SyncRegisters(s, t, c, c.token.value);
      }
    case Leaving(c, r) =>
      if c.registration == None {
        SyncMoves(s, Return(s, t, c, r), t, Idle);
      } else {
        SyncTakesToken(s, t, c.token.value, LeavingHeld(c, r));
      }
    case LeavingHeld(c, r) => SyncUnregisters(s, t, c, r, c.token.value);
    case Stopping(k) => SyncTakesToken(s, t, k, StoppingHeld(k));
    case StoppingHeld(k) =>
      if s.tokens[k].stopRequested {
        SyncDropsToken(s, t, k, Idle);
      } else {
        SyncSignals(s, t, k);
      }
  }

  lemma SyncStep(s: System, t: ThreadId)
    requires Sync(s) && CanGo(s, t)
    ensures Sync(Step(s, t))
  {
    hide Sync;
    match s.threads[t]
    case Calling(k) =>
      var id := NextCallback(s.tokens[k], s.tokens[k].cursor);
      if id < s.tokens[k].nextId {
        SyncCallsNext(s, t, k, id);
      } else {
        SyncFinishes(s, t, k);
      }
    case InCallback(k, id, reg) => SyncCallback(s, t, k, id, reg);
    case Turning(c) => SyncTurns(s, t, c);
    case Registering(_) => SyncTokenSide(s, t);
    case RegisteringHeld(_) => SyncTokenSide(s, t);
    case Leaving(_, _) => SyncTokenSide(s, t);
    case LeavingHeld(_, _) => SyncTokenSide(s, t);
    case Stopping(_) => SyncTokenSide(s, t);
    case StoppingHeld(_) => SyncTokenSide(s, t);
    case _ => SyncPipeSide(s, t);
  }

  lemma SyncStart(s: System, t: ThreadId, r: Request)
    requires Sync(s) && CanBegin(s, t, r)
    ensures Sync(Start(s, t, r))
  {
    var s' := Start(s, t, r);
    hide Sync;
    SyncMoves(s, s', t, s'.threads[t]);
  }

  lemma SyncWakes(s: System, t: ThreadId)
    requires Sync(s) && t < |s.threads| && s.threads[t].Parked?
    ensures Sync(SetThread(s, t, Entering(s.threads[t].call)))
  {
    hide Sync;
    SyncMoves(s, SetThread(s, t, Entering(s.threads[t].call)), t, Entering(s.threads[t].call));
  }

  lemma SyncApply(s: System, a: Action)
    requires Sync(s) && Enabled(s, a)
    ensures Sync(Apply(s, a))
  {
    hide Sync, Start, Step;
    match a
    case Begin(t, r) => SyncStart(s, t, r);
    case Go(t) => SyncStep(s, t);
    case WakeSpuriously(t) => SyncWakes(s, t);
  }

  /** Every reachable state keeps the protocol. */
  lemma {:induction false} SyncReachableIn(s: System, n: nat)
    requires ReachableIn(s, n)
    ensures Sync(s)
    decreases n
  {
    hide Sync, Enabled, Apply;
    if n == 0 {
      SyncInitially(s);
    } else {
      var s0, a :| ReachableIn(s0, n - 1) && Enabled(s0, a) && s == Apply(s0, a);
      SyncReachableIn(s0, n - 1);
      SyncApply(s0, a);
    }
  }

  lemma SyncReachable(s: System)
    requires Reachable(s)
    ensures Sync(s)
  {
    var n: nat :| ReachableIn(s, n);
    SyncReachableIn(s, n);
  }
}
