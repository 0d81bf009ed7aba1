/**
 The stop token (src/components/libheaders/StopToken.h), one critical section at a time. `Token` is its
 state; the class `StopToken` is verified against it and the module PipeSystem interleaves the same
 functions between threads.
 */
module StopTokens {
  import opened Basics

  type ThreadId = nat
  type PipeId = nat
  type TokenId = nat

  /** A callback: the thread whose wait it ends and the pipe it wakes. */
  datatype Registration = Registration(thread: ThreadId, pipe: PipeId)

  /**
   The callbacks are a map in id order, as the source's std::map; RequestStop has run exactly those
   with an id below `cursor`, the position of its loop.
   */
  datatype Token = Token(stopRequested: bool, callbacks: map<nat, Registration>, nextId: nat, cursor: nat,
                         owner: Option<ThreadId>)

  /** The first callback at or after `i`, `nextId` when there is none. */
  function NextCallback(tok: Token, i: nat): (id: nat)
    ensures i <= tok.nextId ==> i <= id <= tok.nextId
    ensures id < tok.nextId ==> id in tok.callbacks
    ensures forall j :: i <= j < id ==> j !in tok.callbacks
    decreases tok.nextId - i
  {
    if i >= tok.nextId then tok.nextId
    else if i in tok.callbacks then i
    else NextCallback(tok, i + 1)
  }

  /** StopCallback's critical section when no stop has been requested. */
  function AddCallback(tok: Token, reg: Registration): Token
  {
    tok.(callbacks := tok.callbacks[tok.nextId := reg], nextId := tok.nextId + 1)
  }

  /** ~StopCallback's critical section. */
  function RemoveCallback(tok: Token, id: nat): Token
  {
    tok.(callbacks := tok.callbacks - {id})
  }

  class StopToken {
    var stopRequested: bool
    var callbacks: map<nat, Registration>
    var nextId: nat

    ghost predicate Valid()
      reads this
    {
      forall id :: id in callbacks ==> id < nextId
    }

    /** The token outside every critical section. */
    ghost function View(): (tok: Token)
      reads this
    {
      Token(stopRequested, callbacks, nextId, if stopRequested then nextId else 0, None)
    }

    constructor ()
      ensures Valid() && View() == Token(false, map[], 0, 0, None)
    {
      stopRequested, callbacks, nextId := false, map[], 0;
    }

    /** StopCallback's constructor: registers, or says that a stop was requested already. */
    method Register(reg: Registration) returns (id: Option<nat>)
      requires Valid()
      modifies this
      ensures Valid()
      ensures old(stopRequested) ==> id == None && View() == old(View())
      ensures !old(stopRequested) ==>
                && id == Some(old(nextId)) && old(nextId) !in old(callbacks) && View() == old(AddCallback(View(), reg))
                && callbacks == old(callbacks)[old(nextId) := reg] && nextId == old(nextId) + 1 && !stopRequested
    {
      if stopRequested {
        return None;
      }
      id := Some(nextId);
      callbacks := callbacks[nextId := reg];
      nextId := nextId + 1;
    }

    /** ~StopCallback. */
    method Unregister(id: nat)
      requires Valid()
      modifies this
      ensures Valid() && View() == old(RemoveCallback(View(), id))
      ensures callbacks == old(callbacks) - {id} && nextId == old(nextId) && stopRequested == old(stopRequested)
    {
      callbacks := callbacks - {id};
    }

    /** Sets the flag and runs every registered callback once, in id order; does nothing the second time. */
    method RequestStop() returns (ran: seq<nat>)
      requires Valid()
      modifies this`stopRequested
      ensures Valid() && stopRequested
      ensures old(stopRequested) ==> ran == []
      ensures !old(stopRequested) ==>
                && (forall id :: id in ran <==> id in callbacks)
                && (forall i, j :: 0 <= i < j < |ran| ==> ran[i] < ran[j])
    {
      ran := [];
      if stopRequested {
        return;
      }
      stopRequested := true;
      ghost var cursor := 0;
      var id := NextCallback(Token(true, callbacks, nextId, 0, None), 0);
      while id < nextId
        invariant cursor <= id <= nextId
        invariant id < nextId ==> id in callbacks
        invariant forall j :: cursor <= j < id ==> j !in callbacks
        invariant forall j :: j in ran <==> j in callbacks && j < cursor
        invariant forall i, j :: 0 <= i < j < |ran| ==> ran[i] < ran[j]
        decreases nextId - id
      {
        forall i | 0 <= i < |ran|
          ensures ran[i] < id
        {
          assert ran[i] in ran;
        }
        ran := ran + [id];
        cursor := id + 1;
        id := NextCallback(Token(true, callbacks, nextId, 0, None), id + 1);
      }
    }
  }
}
