/**
 Who holds a pipe's ends: descriptor tables and references on their way, above the pipe protocol
 (src/components/HaisosOS/ProcessFileIO.cpp, src/components/PipeService/Pipe.cpp:193-217).

 References are counted as shared_ptr counts them: copying adds one, moving none, dropping takes one
 away, and the drop that takes the last runs the end's destructor, which closes that end of the pipe.
 */
module Holders {
  import opened Basics
  import opened StopTokens
  import opened PipeSystem
  import opened Descriptors

  type ProcessId = nat

  /**
   Threads and pipes, the table of every process, the references each thread holds itself, the use
   count of every file, and how many of the pipes exist: the others wait to be made.
   */
  datatype World = World(sys: System, tables: seq<Table>, hands: seq<multiset<File>>, uses: multiset<File>, made: nat)

  /** What a thread does with its process's table, a moved reference leaving the thread's hands. */
  datatype TableOp =
    | AddOp(file: File)
    | DupOp(fd: int)
    | Dup2Op(oldFd: int, newFd: int)
    | CloseOp(fd: int)
    | InstallOp(streams: (Slot, Slot, Slot))
    | PipeOp
    | ReleaseAllOp

  datatype Move =
    | Protocol(action: Action)                                     // a step of the pipe protocol, or RequestStop
    | Enter(thread: ThreadId, pipe: PipeId, op: Operation, token: Option<TokenId>)
    | Fetch(thread: ThreadId, process: ProcessId, fd: int)         // GetDescriptor
    | Share(thread: ThreadId, to: ThreadId, file: File)            // a copy handed to another thread
    | OnTable(thread: ThreadId, process: ProcessId, what: TableOp)
    | Drop(thread: ThreadId, file: File)

  function EndOf(op: Operation): End
  {
    if op.ReadOp? then ReadEnd else WriteEnd
  }

  predicate IsIdle(w: World, t: ThreadId)
  {
    t < |w.sys.threads| && t < |w.hands| && w.sys.threads[t].Idle?
  }

  /** The references an operation takes from the thread's hands. */
  function MovedBy(op: TableOp): multiset<File>
  {
    match op
    case AddOp(file) => multiset{file}
    case InstallOp(streams) => StreamReferences(streams)
    case _ => multiset{}
  }

  /** The references it makes: copies of a slot's, or the ends of a new pipe. */
  function MadeBy(op: TableOp, table: Table, made: PipeId): multiset<File>
  {
    match op
    case DupOp(fd) => if IsOpen(table, fd) then multiset{table[fd].value} else multiset{}
    case Dup2Op(oldFd, newFd) =>
      if Dupped2(table, oldFd, newFd).result >= 0 && oldFd != newFd then multiset{table[oldFd].value} else multiset{}
    case PipeOp => multiset{PipeEnd(made, ReadEnd), PipeEnd(made, WriteEnd)}
    case _ => multiset{}
  }

  function ChangeOf(op: TableOp, table: Table, made: PipeId): Descriptors.Change
  {
    match op
    case AddOp(file) => Added(table, file)
    case DupOp(fd) => Dupped(table, fd)
    case Dup2Op(oldFd, newFd) => Dupped2(table, oldFd, newFd)
    case CloseOp(fd) => Closed(table, fd)
    case InstallOp(streams) => Installed(table, streams)
    case PipeOp => Piped(table, PipeEnd(made, ReadEnd), PipeEnd(made, WriteEnd)).0
    case ReleaseAllOp => AllReleased(table)
  }

  predicate CanMove(w: World, m: Move)
  {
    match m
    case Protocol(a) => Enabled(w.sys, a) && (a.Begin? ==> a.request.RequestStop?)
    case Enter(t, p, op, k) =>
      IsIdle(w, t) && CanBegin(w.sys, t, Transfer(p, op, k)) && PipeEnd(p, EndOf(op)) in w.hands[t]
    case Fetch(t, q, fd) => IsIdle(w, t) && q < |w.tables|
    case Share(t, u, f) => IsIdle(w, t) && u < |w.hands| && f in w.hands[t]
    case OnTable(t, q, op) =>
      && IsIdle(w, t) && q < |w.tables| && MovedBy(op) <= w.hands[t]
      && (op.PipeOp? ==> w.made < |w.sys.pipes|)
    case Drop(t, f) => IsIdle(w, t) && f in w.hands[t] && (f.PipeEnd? ==> f.pipe < |w.sys.pipes|)
  }

  function Moved(w: World, m: Move): World
    requires CanMove(w, m)
  {
    match m
    case Protocol(a) => w.(sys := Apply(w.sys, a))
    case Enter(t, p, op, k) => w.(sys := Start(w.sys, t, Transfer(p, op, k)))
    case Fetch(t, q, fd) =>
      if IsOpen(w.tables[q], fd) then Copied(w, t, w.tables[q][fd].value) else w
    case Share(_, u, f) => Copied(w, u, f)
    case OnTable(t, q, op) => TableChanged(w, t, q, op)
    case Drop(t, f) => Dropped(w, t, f)
  }

  function Copied(w: World, t: ThreadId, f: File): World
    requires t < |w.hands|
  {
    w.(hands := w.hands[t := w.hands[t] + multiset{f}], uses := w.uses + multiset{f})
  }

  /** The references an operation lets go of are the thread's own until it drops them, the mutex released. */
  function TableChanged(w: World, t: ThreadId, q: ProcessId, op: TableOp): World
    requires t < |w.hands| && q < |w.tables|
  {
    var c := ChangeOf(op, w.tables[q], w.made);
    var hand := w.hands[t] - MovedBy(op) + multiset(c.released);
    World(w.sys, w.tables[q := c.table], w.hands[t := hand], w.uses + MadeBy(op, w.tables[q], w.made),
          if op.PipeOp? then w.made + 1 else w.made)
  }

  function Dropped(w: World, t: ThreadId, f: File): World
    requires IsIdle(w, t) && (f.PipeEnd? ==> f.pipe < |w.sys.pipes|)
  {
    var w' := w.(hands := w.hands[t := w.hands[t] - multiset{f}], uses := w.uses - multiset{f});
    if f.PipeEnd? && w'.uses[f] == 0 then w'.(sys := Start(w.sys, t, CloseEnd(f.pipe, f.end))) else w'
  }

  /** No pipe made yet, and nobody holding anything but other files. */
  ghost predicate Outset(w: World)
  {
    && Initial(w.sys) && |w.hands| == |w.sys.threads| && w.made == 0
    && (forall f :: w.uses[f] == HolderCount(w, f))
    && (forall f: File :: f.PipeEnd? ==> HolderCount(w, f) == 0)
  }

  ghost predicate ReachedIn(w: World, n: nat)
    decreases n
  {
    if n == 0 then Outset(w)
    else exists w0, m :: ReachedIn(w0, n - 1) && CanMove(w0, m) && w == Moved(w0, m)
  }

  ghost predicate Reached(w: World)
  {
    exists n: nat :: ReachedIn(w, n)
  }

  // ---- Counting -----------------------------------------------------------------------------------

  function InTables(tables: seq<Table>, f: File): nat
  {
    if tables == [] then 0 else InTables(tables[..|tables| - 1], f) + Held(tables[|tables| - 1], f)
  }

  function InHands(hands: seq<multiset<File>>, f: File): nat
  {
    if hands == [] then 0 else InHands(hands[..|hands| - 1], f) + hands[|hands| - 1][f]
  }

  /** How many references to the file there are, in every table and in every thread's hands. */
  function HolderCount(w: World, f: File): nat
  {
    InTables(w.tables, f) + InHands(w.hands, f)
  }

  lemma {:induction false} InTablesChanges(tables: seq<Table>, q: nat, table: Table, f: File)
    requires q < |tables|
    ensures InTables(tables[q := table], f) == InTables(tables, f) - Held(tables[q], f) + Held(table, f)
    ensures Held(tables[q], f) <= InTables(tables, f)
  {
    var n := |tables| - 1;
    if q < n {
      InTablesChanges(tables[..n], q, table, f);
      assert tables[q := table][..n] == tables[..n][q := table];
    } else {
      assert tables[q := table][..n] == tables[..n];
    }
  }

  lemma {:induction false} InHandsChanges(hands: seq<multiset<File>>, t: nat, hand: multiset<File>, f: File)
    requires t < |hands|
    ensures InHands(hands[t := hand], f) == InHands(hands, f) - hands[t][f] + hand[f]
    ensures hands[t][f] <= InHands(hands, f)
  {
    var n := |hands| - 1;
    if t < n {
      InHandsChanges(hands[..n], t, hand, f);
      assert hands[t := hand][..n] == hands[..n][t := hand];
    } else {
      assert hands[t := hand][..n] == hands[..n];
    }
  }

  /** Use counts are the numbers of references. */
  ghost predicate Conserved(w: World)
  {
    |w.hands| == |w.sys.threads| && forall f :: w.uses[f] == HolderCount(w, f)
  }

  lemma ChangeBalances(op: TableOp, table: Table, made: PipeId)
    ensures Balanced(table, MovedBy(op) + MadeBy(op, table, made), ChangeOf(op, table, made))
  {
    hide Balanced, Added, Dupped2, Closed, Installed, Piped, Referents;
    var taken := MovedBy(op) + MadeBy(op, table, made);
    match op
    case AddOp(file) => AddedBalances(table, file); assert taken == multiset{file};
    case DupOp(fd) => DuppedBalances(table, fd);
    case Dup2Op(oldFd, newFd) => Dupped2Balances(table, oldFd, newFd); assert taken == MadeBy(op, table, made);
    case CloseOp(fd) => ClosedBalances(table, fd); assert taken == multiset{};
    case InstallOp(streams) => InstalledBalances(table, streams); assert taken == MovedBy(op);
    case PipeOp =>
      PipedBalances(table, PipeEnd(made, ReadEnd), PipeEnd(made, WriteEnd));
      assert taken == MadeBy(op, table, made);
    case ReleaseAllOp => ReleaseBalances(table); assert taken == multiset{};
  }

  lemma DuppedBalances(table: Table, fd: int)
    ensures Balanced(table, MovedBy(DupOp(fd)) + MadeBy(DupOp(fd), table, 0), Dupped(table, fd))
  {
    hide Added;
    if IsOpen(table, fd) {
      AddedBalances(table, table[fd].value);
    }
  }

  lemma ReleaseBalances(table: Table)
    ensures Balanced(table, multiset{}, AllReleased(table))
  {
    AllReleasedBalances(table);
  }

  lemma TableChangeConserves(w: World, t: ThreadId, q: ProcessId, op: TableOp, f: File)
    requires t < |w.hands| && q < |w.tables| && w.uses[f] == HolderCount(w, f) && MovedBy(op) <= w.hands[t]
    ensures TableChanged(w, t, q, op).uses[f] == HolderCount(TableChanged(w, t, q, op), f)
  {
    var c := ChangeOf(op, w.tables[q], w.made);
    var (moved, copied) := (MovedBy(op), MadeBy(op, w.tables[q], w.made));
    var hand := w.hands[t] - moved + multiset(c.released);
    ChangeBalances(op, w.tables[q], w.made);
    assert Held(c.table, f) + multiset(c.released)[f] == Held(w.tables[q], f) + (moved + copied)[f];
    hide ChangeOf, MovedBy, MadeBy, Held, Balanced, InTables, InHands;
    InTablesChanges(w.tables, q, c.table, f);
    InHandsChanges(w.hands, t, hand, f);
    assert moved[f] <= w.hands[t][f];
  }

  lemma CopyConserves(w: World, t: ThreadId, g: File, f: File)
    requires t < |w.hands| && w.uses[f] == HolderCount(w, f)
    ensures Copied(w, t, g).uses[f] == HolderCount(Copied(w, t, g), f)
  {
    hide InHands, InTables;
    InHandsChanges(w.hands, t, w.hands[t] + multiset{g}, f);
  }

  lemma DropConserves(w: World, t: ThreadId, g: File, f: File)
    requires CanMove(w, Drop(t, g)) && w.uses[f] == HolderCount(w, f)
    ensures Dropped(w, t, g).uses[f] == HolderCount(Dropped(w, t, g), f)
  {
    hide InHands, InTables, Start;
    InHandsChanges(w.hands, t, w.hands[t] - multiset{g}, f);
  }

  lemma MoveConservesFile(w: World, m: Move, f: File)
    requires CanMove(w, m) && |w.hands| == |w.sys.threads| && w.uses[f] == HolderCount(w, f)
    ensures Moved(w, m).uses[f] == HolderCount(Moved(w, m), f)
  {
    hide Apply, Start, TableChanged, Copied, Dropped, Enabled, CanBegin, InTables, InHands;
    match m
    case Fetch(t, q, fd) => if IsOpen(w.tables[q], fd) { CopyConserves(w, t, w.tables[q][fd].value, f); }
    case Share(_, u, g) => CopyConserves(w, u, g, f);
    case OnTable(t, q, op) => TableChangeConserves(w, t, q, op, f);
    case Drop(t, g) => DropConserves(w, t, g, f);
    case _ =>
  }

  /** No step of any thread changes how use counts and references agree. */
  lemma MoveConserves(w: World, m: Move)
    requires Conserved(w) && CanMove(w, m) && |Moved(w, m).sys.threads| == |w.sys.threads|
    ensures Conserved(Moved(w, m))
  {
    var w' := Moved(w, m);
    assert |w'.hands| == |w.hands|;
    forall f
      ensures w'.uses[f] == HolderCount(w', f)
    {
      UsesAre(w, f);
      hide Moved, CanMove, HolderCount;
      MoveConservesFile(w, m, f);
    }
  }

  lemma UsesAre(w: World, f: File)
    requires Conserved(w)
    ensures w.uses[f] == HolderCount(w, f)
  {
  }
}
