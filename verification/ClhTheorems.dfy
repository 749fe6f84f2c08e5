/** What the CLH lock promises over every run: mutual exclusion in FIFO order, no
    access to a dead node and no leak although addresses are reused, and a kernel
    record that never strands the thread that may go next. */
module ClhTheorems {
  import opened Basics
  import M = Mutex
  import opened ClhSpec
  import opened ClhInv

  // ----- runs ------------------------------------------------------------------

  predicate Runs(s: State, acts: seq<Action>)
    decreases acts
  {
    acts == [] || (Enabled(s, acts[0]) && Runs(Next(s, acts[0]), acts[1..]))
  }

  function Exec(s: State, acts: seq<Action>): State
    requires Runs(s, acts)
    decreases acts
  {
    if acts == [] then s else Exec(Next(s, acts[0]), acts[1..])
  }

  lemma {:induction false} RunsAppend(s: State, acts: seq<Action>, a: Action)
    requires Runs(s, acts) && Enabled(Exec(s, acts), a)
    ensures Runs(s, acts + [a]) && Exec(s, acts + [a]) == Next(Exec(s, acts), a)
    decreases acts
  {
    if acts != [] {
      assert (acts + [a])[1..] == acts[1..] + [a];
      RunsAppend(Next(s, acts[0]), acts[1..], a);
    }
  }

  /** acts lead from s0 to s. Stated through the length of acts, so that a proof that only
      passes the fact on does not unroll the run. */
  ghost predicate Reaches(s0: State, acts: seq<Action>, s: State) {
    forall n :: IsLength(acts, n) ==> Runs(s0, acts) && Exec(s0, acts) == s
  }

  lemma ReachesRun(s0: State, acts: seq<Action>, s: State)
    requires Reaches(s0, acts, s)
    ensures Runs(s0, acts) && Exec(s0, acts) == s
  {
    assert IsLength(acts, |acts|);
  }

  lemma ReachesStep(s0: State, acts: seq<Action>, s: State, a: Action)
    requires Reaches(s0, acts, s) && Enabled(s, a)
    ensures Reaches(s0, acts + [a], Next(s, a))
  {
    ReachesRun(s0, acts, s);
    RunsAppend(s0, acts, a);
  }

  lemma {:induction false} RunInv(s: State, acts: seq<Action>)
    requires Inv(s) && Runs(s, acts)
    ensures Inv(Exec(s, acts))
    decreases acts
  {
    if acts != [] {
      StepInv(s, acts[0]);
      RunInv(Next(s, acts[0]), acts[1..]);
    }
  }

  // ----- mutual exclusion and refinement of the abstract lock -------------------

  ghost predicate MutualExclusion(s: State) {
    forall t, u :: 0 <= t < |s.threads| && 0 <= u < |s.threads| &&
      InCritical(s.threads[t].pc) && InCritical(s.threads[u].pc)
      ==> t == u
  }

  lemma RunMutualExclusion(auto: bool, threads: nat, sentinel: nat, acts: seq<Action>)
    requires sentinel != NULL && Runs(Init(auto, threads, sentinel), acts)
    ensures var s := Exec(Init(auto, threads, sentinel), acts); s.destroyed || MutualExclusion(s)
  {
    InitInv(auto, threads, sentinel);
    RunInv(Init(auto, threads, sentinel), acts);
    var s := Exec(Init(auto, threads, sentinel), acts);
    forall t, u | !s.destroyed && 0 <= t < |s.threads| && 0 <= u < |s.threads| &&
                  InCritical(s.threads[t].pc) && InCritical(s.threads[u].pc)
      ensures t == u
    {
      assert OwnerInv(s, t) && OwnerInv(s, u);
    }
  }

  function Holder(s: State): Option<nat> {
    if !s.destroyed && s.owner.Some? && s.owner.value < |s.threads| && InCritical(s.threads[s.owner.value].pc)
    then s.owner else None
  }

  /** The acquisition or release a step completes. */
  function Emit(s: State, a: Action): seq<M.Event>
    requires Enabled(s, a)
  {
    if !a.Step? then []
    else if s.threads[a.t].pc == StoreHead then [M.Acquire(a.t)]
    else if s.threads[a.t].pc == StoreUnlocked then [M.Release(a.t)]
    else []
  }

  function Trace(s: State, acts: seq<Action>): seq<M.Event>
    requires Runs(s, acts)
    decreases acts
  {
    if acts == [] then [] else Emit(s, acts[0]) + Trace(Next(s, acts[0]), acts[1..])
  }

  lemma SilentOther(s: State, t: nat)
    requires !s.destroyed && t < |s.threads| && !Owns(s.threads[t].pc) && s.owner != Some(t)
    requires s.threads[t].pc == FreePrev ==> s.owner == None
    ensures Holder(NextThread(s, t)) == Holder(s)
  {
  }

  lemma SilentOwner(s: State, t: nat)
    requires !s.destroyed && t < |s.threads| && s.threads[t].pc == Critical && s.owner == Some(t)
    ensures Holder(NextThread(s, t)) == Holder(s)
  {
  }

  lemma SilentThread(s: State, t: nat)
    requires QueueInv(s) && ThreadsInv(s) && Enabled(s, Step(t)) && s.threads[t].pc !in {StoreHead, StoreUnlocked}
    ensures Holder(NextThread(s, t)) == Holder(s)
  {
    if s.threads[t].pc == Critical {
      assert OwnerInv(s, t);
      SilentOwner(s, t);
    } else {
      assert s.threads[t].pc == FreePrev ==> WaiterInv(s, t);
      SilentOther(s, t);
    }
  }

  lemma SilentMalloc(s: State, t: nat, addr: nat, junk: nat)
    requires ThreadsInv(s) && Enabled(s, Malloc(t, addr, junk))
    ensures Holder(Next(s, Malloc(t, addr, junk))) == Holder(s)
  {
  }

  lemma SilentDestroy(s: State)
    requires ThreadsInv(s) && Enabled(s, Destroy)
    ensures Holder(Next(s, Destroy)) == Holder(s) == None
  {
  }

  lemma SilentStep(s: State, a: Action)
    requires QueueInv(s) && ThreadsInv(s) && Enabled(s, a) && Emit(s, a) == []
    ensures Holder(Next(s, a)) == Holder(s)
  {
    match a
    case Malloc(t, addr, junk) => SilentMalloc(s, t, addr, junk);
    case Step(t) => SilentThread(s, t);
    case Destroy => SilentDestroy(s);
  }

  lemma LoudStep(s: State, t: nat)
    requires Core(s) && Enabled(s, Step(t)) && s.threads[t].pc in {StoreHead, StoreUnlocked}
    ensures Holder(s) == if s.threads[t].pc == StoreHead then None else Some(t)
    ensures Holder(NextThread(s, t)) == if s.threads[t].pc == StoreHead then Some(t) else None
  {
    assert OwnerInv(s, t);
  }

  lemma StepRefines(s: State, a: Action)
    requires Inv(s) && Enabled(s, a)
    ensures M.Legal(Holder(s), Emit(s, a))
    ensures M.HolderAfter(Holder(s), Emit(s, a)) == Holder(Next(s, a))
  {
    if Emit(s, a) == [] {
      SilentStep(s, a);
    } else {
      LoudStep(s, a.t);
    }
  }

  lemma {:induction false} RunRefines(s: State, acts: seq<Action>)
    requires Inv(s) && Runs(s, acts)
    ensures M.Legal(Holder(s), Trace(s, acts))
    ensures M.HolderAfter(Holder(s), Trace(s, acts)) == Holder(Exec(s, acts))
    decreases acts
  {
    if acts != [] {
      StepInv(s, acts[0]);
      StepRefines(s, acts[0]);
      RunRefines(Next(s, acts[0]), acts[1..]);
      M.LegalConcat(Holder(s), Emit(s, acts[0]), Trace(Next(s, acts[0]), acts[1..]));
    }
  }

  // ----- first come, first served ----------------------------------------------

  /** The thread that exchanges tail in this step, if one does. */
  function Exchanging(s: State, a: Action): seq<nat>
    requires Enabled(s, a)
  {
    if a.Step? && s.threads[a.t].pc == Exchange then [a.t] else []
  }

  /** The threads that exchanged tail, in that order. */
  function Exchanges(s: State, acts: seq<Action>): seq<nat>
    requires Runs(s, acts)
    decreases acts
  {
    if acts == [] then [] else Exchanging(s, acts[0]) + Exchanges(Next(s, acts[0]), acts[1..])
  }

  lemma OrderStep(s: State, a: Action)
    requires Enabled(s, a)
    ensures Next(s, a).order == s.order + Exchanging(s, a)
  {
    if a.Step? {
      match s.threads[a.t].pc
      case Exchange =>
      case _ =>
    }
  }

  lemma EnteredStep(s: State, a: Action)
    requires Enabled(s, a)
    ensures Next(s, a).entered == s.entered + M.Acquirers(Emit(s, a))
  {
    if a.Step? {
      match s.threads[a.t].pc
      case StoreHead =>
      case StoreUnlocked =>
      case _ =>
    }
  }

  lemma {:induction false} OrderRecords(s: State, acts: seq<Action>)
    requires Runs(s, acts)
    ensures Exec(s, acts).order == s.order + Exchanges(s, acts)
    decreases acts
  {
    if acts != [] {
      var s', rest := Next(s, acts[0]), acts[1..];
      OrderStep(s, acts[0]);
      OrderRecords(s', rest);
      M.Regroup(s.order, Exchanging(s, acts[0]), Exchanges(s', rest));
    }
  }

  lemma {:induction false} EnteredRecords(s: State, acts: seq<Action>)
    requires Runs(s, acts)
    ensures Exec(s, acts).entered == s.entered + M.Acquirers(Trace(s, acts))
    decreases acts
  {
    if acts != [] {
      var s', rest := Next(s, acts[0]), acts[1..];
      var now, later := Emit(s, acts[0]), Trace(s', rest);
      EnteredStep(s, acts[0]);
      EnteredRecords(s', rest);
      M.AcquirersConcat(now, later);
      M.Regroup(s.entered, M.Acquirers(now), M.Acquirers(later));
    }
  }

  /** The lock is acquired exactly in the order of the exchanges on tail. */
  lemma Fifo(auto: bool, threads: nat, sentinel: nat, acts: seq<Action>)
    requires sentinel != NULL && Runs(Init(auto, threads, sentinel), acts)
    requires !Exec(Init(auto, threads, sentinel), acts).destroyed
    ensures var s := Init(auto, threads, sentinel);
            M.Acquirers(Trace(s, acts)) <= Exchanges(s, acts)
  {
    var s := Init(auto, threads, sentinel);
    InitInv(auto, threads, sentinel);
    RunInv(s, acts);
    OrderRecords(s, acts);
    EnteredRecords(s, acts);
    var s' := Exec(s, acts);
    assert s'.order == Exchanges(s, acts) && s'.entered == M.Acquirers(Trace(s, acts));
    assert FifoInv(s');
  }

  // ----- the heap ----------------------------------------------------------------

  /** The node the next step of a thread reads, writes or frees. */
  function Touches(th: Thread): Option<nat> {
    if th.pc == InitNode then Some(th.node)
    else if th.pc in {FirstLoad, Spin, FreePrev} then Some(th.prev)
    else if th.pc == StoreUnlocked then Some(th.hd)
    else None
  }

  /** No step reads, writes or frees a dead node. */
  lemma AccessesAreLive(s: State, a: Action)
    requires Inv(s) && Enabled(s, a)
    ensures a.Step? && Touches(s.threads[a.t]).Some? ==> Touches(s.threads[a.t]).value in s.heap
    ensures a == Destroy ==> s.tail in s.heap
  {
    if a.Step? {
      var pc := s.threads[a.t].pc;
      assert Waits(pc) ==> WaiterInv(s, a.t);
      assert Owns(pc) ==> OwnerInv(s, a.t);
    }
  }

  function QueuedNodes(s: State): set<nat> {
    set i | 0 <= i < |s.nodeAt| && s.freed <= i :: s.nodeAt[i]
  }

  function UnqueuedNodes(s: State): set<nat> {
    set t | 0 <= t < |s.threads| && Private(s.threads[t].pc) :: s.threads[t].node
  }

  /** The live nodes are those of the queue and those allocated but not yet queued. */
  lemma LiveNodesExact(s: State)
    requires Inv(s) && !s.destroyed
    ensures s.heap.Keys == QueuedNodes(s) + UnqueuedNodes(s) && QueuedNodes(s) !! UnqueuedNodes(s)
  {
    forall addr | addr in s.heap
      ensures addr in QueuedNodes(s) + UnqueuedNodes(s)
    {
      assert Used(s, addr);
    }
  }

  function Allocations(acts: seq<Action>): nat {
    if acts == [] then 0 else (if acts[0].Malloc? then 1 else 0) + Allocations(acts[1..])
  }

  /** The node this step frees, if it frees one. */
  function Freeing(s: State, a: Action): Option<nat>
    requires Enabled(s, a)
  {
    match a
    case Malloc(_, _, _) => None
    case Step(t) => if s.threads[t].pc == FreePrev then Some(s.threads[t].prev) else None
    case Destroy => Some(s.tail)
  }

  function Frees(s: State, acts: seq<Action>): nat
    requires Runs(s, acts)
    decreases acts
  {
    if acts == [] then 0
    else (if Freeing(s, acts[0]).Some? then 1 else 0) + Frees(Next(s, acts[0]), acts[1..])
  }

  lemma HeapKeys(s: State, a: Action)
    requires Enabled(s, a) && (a.Step? && Touches(s.threads[a.t]).Some? ==> Touches(s.threads[a.t]).value in s.heap)
    ensures Next(s, a).heap.Keys ==
            if a.Malloc? then s.heap.Keys + {a.addr}
            else if Freeing(s, a).Some? then s.heap.Keys - {Freeing(s, a).value} else s.heap.Keys
  {
  }

  lemma HeapSize(s: State, a: Action)
    requires Inv(s) && Enabled(s, a)
    ensures |Next(s, a).heap.Keys| + (if Freeing(s, a).Some? then 1 else 0) ==
            |s.heap.Keys| + (if a.Malloc? then 1 else 0)
  {
    AccessesAreLive(s, a);
    HeapKeys(s, a);
  }

  /** Every allocation is freed at most once: what was not freed is live. */
  lemma {:induction false} FreedOnce(s: State, acts: seq<Action>)
    requires Inv(s) && Runs(s, acts)
    ensures |s.heap.Keys| + Allocations(acts) == Frees(s, acts) + |Exec(s, acts).heap.Keys|
    decreases acts
  {
    if acts != [] {
      StepInv(s, acts[0]);
      HeapSize(s, acts[0]);
      FreedOnce(Next(s, acts[0]), acts[1..]);
    }
  }

  /** Once the idle lock has been destroyed, every node, that of init included, has been freed. */
  lemma DestroyLeavesNothing(auto: bool, threads: nat, sentinel: nat, acts: seq<Action>)
    requires sentinel != NULL && Runs(Init(auto, threads, sentinel), acts)
    requires Exec(Init(auto, threads, sentinel), acts).destroyed
    ensures Exec(Init(auto, threads, sentinel), acts).heap == map[]
    ensures Frees(Init(auto, threads, sentinel), acts) == Allocations(acts) + 1
  {
    var s := Init(auto, threads, sentinel);
    InitInv(auto, threads, sentinel);
    RunInv(s, acts);
    FreedOnce(s, acts);
    assert s.heap.Keys == {sentinel};
  }

  // ----- the kernel record ---------------------------------------------------------

  predicate Armed(th: Thread) {
    th.watch.mem != NULL
  }

  /** The kernel may give the processor to a thread that is not armed, or whose
      watched word compares with the watched value as the record asks. */
  predicate Schedulable(s: State, t: nat)
    requires t < |s.threads|
  {
    var w := s.threads[t].watch;
    !Armed(s.threads[t]) || ((Load(s, w.mem) == w.value) <==> (w.neq == 0))
  }

  /** watch_mem never points to a dead node, and an armed thread is schedulable
      exactly when it is at the front of the queue and the lock has been released. */
  lemma ArmedThread(s: State, t: nat)
    requires Inv(s) && !s.destroyed && t < |s.threads| && Armed(s.threads[t])
    ensures s.threads[t].watch.mem in s.heap
    ensures Schedulable(s, t) <==> s.threads[t].ticket == s.freed && s.owner == None
  {
    assert WatchOf(s.auto, s.threads[t]);
    assert Waits(s.threads[t].pc);
    UnlockedAtFront(s, t);
    assert WaiterInv(s, t);
    assert s.nodeAt[s.threads[t].ticket] in s.heap;
  }

  predicate CanMove(s: State, t: nat) {
    t < |s.threads| && s.threads[t].pc != Idle && NextThread(s, t) != s && Schedulable(s, t)
  }

  /** A thread that does not spin on a locked node is schedulable and moves. */
  lemma BusyPc(s: State, t: nat)
    requires t < |s.threads| && s.threads[t].pc != Idle
    requires s.threads[t].pc == Spin ==> Load(s, s.threads[t].prev) != LOCKED
    ensures NextThread(s, t).threads[t].pc != s.threads[t].pc
  {
  }

  lemma BusySchedulable(s: State, t: nat)
    requires Inv(s) && !s.destroyed && t < |s.threads|
    requires Waits(s.threads[t].pc) ==> s.threads[t].ticket == s.freed && s.owner == None
    ensures Schedulable(s, t)
  {
    if Armed(s.threads[t]) {
      assert WatchOf(s.auto, s.threads[t]);
      ArmedThread(s, t);
    }
  }

  lemma BusyMoves(s: State, t: nat)
    requires Inv(s) && !s.destroyed && t < |s.threads| && s.threads[t].pc != Idle
    requires Waits(s.threads[t].pc) ==> s.threads[t].ticket == s.freed && s.owner == None
    ensures CanMove(s, t)
  {
    if Waits(s.threads[t].pc) {
      UnlockedAtFront(s, t);
    }
    BusySchedulable(s, t);
    BusyPc(s, t);
  }

  /** Whenever a thread uses the lock, one that does is schedulable and moves:
      the owner, or once the lock is released the front of the queue. */
  lemma NoDeadlock(s: State, t: nat) returns (u: nat)
    requires Inv(s) && !s.destroyed && t < |s.threads| && s.threads[t].pc != Idle
    ensures CanMove(s, u)
    ensures s.owner.Some? ==> CanMove(s, s.owner.value)
    ensures s.owner == None && s.freed < |s.order| ==> CanMove(s, s.order[s.freed])
  {
    u := t;
    if s.owner.Some? {
      u := s.owner.value;
    } else if s.freed < |s.order| {
      u := s.order[s.freed];
      assert Queued(s, u, s.freed);
    }
    BusyMoves(s, u);
  }
}
