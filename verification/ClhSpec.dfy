/** The CLH queue lock as a state machine: every thread spins on the node its
    predecessor will unlock, frees that node, and leaves its own to its successor.
    The allocator may hand out any address that is not live, so freed addresses
    come back. One access to shared memory is one step.

    `order`, `nodeAt`, `freed`, `owner` and `entered` are history: no branch of a
    step looks at them. */
module ClhSpec {
  import opened Basics

  const UNLOCKED: nat := 1
  const LOCKED: nat := 0
  const NULL: nat := 0

  datatype Pc =
    | Idle
      // lock
    | InitNode     // store node->mem = LOCKED
    | Exchange     // exchange tail
    | FirstLoad    // load prev_node->mem
    | SetFor       // store watch_for = UNLOCKED
    | SetNeq       // store watch_neq = 0
    | SetMem       // store watch_mem = &prev_node->mem
    | LoadHead     // load head, compare with prev_node
    | Spin         // load prev_node->mem until unlocked
    | ClearMem     // store watch_mem = NULL
    | FreePrev     // free(prev_node)
    | StoreHead    // store head = node
      // unlock
    | Critical     // load head
    | StoreUnlocked// store head->mem = UNLOCKED

  /** struct kernel_autolock_abi of a thread. */
  datatype Watch = Watch(mem: nat, value: nat, neq: nat)

  datatype Thread = Thread(pc: Pc, node: nat, prev: nat, near: bool, hd: nat, ticket: nat, watch: Watch)

  datatype State = State(
    auto: bool, tail: nat, head: nat, heap: map<nat, nat>, destroyed: bool, threads: seq<Thread>,
    order: seq<nat>, nodeAt: seq<nat>, freed: nat, owner: Option<nat>, entered: seq<nat>)

  datatype Action =
    | Malloc(t: nat, addr: nat, junk: nat)  // lock: aligned_alloc returns addr, its memory holds junk
    | Step(t: nat)
    | Destroy                               // by the caller, once no thread uses the lock

  // ----- the machine ----------------------------------------------------------

  function Init(auto: bool, threads: nat, sentinel: nat): State {
    State(auto, sentinel, NULL, map[sentinel := UNLOCKED], false,
          seq(threads, _ => Thread(Idle, NULL, NULL, false, NULL, 0, Watch(NULL, 0, 0))),
          [], [sentinel], 0, None, [])
  }

  predicate Enabled(s: State, a: Action) {
    && !s.destroyed
    && match a
       case Malloc(t, addr, _) =>
         t < |s.threads| && s.threads[t].pc == Idle && addr != NULL && addr !in s.heap
       case Step(t) => t < |s.threads| && s.threads[t].pc != Idle
       case Destroy => forall t :: 0 <= t < |s.threads| ==> s.threads[t].pc == Idle
  }

  /** A load from a dead node reads anything; see ClhTheorems.AccessesAreLive. */
  function Load(s: State, addr: nat): nat {
    if addr in s.heap then s.heap[addr] else UNLOCKED
  }

  function Put(s: State, t: nat, th: Thread): State
    requires t < |s.threads|
  {
    s.(threads := s.threads[t := th])
  }

  function Goto(s: State, t: nat, pc: Pc): State
    requires t < |s.threads|
  {
    Put(s, t, s.threads[t].(pc := pc))
  }

  function NextThread(s: State, t: nat): State
    requires t < |s.threads|
  {
    var th := s.threads[t];
    match th.pc
    case Idle => s
    case InitNode => Goto(s, t, Exchange).(heap := s.heap[th.node := LOCKED])
    case Exchange =>
      Put(s, t, th.(pc := FirstLoad, prev := s.tail, ticket := |s.order|))
      .(tail := th.node, order := s.order + [t], nodeAt := s.nodeAt + [th.node])
    case FirstLoad =>
      Goto(s, t, if Load(s, th.prev) != LOCKED then FreePrev else if s.auto then SetFor else LoadHead)
    case SetFor => Put(s, t, th.(pc := SetNeq, watch := th.watch.(value := UNLOCKED)))
    case SetNeq => Put(s, t, th.(pc := SetMem, watch := th.watch.(neq := 0)))
    case SetMem => Put(s, t, th.(pc := LoadHead, watch := th.watch.(mem := th.prev)))
    case LoadHead => Put(s, t, th.(pc := Spin, near := s.head == th.prev))
    case Spin =>
      if Load(s, th.prev) != LOCKED then Goto(s, t, if s.auto then ClearMem else FreePrev) else s
    case ClearMem => Put(s, t, th.(pc := FreePrev, watch := th.watch.(mem := NULL)))
    case FreePrev =>
      Goto(s, t, StoreHead).(heap := s.heap - {th.prev}, freed := s.freed + 1, owner := Some(t))
    case StoreHead => Goto(s, t, Critical).(head := th.node, entered := s.entered + [t])
    case Critical => Put(s, t, th.(pc := StoreUnlocked, hd := s.head))
    case StoreUnlocked => Goto(s, t, Idle).(heap := s.heap[th.hd := UNLOCKED], owner := None)
  }

  function Next(s: State, a: Action): State
    requires Enabled(s, a)
  {
    match a
    case Malloc(t, addr, junk) =>
      Put(s, t, s.threads[t].(pc := InitNode, node := addr)).(heap := s.heap[addr := junk])
    case Step(t) => NextThread(s, t)
    case Destroy => s.(heap := s.heap - {s.tail}, destroyed := true)
  }

  // ----- the invariant --------------------------------------------------------

  /** Has allocated a node that is not in the queue yet. */
  predicate Private(pc: Pc) {
    pc in {InitNode, Exchange}
  }

  /** Queued behind a predecessor whose node it has not freed. */
  predicate Waits(pc: Pc) {
    pc in {FirstLoad, SetFor, SetNeq, SetMem, LoadHead, Spin, ClearMem, FreePrev}
  }

  /** Has freed the predecessor's node and not yet unlocked its own. */
  predicate Owns(pc: Pc) {
    pc in {StoreHead, Critical, StoreUnlocked}
  }

  predicate InCritical(pc: Pc) {
    pc in {Critical, StoreUnlocked}
  }

  /** The queue: node i is live once i nodes have been freed. */
  ghost predicate QueueInv(s: State) {
    && |s.nodeAt| == |s.order| + 1 && s.freed <= |s.order| && s.tail == s.nodeAt[|s.order|]
    && (forall i, j :: s.freed <= i < j < |s.nodeAt| ==> s.nodeAt[i] != s.nodeAt[j])
    && (forall i :: s.freed <= i < |s.nodeAt| ==>
          s.nodeAt[i] in s.heap && s.nodeAt[i] != NULL &&
          s.heap[s.nodeAt[i]] == if i == s.freed && s.owner == None then UNLOCKED else LOCKED)
    && (forall k :: s.freed <= k < |s.order| ==> Queued(s, s.order[k], k))
  }

  ghost predicate Queued(s: State, t: nat, k: nat) {
    t < |s.threads| && Waits(s.threads[t].pc) && s.threads[t].ticket == k
  }

  ghost predicate WaiterInv(s: State, t: nat)
    requires t < |s.threads|
  {
    var th := s.threads[t];
    && s.freed <= th.ticket < |s.order| && th.ticket + 1 < |s.nodeAt| && s.order[th.ticket] == t
    && th.prev == s.nodeAt[th.ticket] && th.node == s.nodeAt[th.ticket + 1]
    && (th.pc in {ClearMem, FreePrev} ==> th.ticket == s.freed && s.owner == None)
  }

  ghost predicate OwnerInv(s: State, t: nat)
    requires t < |s.threads|
  {
    var th := s.threads[t];
    && s.owner == Some(t) && 0 < s.freed <= |s.order| && s.order[s.freed - 1] == t
    && s.freed < |s.nodeAt| && th.node == s.nodeAt[s.freed]
    && (InCritical(th.pc) ==> s.head == th.node)
    && (th.pc == StoreUnlocked ==> th.hd == th.node)
  }

  ghost predicate ThreadsInv(s: State) {
    && (forall t :: 0 <= t < |s.threads| && Waits(s.threads[t].pc) ==> WaiterInv(s, t))
    && (forall t :: 0 <= t < |s.threads| && Owns(s.threads[t].pc) ==> OwnerInv(s, t))
    && (s.owner.Some? ==> s.owner.value < |s.threads| && Owns(s.threads[s.owner.value].pc))
  }

  /** Unqueued nodes: live, owned by one thread, not in the queue. */
  ghost predicate PrivateInv(s: State) {
    && (forall t :: 0 <= t < |s.threads| && Private(s.threads[t].pc) ==>
          s.threads[t].node in s.heap && s.threads[t].node != NULL &&
          (s.threads[t].pc == Exchange ==> s.heap[s.threads[t].node] == LOCKED))
    && (forall t, i :: 0 <= t < |s.threads| && Private(s.threads[t].pc) && s.freed <= i < |s.nodeAt| ==>
          s.nodeAt[i] != s.threads[t].node)
    && (forall t, u :: 0 <= t < u < |s.threads| && Private(s.threads[t].pc) && Private(s.threads[u].pc) ==>
          s.threads[t].node != s.threads[u].node)
  }

  /** No live node is without a user: a leak would be one. */
  ghost predicate Used(s: State, addr: nat) {
    || (exists i :: s.freed <= i < |s.nodeAt| && s.nodeAt[i] == addr)
    || (exists t :: 0 <= t < |s.threads| && Private(s.threads[t].pc) && s.threads[t].node == addr)
  }

  ghost predicate HeapInv(s: State) {
    forall addr :: addr in s.heap ==> Used(s, addr)
  }

  /** The kernel record: armed only while waiting, on the predecessor's node. */
  ghost predicate WatchInv(s: State) {
    forall t :: 0 <= t < |s.threads| ==> WatchOf(s.auto, s.threads[t])
  }

  ghost predicate WatchOf(auto: bool, th: Thread) {
    && (th.pc in {SetNeq, SetMem} ==> th.watch.value == UNLOCKED)
    && (th.pc == SetMem ==> th.watch.neq == 0)
    && (th.pc in {SetFor, SetNeq, SetMem, ClearMem} ==> auto)
    && if auto && th.pc in {LoadHead, Spin, ClearMem}
       then th.watch == Watch(th.prev, UNLOCKED, 0) else th.watch.mem == NULL
  }

  /** The owner has freed its predecessor's node and not yet returned from lock. */
  predicate Entering(s: State) {
    s.owner.Some? && s.owner.value < |s.threads| && s.threads[s.owner.value].pc == StoreHead
  }

  /** Threads have entered in the order of their exchanges. */
  ghost predicate FifoInv(s: State) {
    && |s.entered| + (if Entering(s) then 1 else 0) == s.freed <= |s.order|
    && forall k :: 0 <= k < |s.entered| ==> s.entered[k] == s.order[k]
  }

  ghost predicate Core(s: State) {
    !s.destroyed && QueueInv(s) && ThreadsInv(s) && PrivateInv(s) && WatchInv(s) && FifoInv(s)
  }

  ghost predicate Inv(s: State) {
    if s.destroyed then s.heap == map[] else Core(s) && HeapInv(s)
  }
}
