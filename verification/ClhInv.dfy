/** Every step of the CLH lock preserves its invariant. */
module ClhInv {
  import opened Basics
  import opened ClhSpec

  lemma InitInv(auto: bool, threads: nat, sentinel: nat)
    requires sentinel != NULL
    ensures Inv(Init(auto, threads, sentinel))
  {
    var s := Init(auto, threads, sentinel);
    assert s.nodeAt[0] == sentinel;
  }

  /** A node in use stays in use while it is not freed, unlinked or given up. */
  lemma StillUsed(s: State, s': State, addr: nat)
    requires Used(s, addr) && s.freed == s'.freed && s.nodeAt <= s'.nodeAt && |s.threads| == |s'.threads|
    requires forall t :: 0 <= t < |s.threads| && Private(s.threads[t].pc) ==>
               Private(s'.threads[t].pc) && s'.threads[t].node == s.threads[t].node
    ensures Used(s', addr)
  {
    if i :| s.freed <= i < |s.nodeAt| && s.nodeAt[i] == addr {
      assert s'.nodeAt[i] == addr;
    } else {
      var t :| 0 <= t < |s.threads| && Private(s.threads[t].pc) && s.threads[t].node == addr;
      assert s'.threads[t].node == addr;
    }
  }

  lemma WatchKept(s: State, s': State, t: nat)
    requires WatchInv(s) && t < |s.threads| == |s'.threads| && s'.auto == s.auto
    requires s'.threads == s.threads[t := s'.threads[t]] && WatchOf(s.auto, s'.threads[t])
    ensures WatchInv(s')
  {
  }

  // ----- waiting ---------------------------------------------------------------

  /** A step of a waiting thread that touches only its own registers and record. */
  ghost predicate WaitStep(s: State, t: nat, th': Thread)
    requires t < |s.threads|
  {
    var th := s.threads[t];
    && Waits(th.pc) && Waits(th'.pc)
    && th'.node == th.node && th'.prev == th.prev && th'.ticket == th.ticket
    && (th'.pc in {ClearMem, FreePrev} ==> th.ticket == s.freed && s.owner == None)
  }

  lemma WaitStepQueue(s: State, t: nat, th': Thread)
    requires QueueInv(s) && t < |s.threads| && WaitStep(s, t, th')
    ensures QueueInv(Put(s, t, th'))
  {
  }

  lemma WaitStepThreads(s: State, t: nat, th': Thread)
    requires QueueInv(s) && ThreadsInv(s) && t < |s.threads| && WaitStep(s, t, th')
    ensures ThreadsInv(Put(s, t, th'))
  {
    var s' := Put(s, t, th');
    forall u | 0 <= u < |s.threads| && Waits(s'.threads[u].pc)
      ensures WaiterInv(s', u)
    {
      assert WaiterInv(s, u);
    }
    forall u | 0 <= u < |s.threads| && Owns(s'.threads[u].pc)
      ensures OwnerInv(s', u)
    {
      assert OwnerInv(s, u);
    }
  }

  lemma WaitStepOthers(s: State, t: nat, th': Thread)
    requires ThreadsInv(s) && PrivateInv(s) && FifoInv(s) && t < |s.threads| && WaitStep(s, t, th')
    ensures PrivateInv(Put(s, t, th')) && FifoInv(Put(s, t, th'))
  {
  }

  /** A waiter sees its predecessor's node unlocked only at the front of the queue. */
  lemma UnlockedAtFront(s: State, t: nat)
    requires QueueInv(s) && ThreadsInv(s) && t < |s.threads| && Waits(s.threads[t].pc)
    ensures s.threads[t].prev in s.heap
    ensures s.heap[s.threads[t].prev] != LOCKED <==> s.threads[t].ticket == s.freed && s.owner == None
  {
    assert WaiterInv(s, t);
    assert s.nodeAt[s.threads[t].ticket] in s.heap;
  }

  /** Only the thread changes while it waits, and it stays a waiter. */
  lemma WaitingKeepsPlace(s: State, t: nat)
    requires t < |s.threads| && Waits(s.threads[t].pc) && s.threads[t].pc != FreePrev
    ensures NextThread(s, t) == Put(s, t, NextThread(s, t).threads[t])
    ensures var th, th' := s.threads[t], NextThread(s, t).threads[t];
            && th'.node == th.node && th'.prev == th.prev && th'.ticket == th.ticket && Waits(th'.pc)
            && (th'.pc == ClearMem ==> Load(s, th.prev) != LOCKED)
            && (th'.pc == FreePrev ==> th.pc == ClearMem || Load(s, th.prev) != LOCKED)
  {
    assert s.threads[t := s.threads[t]] == s.threads;
    match s.threads[t].pc
    case FirstLoad =>
    case SetFor =>
    case SetNeq =>
    case SetMem =>
    case LoadHead =>
    case Spin =>
    case ClearMem =>
  }

  /** Only the thread changes while it waits, and it stays a waiter. */
  lemma WaitingStep(s: State, t: nat)
    requires QueueInv(s) && ThreadsInv(s) && t < |s.threads|
    requires Waits(s.threads[t].pc) && s.threads[t].pc != FreePrev
    ensures WaitStep(s, t, NextThread(s, t).threads[t])
    ensures NextThread(s, t) == Put(s, t, NextThread(s, t).threads[t])
  {
    UnlockedAtFront(s, t);
    assert WaiterInv(s, t);
    WaitingKeepsPlace(s, t);
  }

  /** The record is filled in before it is armed, and cleared before the lock is owned. */
  lemma WaitingWatch(s: State, t: nat)
    requires t < |s.threads| && WatchOf(s.auto, s.threads[t])
    requires Waits(s.threads[t].pc) && s.threads[t].pc != FreePrev
    ensures WatchOf(s.auto, NextThread(s, t).threads[t])
  {
    match s.threads[t].pc
    case FirstLoad =>
    case SetFor =>
    case SetNeq =>
    case SetMem =>
    case LoadHead =>
    case Spin =>
    case ClearMem =>
  }

  lemma WaitingCore(s: State, t: nat)
    requires Core(s) && t < |s.threads| && Waits(s.threads[t].pc) && s.threads[t].pc != FreePrev
    ensures Core(NextThread(s, t))
  {
    var th' := NextThread(s, t).threads[t];
    WaitingStep(s, t);
    WaitingWatch(s, t);
    WatchKept(s, Put(s, t, th'), t);
    WaitStepQueue(s, t, th');
    WaitStepThreads(s, t, th');
    WaitStepOthers(s, t, th');
  }

  // ----- entering and leaving the queue ---------------------------------------

  /** Writing to or adding an unqueued node changes nothing in the queue. */
  /** A thread outside the queue gets or writes a node that is not in the queue. */
  function Outside(s: State, t: nat, pc: Pc, addr: nat, value: nat): State
    requires t < |s.threads|
  {
    Put(s, t, s.threads[t].(pc := pc, node := addr)).(heap := s.heap[addr := value])
  }

  lemma OutsideQueue(s: State, t: nat, pc: Pc, addr: nat, value: nat)
    requires QueueInv(s) && t < |s.threads| && !Waits(s.threads[t].pc)
    requires forall i :: s.freed <= i < |s.nodeAt| ==> s.nodeAt[i] != addr
    ensures QueueInv(Outside(s, t, pc, addr, value))
  {
    var s' := Outside(s, t, pc, addr, value);
    forall k | s'.freed <= k < |s'.order|
      ensures Queued(s', s'.order[k], k)
    {
      assert Queued(s, s.order[k], k);
    }
  }

  lemma OutsideThreads(s: State, t: nat, pc: Pc, addr: nat, value: nat)
    requires ThreadsInv(s) && t < |s.threads| && Private(pc) && s.threads[t].pc in {Idle, InitNode}
    ensures ThreadsInv(Outside(s, t, pc, addr, value))
  {
    var s' := Outside(s, t, pc, addr, value);
    forall u | 0 <= u < |s.threads| && Waits(s'.threads[u].pc)
      ensures WaiterInv(s', u)
    {
      assert WaiterInv(s, u);
    }
    forall u | 0 <= u < |s.threads| && Owns(s'.threads[u].pc)
      ensures OwnerInv(s', u)
    {
      assert OwnerInv(s, u);
    }
  }

  lemma MallocPrivate(s: State, t: nat, addr: nat, junk: nat)
    requires QueueInv(s) && PrivateInv(s) && Enabled(s, Malloc(t, addr, junk))
    ensures PrivateInv(Outside(s, t, InitNode, addr, junk))
  {
  }

  lemma MallocOthers(s: State, t: nat, addr: nat, junk: nat)
    requires ThreadsInv(s) && FifoInv(s) && WatchInv(s) && Enabled(s, Malloc(t, addr, junk))
    ensures FifoInv(Outside(s, t, InitNode, addr, junk)) && WatchInv(Outside(s, t, InitNode, addr, junk))
  {
    assert WatchOf(s.auto, s.threads[t]);
    assert s.owner.Some? ==> s.owner.value != t;
  }

  lemma MallocCore(s: State, t: nat, addr: nat, junk: nat)
    requires Core(s) && Enabled(s, Malloc(t, addr, junk))
    ensures Core(Next(s, Malloc(t, addr, junk)))
  {
    assert Next(s, Malloc(t, addr, junk)) == Outside(s, t, InitNode, addr, junk);
    OutsideQueue(s, t, InitNode, addr, junk);
    OutsideThreads(s, t, InitNode, addr, junk);
    MallocPrivate(s, t, addr, junk);
    MallocOthers(s, t, addr, junk);
  }

  lemma InitNodeOthers(s: State, t: nat)
    requires PrivateInv(s) && ThreadsInv(s) && FifoInv(s) && t < |s.threads| && s.threads[t].pc == InitNode
    ensures PrivateInv(NextThread(s, t)) && FifoInv(NextThread(s, t))
  {
  }

  lemma InitNodeCore(s: State, t: nat)
    requires Core(s) && t < |s.threads| && s.threads[t].pc == InitNode
    ensures Core(NextThread(s, t))
  {
    assert NextThread(s, t) == Outside(s, t, Exchange, s.threads[t].node, LOCKED);
    OutsideQueue(s, t, Exchange, s.threads[t].node, LOCKED);
    OutsideThreads(s, t, Exchange, s.threads[t].node, LOCKED);
    assert WatchOf(s.auto, s.threads[t]);
    WatchKept(s, NextThread(s, t), t);
    InitNodeOthers(s, t);
  }

  lemma ExchangeQueue(s: State, t: nat)
    requires QueueInv(s) && PrivateInv(s) && t < |s.threads| && s.threads[t].pc == Exchange
    ensures QueueInv(NextThread(s, t))
  {
  }

  lemma ExchangeThreads(s: State, t: nat)
    requires QueueInv(s) && ThreadsInv(s) && t < |s.threads| && s.threads[t].pc == Exchange
    ensures ThreadsInv(NextThread(s, t))
  {
    var s' := NextThread(s, t);
    forall u | 0 <= u < |s.threads| && Waits(s'.threads[u].pc)
      ensures WaiterInv(s', u)
    {
      assert u != t ==> WaiterInv(s, u);
    }
    forall u | 0 <= u < |s.threads| && Owns(s'.threads[u].pc)
      ensures OwnerInv(s', u)
    {
      assert OwnerInv(s, u);
    }
  }

  lemma ExchangeOthers(s: State, t: nat)
    requires QueueInv(s) && ThreadsInv(s) && PrivateInv(s) && FifoInv(s)
    requires t < |s.threads| && s.threads[t].pc == Exchange
    ensures PrivateInv(NextThread(s, t)) && FifoInv(NextThread(s, t))
  {
  }

  lemma ExchangeCore(s: State, t: nat)
    requires Core(s) && t < |s.threads| && s.threads[t].pc == Exchange
    ensures Core(NextThread(s, t))
  {
    assert WatchOf(s.auto, s.threads[t]);
    WatchKept(s, NextThread(s, t), t);
    ExchangeQueue(s, t);
    ExchangeThreads(s, t);
    ExchangeOthers(s, t);
  }

  lemma FreePrevQueue(s: State, t: nat)
    requires QueueInv(s) && ThreadsInv(s) && t < |s.threads| && s.threads[t].pc == FreePrev
    ensures QueueInv(NextThread(s, t))
  {
    assert WaiterInv(s, t);
  }

  lemma FreePrevThreads(s: State, t: nat)
    requires QueueInv(s) && ThreadsInv(s) && t < |s.threads| && s.threads[t].pc == FreePrev
    ensures ThreadsInv(NextThread(s, t))
  {
    var s' := NextThread(s, t);
    assert WaiterInv(s, t);
    forall u | 0 <= u < |s.threads| && Waits(s'.threads[u].pc)
      ensures WaiterInv(s', u)
    {
      assert WaiterInv(s, u);
    }
    forall u | 0 <= u < |s.threads| && Owns(s'.threads[u].pc)
      ensures OwnerInv(s', u)
    {
    }
  }

  lemma FreePrevPrivate(s: State, t: nat)
    requires t < |s.threads| && s.threads[t].pc == FreePrev
    requires QueueInv(s) && WaiterInv(s, t) && PrivateInv(s)
    ensures PrivateInv(NextThread(s, t))
  {
  }

  lemma FreePrevFifo(s: State, t: nat)
    requires t < |s.threads| && s.threads[t].pc == FreePrev
    requires WaiterInv(s, t) && FifoInv(s)
    ensures FifoInv(NextThread(s, t))
  {
  }

  lemma FreePrevCore(s: State, t: nat)
    requires Core(s) && t < |s.threads| && s.threads[t].pc == FreePrev
    ensures Core(NextThread(s, t))
  {
    assert WaiterInv(s, t);
    assert WatchOf(s.auto, s.threads[t]);
    WatchKept(s, NextThread(s, t), t);
    FreePrevQueue(s, t);
    FreePrevThreads(s, t);
    FreePrevPrivate(s, t);
    FreePrevFifo(s, t);
  }

  // ----- owning ----------------------------------------------------------------

  lemma StoreHeadQueue(s: State, t: nat)
    requires t < |s.threads| && s.threads[t].pc == StoreHead && QueueInv(s) && OwnerInv(s, t)
    ensures QueueInv(NextThread(s, t))
  {
  }

  lemma StoreHeadThreads(s: State, t: nat)
    requires QueueInv(s) && ThreadsInv(s) && t < |s.threads| && s.threads[t].pc == StoreHead
    ensures ThreadsInv(NextThread(s, t))
  {
    var s' := NextThread(s, t);
    assert OwnerInv(s, t);
    forall u | 0 <= u < |s.threads| && Waits(s'.threads[u].pc)
      ensures WaiterInv(s', u)
    {
      assert WaiterInv(s, u);
    }
  }

  lemma StoreHeadOthers(s: State, t: nat)
    requires t < |s.threads| && s.threads[t].pc == StoreHead
    requires OwnerInv(s, t) && PrivateInv(s) && FifoInv(s)
    ensures PrivateInv(NextThread(s, t)) && FifoInv(NextThread(s, t))
  {
  }

  lemma StoreHeadCore(s: State, t: nat)
    requires Core(s) && t < |s.threads| && s.threads[t].pc == StoreHead
    ensures Core(NextThread(s, t))
  {
    assert OwnerInv(s, t);
    assert WatchOf(s.auto, s.threads[t]);
    WatchKept(s, NextThread(s, t), t);
    StoreHeadQueue(s, t);
    StoreHeadThreads(s, t);
    StoreHeadOthers(s, t);
  }

  lemma CriticalQueue(s: State, t: nat)
    requires t < |s.threads| && s.threads[t].pc == Critical && QueueInv(s) && OwnerInv(s, t)
    ensures QueueInv(NextThread(s, t))
  {
  }

  lemma CriticalThreads(s: State, t: nat)
    requires QueueInv(s) && ThreadsInv(s) && t < |s.threads| && s.threads[t].pc == Critical
    ensures ThreadsInv(NextThread(s, t))
  {
    var s' := NextThread(s, t);
    assert OwnerInv(s, t);
    forall u | 0 <= u < |s.threads| && Waits(s'.threads[u].pc)
      ensures WaiterInv(s', u)
    {
      assert WaiterInv(s, u);
    }
  }

  lemma CriticalOthers(s: State, t: nat)
    requires t < |s.threads| && s.threads[t].pc == Critical
    requires OwnerInv(s, t) && PrivateInv(s) && FifoInv(s)
    ensures PrivateInv(NextThread(s, t)) && FifoInv(NextThread(s, t))
  {
  }

  lemma CriticalCore(s: State, t: nat)
    requires Core(s) && t < |s.threads| && s.threads[t].pc == Critical
    ensures Core(NextThread(s, t))
  {
    assert OwnerInv(s, t);
    assert WatchOf(s.auto, s.threads[t]);
    WatchKept(s, NextThread(s, t), t);
    CriticalQueue(s, t);
    CriticalThreads(s, t);
    CriticalOthers(s, t);
  }

  lemma StoreUnlockedQueue(s: State, t: nat)
    requires t < |s.threads| && s.threads[t].pc == StoreUnlocked && QueueInv(s) && OwnerInv(s, t)
    ensures QueueInv(NextThread(s, t))
  {
  }

  lemma StoreUnlockedThreads(s: State, t: nat)
    requires QueueInv(s) && ThreadsInv(s) && t < |s.threads| && s.threads[t].pc == StoreUnlocked
    ensures ThreadsInv(NextThread(s, t))
  {
    var s' := NextThread(s, t);
    assert OwnerInv(s, t);
    forall u | 0 <= u < |s.threads| && Waits(s'.threads[u].pc)
      ensures WaiterInv(s', u)
    {
      assert WaiterInv(s, u);
    }
  }

  lemma StoreUnlockedOthers(s: State, t: nat)
    requires t < |s.threads| && s.threads[t].pc == StoreUnlocked
    requires OwnerInv(s, t) && PrivateInv(s) && FifoInv(s)
    ensures PrivateInv(NextThread(s, t)) && FifoInv(NextThread(s, t))
  {
  }

  lemma StoreUnlockedCore(s: State, t: nat)
    requires Core(s) && t < |s.threads| && s.threads[t].pc == StoreUnlocked
    ensures Core(NextThread(s, t))
  {
    assert OwnerInv(s, t);
    assert WatchOf(s.auto, s.threads[t]);
    WatchKept(s, NextThread(s, t), t);
    StoreUnlockedQueue(s, t);
    StoreUnlockedThreads(s, t);
    StoreUnlockedOthers(s, t);
  }

  // ----- every step ------------------------------------------------------------

  lemma StepCore(s: State, a: Action)
    requires Core(s) && Enabled(s, a) && a != Destroy
    ensures Core(Next(s, a))
  {
    match a
    case Malloc(t, addr, junk) => MallocCore(s, t, addr, junk);
    case Step(t) =>
      match s.threads[t].pc {
        case InitNode => InitNodeCore(s, t);
        case Exchange => ExchangeCore(s, t);
        case FreePrev => FreePrevCore(s, t);
        case StoreHead => StoreHeadCore(s, t);
        case Critical => CriticalCore(s, t);
        case StoreUnlocked => StoreUnlockedCore(s, t);
        case _ => WaitingCore(s, t);
      }
  }

  // ----- no leak ---------------------------------------------------------------

  lemma ExchangeHeap(s: State, t: nat, addr: nat)
    requires QueueInv(s) && Used(s, addr) && t < |s.threads| && s.threads[t].pc == Exchange
    ensures Used(NextThread(s, t), addr)
  {
    var s' := NextThread(s, t);
    if i :| s.freed <= i < |s.nodeAt| && s.nodeAt[i] == addr {
      assert s'.nodeAt[i] == addr;
    } else {
      var u :| 0 <= u < |s.threads| && Private(s.threads[u].pc) && s.threads[u].node == addr;
      assert if u == t then s'.nodeAt[|s.nodeAt|] == addr else s'.threads[u].node == addr;
    }
  }

  lemma FreePrevHeap(s: State, t: nat, addr: nat)
    requires t < |s.threads| && s.threads[t].pc == FreePrev && WaiterInv(s, t) && QueueInv(s)
    requires Used(s, addr) && addr != s.threads[t].prev
    ensures Used(NextThread(s, t), addr)
  {
    var s' := NextThread(s, t);
    if i :| s.freed <= i < |s.nodeAt| && s.nodeAt[i] == addr {
      assert s'.nodeAt[i] == addr;
    } else {
      var u :| 0 <= u < |s.threads| && Private(s.threads[u].pc) && s.threads[u].node == addr;
      assert s'.threads[u].node == addr;
    }
  }

  lemma MallocHeap(s: State, t: nat, addr: nat, junk: nat, a: nat)
    requires Enabled(s, Malloc(t, addr, junk)) && (Used(s, a) || a == addr)
    ensures Used(Next(s, Malloc(t, addr, junk)), a)
  {
    var s' := Next(s, Malloc(t, addr, junk));
    if a == addr {
      assert s'.threads[t].node == addr;
    } else {
      StillUsed(s, s', a);
    }
  }

  /** A step of a thread adds no node, and removes the one it frees. */
  lemma HeapShrinks(s: State, t: nat, addr: nat)
    requires Core(s) && t < |s.threads| && addr in NextThread(s, t).heap
    ensures addr in s.heap && (s.threads[t].pc == FreePrev ==> addr != s.threads[t].prev)
  {
    assert Owns(s.threads[t].pc) ==> OwnerInv(s, t);
  }

  /** The other steps neither free, unlink nor give up a node. */
  lemma KeepsNodes(s: State, t: nat)
    requires t < |s.threads| && s.threads[t].pc != Exchange && s.threads[t].pc != FreePrev
    ensures var s' := NextThread(s, t);
            && s'.freed == s.freed && s'.nodeAt == s.nodeAt && s'.threads == s.threads[t := s'.threads[t]]
            && s'.threads[t].node == s.threads[t].node
            && (Private(s.threads[t].pc) ==> Private(s'.threads[t].pc))
  {
    assert s.threads[t := s.threads[t]] == s.threads;
    match s.threads[t].pc
    case InitNode =>
    case _ =>
  }

  lemma StepHeap(s: State, t: nat, addr: nat)
    requires QueueInv(s) && Used(s, addr) && t < |s.threads|
    requires s.threads[t].pc == FreePrev ==> WaiterInv(s, t) && addr != s.threads[t].prev
    ensures Used(NextThread(s, t), addr)
  {
    var pc := s.threads[t].pc;
    if pc == Exchange {
      ExchangeHeap(s, t, addr);
    } else if pc == FreePrev {
      FreePrevHeap(s, t, addr);
    } else {
      KeepsNodes(s, t);
      StillUsed(s, NextThread(s, t), addr);
    }
  }

  lemma DestroyInv(s: State)
    requires Inv(s) && Enabled(s, Destroy)
    ensures Inv(Next(s, Destroy))
  {
    assert s.freed == |s.order| by {
      assert s.freed < |s.order| ==> Queued(s, s.order[s.freed], s.freed);
    }
    forall addr | addr in s.heap
      ensures addr == s.tail
    {
      assert Used(s, addr);
    }
  }

  lemma StepInv(s: State, a: Action)
    requires Inv(s) && Enabled(s, a)
    ensures Inv(Next(s, a))
  {
    if a == Destroy {
      DestroyInv(s);
    } else {
      StepCore(s, a);
      forall addr | addr in Next(s, a).heap
        ensures Used(Next(s, a), addr)
      {
        match a
        case Malloc(t, x, junk) => MallocHeap(s, t, x, junk, addr);
        case Step(t) =>
          HeapShrinks(s, t, addr);
          StepHeap(s, t, addr);
      }
    }
  }
}
