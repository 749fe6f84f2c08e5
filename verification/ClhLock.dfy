/** The words of the CLH lock, the malloc'd nodes and the kernel records of its
    threads, with one method per access. Every dereference is proved to hit a live
    node, and every method to take one step of ClhSpec. */
module ClhLock {
  import opened Basics
  import opened ClhSpec
  import opened ClhInv
  import opened ClhTheorems

  class Lock {
    var tail: nat
    var head: nat
    var heap: map<nat, nat>          // mem of every live node
    const records: array<Watch>      // k_autolock_mem of every thread
    const auto: bool                 // I_WITH_AUTOLOCK
    ghost const threads: nat
    ghost const sentinel: nat
    ghost var history: seq<Action>
    ghost var spec: State

    ghost predicate Valid()
      reads this, records
    {
      && Reached()
      && tail == spec.tail && head == spec.head && heap == spec.heap && auto == spec.auto
      && records.Length == |spec.threads|
      && forall t :: 0 <= t < records.Length ==> records[t] == spec.threads[t].watch
    }

    /** spec is the state of a run of the machine. */
    ghost predicate Reached()
      reads this
    {
      sentinel != NULL && Reaches(Init(auto, threads, sentinel), history, spec)
    }

    ghost method Take(a: Action)
      requires Reached() && Enabled(spec, a)
      modifies this`spec, this`history
      ensures Reached() && spec == Next(old(spec), a) && history == old(history) + [a]
    {
      ReachesStep(Init(auto, threads, sentinel), history, spec, a);
      history := history + [a];
      spec := Next(spec, a);
    }

    lemma ReachedInv()
      requires Reached()
      ensures Inv(spec)
    {
      InitInv(auto, threads, sentinel);
      ReachesRun(Init(auto, threads, sentinel), history, spec);
      RunInv(Init(auto, threads, sentinel), history);
    }

    lemma StepIsLive(t: nat)
      requires Reached() && Enabled(spec, Step(t)) && Touches(spec.threads[t]).Some?
      ensures Touches(spec.threads[t]).value in spec.heap
    {
      ReachedInv();
      AccessesAreLive(spec, Step(t));
    }

    /** The nodes of a waiting thread are live; it disarms only at the front. */
    lemma WaiterIsLive(t: nat)
      requires Reached() && !spec.destroyed && t < |spec.threads| && Waits(spec.threads[t].pc)
      ensures spec.threads[t].prev in spec.heap && spec.threads[t].node in spec.heap && spec.threads[t].prev != NULL
      ensures spec.heap[spec.threads[t].prev] != LOCKED <==> spec.threads[t].ticket == spec.freed && spec.owner == None
      ensures At(t, ClearMem) ==> spec.threads[t].ticket == spec.freed && spec.owner == None
    {
      ReachedInv();
      UnlockedAtFront(spec, t);
      var k := spec.threads[t].ticket;
      assert WaiterInv(spec, t) && spec.nodeAt[k] in spec.heap && spec.nodeAt[k + 1] in spec.heap;
    }

    /** The owner's node is live and locked, and head names it. */
    lemma OwnNodeIsLive(t: nat)
      requires Reached() && !spec.destroyed && t < |spec.threads| && Owns(spec.threads[t].pc)
      ensures spec.threads[t].node in spec.heap && spec.heap[spec.threads[t].node] == LOCKED
      ensures spec.owner == Some(t) && (InCritical(spec.threads[t].pc) ==> spec.head == spec.threads[t].node)
    {
      ReachedInv();
      assert OwnerInv(spec, t) && spec.nodeAt[spec.freed] in spec.heap;
    }

    /** While a thread is in its critical section, head == prev_node says who is next. */
    lemma NextIsNear(t: nat)
      requires Reached() && At(t, LoadHead) && Holder(spec).Some?
      ensures spec.head == spec.threads[t].prev <==> spec.threads[t].ticket == spec.freed
    {
      ReachedInv();
      assert WaiterInv(spec, t) && OwnerInv(spec, spec.owner.value);
    }

    /** Once the lock is released the front of the queue can go on. */
    lemma FrontCanMove()
      requires Reached() && !spec.destroyed && spec.owner == None
      ensures spec.freed < |spec.order| ==> CanMove(spec, spec.order[spec.freed])
    {
      ReachedInv();
      if spec.freed < |spec.order| {
        var front := spec.order[spec.freed];
        assert Queued(spec, front, spec.freed);
        BusyMoves(spec, front);
      }
    }

    ghost predicate At(t: nat, pc: Pc)
      reads this
    {
      !spec.destroyed && t < |spec.threads| && spec.threads[t].pc == pc
    }

    /** init; the allocator returns sentinel. */
    constructor (auto: bool, threads: nat, sentinel: nat)
      requires sentinel != NULL
      ensures Valid() && spec == Init(auto, threads, sentinel)
    {
      tail := sentinel;
      head := NULL;
      heap := map[sentinel := UNLOCKED];
      records := new Watch[threads](_ => Watch(NULL, 0, 0));
      this.auto, this.threads, this.sentinel := auto, threads, sentinel;
      history, spec := [], Init(auto, threads, sentinel);
    }

    // lock

    /** aligned_alloc: any address that is not live, with any content. */
    method NodeNew(ghost t: nat, addr: nat, junk: nat) returns (node: nat)
      requires Valid() && At(t, Idle) && addr != NULL && addr !in heap
      modifies this
      ensures Valid() && spec == Next(old(spec), Malloc(t, addr, junk))
      ensures node == addr == spec.threads[t].node && heap == old(heap)[addr := junk]
    {
      heap := heap[addr := junk];
      node := addr;
      Take(Malloc(t, addr, junk));
    }

    method StoreNodeLocked(ghost t: nat, node: nat)
      requires Valid() && At(t, InitNode) && node == spec.threads[t].node
      modifies this
      ensures Valid() && spec == Next(old(spec), Step(t))
      ensures heap[node] == LOCKED && node !in QueuedNodes(spec)
    {
      StepIsLive(t);
      heap := heap[node := LOCKED];
      Take(Step(t));
      ReachedInv();
    }

    method ExchangeTail(ghost t: nat, node: nat) returns (prev: nat)
      requires Valid() && At(t, Exchange) && node == spec.threads[t].node
      modifies this
      ensures Valid() && spec == Next(old(spec), Step(t))
      ensures prev == spec.threads[t].prev
      ensures prev in heap && tail == node && node in heap
    {
      prev := tail;
      tail := node;
      Take(Step(t));
      WaiterIsLive(t);
    }

    method LoadPrev(ghost t: nat, prev: nat) returns (locked: bool)
      requires Valid() && (At(t, FirstLoad) || At(t, Spin)) && prev == spec.threads[t].prev
      modifies this`spec, this`history
      ensures Valid() && spec == Next(old(spec), Step(t))
      ensures locked <==> !At(t, FreePrev) && !At(t, ClearMem)
      ensures !locked <==> spec.threads[t].ticket == spec.freed && spec.owner == None
    {
      WaiterIsLive(t);
      locked := heap[prev] == LOCKED;
      Take(Step(t));
    }

    method SetWatchFor(t: nat)
      requires Valid() && At(t, SetFor)
      modifies this`spec, this`history, records
      ensures Valid() && spec == Next(old(spec), Step(t))
    {
      records[t] := records[t].(value := UNLOCKED);
      Take(Step(t));
    }

    method SetWatchNeq(t: nat)
      requires Valid() && At(t, SetNeq)
      modifies this`spec, this`history, records
      ensures Valid() && spec == Next(old(spec), Step(t))
    {
      records[t] := records[t].(neq := 0);
      Take(Step(t));
    }

    /** Arming and disarming: watch_mem is &prev_node->mem or NULL. */
    method SetWatchMem(t: nat, mem: nat)
      requires Valid()
      requires (At(t, SetMem) && mem == spec.threads[t].prev) || (At(t, ClearMem) && mem == NULL)
      modifies this`spec, this`history, records
      ensures Valid() && spec == Next(old(spec), Step(t))
      ensures mem != NULL ==> mem in heap
      ensures mem == NULL ==> spec.threads[t].ticket == spec.freed && spec.owner == None
    {
      WaiterIsLive(t);
      records[t] := records[t].(mem := mem);
      Take(Step(t));
    }

    /** The unsynchronised test whether the thread is next; head may dangle here. */
    method IsNextInQueue(ghost t: nat, prev: nat) returns (near: bool)
      requires Valid() && At(t, LoadHead) && prev == spec.threads[t].prev
      modifies this`spec, this`history
      ensures Valid() && spec == Next(old(spec), Step(t))
      ensures near == spec.threads[t].near
      ensures Holder(spec).Some? ==> (near <==> spec.threads[t].ticket == spec.freed)
    {
      if Holder(spec).Some? {
        NextIsNear(t);
      }
      near := head == prev;
      Take(Step(t));
    }

    method NodeFree(ghost t: nat, prev: nat)
      requires Valid() && At(t, FreePrev) && prev == spec.threads[t].prev
      modifies this
      ensures Valid() && spec == Next(old(spec), Step(t))
      ensures prev in old(heap) && prev !in heap
    {
      StepIsLive(t);
      heap := heap - {prev};
      Take(Step(t));
    }

    method SaveHead(ghost t: nat, node: nat)
      requires Valid() && At(t, StoreHead) && node == spec.threads[t].node
      modifies this
      ensures Valid() && spec == Next(old(spec), Step(t))
      ensures head in heap && heap[head] == LOCKED && spec.owner == Some(t) && Holder(spec) == Some(t)
    {
      OwnNodeIsLive(t);
      head := node;
      Take(Step(t));
    }

    // unlock

    method ReadHead(ghost t: nat) returns (node: nat)
      requires Valid() && At(t, Critical)
      modifies this`spec, this`history
      ensures Valid() && spec == Next(old(spec), Step(t))
      ensures node == spec.threads[t].hd
      ensures node in heap && heap[node] == LOCKED
    {
      OwnNodeIsLive(t);
      node := head;
      Take(Step(t));
    }

    method StoreNodeUnlocked(ghost t: nat, node: nat)
      requires Valid() && At(t, StoreUnlocked) && node == spec.threads[t].hd
      modifies this
      ensures Valid() && spec == Next(old(spec), Step(t))
      ensures node in old(heap) && heap == old(heap)[node := UNLOCKED] && Holder(spec) == None
      ensures spec.freed < |spec.order| ==> CanMove(spec, spec.order[spec.freed])
    {
      StepIsLive(t);
      heap := heap[node := UNLOCKED];
      Take(Step(t));
      FrontCanMove();
    }

    /** destroy, by a caller that knows no thread uses the lock. */
    method FreeTail()
      requires Valid() && Enabled(spec, Destroy)
      modifies this
      ensures Valid() && spec == Next(old(spec), Destroy)
      ensures heap == map[]
    {
      heap := heap - {tail};
      Take(Destroy);
      ReachedInv();
    }
  }
}
