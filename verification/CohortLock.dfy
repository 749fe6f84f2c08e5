/** The words of the C-PTL-TKT lock, 32 bits wide, with one method per access.
    Every method is proved to take one step of CohortSpec, whose tickets never wrap:
    `spec` is always reached by a run, so all that is proved of runs holds of the
    lock with wrapping counters. */
module CohortLock {
  import opened Basics
  import opened CohortSpec
  import opened CohortInv
  import opened CohortTheorems
  import opened CohortFairness

  // ----- why 32 bits are enough ----------------------------------------------

  /** What wrapping needs: at most 2^32 threads, and a slot count that divides 2^32
      (NUM_NUMA_NODES is 1 or 2). */
  ghost predicate Fits(s: State) {
    |s.threads| <= U32 && 0 < |s.grants| && U32 % |s.grants| == 0 && 2 * |s.grants| < U32
  }

  /** grant == req_num on 32 bits is equality of the unbounded local tickets. */
  lemma LocalCompareExact(s: State, t: nat)
    requires Inv(s) && Fits(s) && t < |s.threads| && s.threads[t].pc == WaitLocal
    ensures var th := s.threads[t];
            s.locals[th.sock].grant % U32 == th.ltkt % U32 <==> s.locals[th.sock].grant == th.ltkt
  {
    assert LocalTicketOf(s, t);
    LocalQueueBound(s, s.threads[t].sock);
    WrapExact(s.locals[s.threads[t].sock].grant, s.threads[t].ltkt, U32);
  }

  /** requests != next_grant on 32 bits tells whether another thread waits. */
  lemma RequestsCompareExact(s: State, t: nat)
    requires Inv(s) && Fits(s) && t < |s.threads| && s.threads[t].pc == LoadRequests
    ensures var th := s.threads[t];
            s.locals[th.psl].requests % U32 == th.next % U32 <==> s.locals[th.psl].requests == th.next
  {
    assert LocalTicketOf(s, t) && OwnerLocals(s, s.threads[t]);
    LocalQueueBound(s, s.threads[t].psl);
    WrapExact(s.threads[t].next, s.locals[s.threads[t].psl].requests, U32);
  }

  lemma SlotExact(ticket: nat, s: State)
    requires Fits(s)
    ensures (ticket % U32) % |s.grants| == ticket % |s.grants|
  {
    var k := U32 / |s.grants|;
    assert U32 == |s.grants| * k;
    ModOfMod(ticket, |s.grants|, k);
  }

  /** grants[req_idx] == req_num on 32 bits is equality of the unbounded tickets. */
  lemma GlobalCompareExact(s: State, t: nat)
    requires Inv(s) && Fits(s) && t < |s.threads| && s.threads[t].pc == WaitGlobal
    ensures var g := s.threads[t].gtkt;
            var slot := g % |s.grants|;
            s.grants[slot] % U32 == g % U32 <==> s.grants[slot] == g
  {
    var g := s.threads[t].gtkt;
    var slot := g % |s.grants|;
    assert GlobalTicketOf(s, t);
    OutstandingTickets(s);
    assert s.grants[slot] == LastGrant(slot, s.served, |s.grants|);
    WrapExact(s.grants[slot], g, U32);
  }

  // ----- the lock -------------------------------------------------------------

  datatype SocketWords = SocketWords(grant: u32, requests: u32, socketGrant: u32, batchCount: u32, ownerReqNum: u32)

  const DOESNT_HAVE_SOCKET: u32 := 0
  const HAS_SOCKET: u32 := 1

  ghost predicate Wraps(w: SocketWords, l: Local) {
    && w.grant == l.grant % U32 && w.requests == l.requests % U32
    && w.socketGrant == (if l.socketGrant then HAS_SOCKET else DOESNT_HAVE_SOCKET)
    && w.batchCount == l.batch && w.ownerReqNum == l.ownerReq % U32
  }

  lemma SuccWraps(w: SocketWords, l: Local)
    requires Wraps(w, l)
    ensures (w.grant + 1) % U32 == (l.grant + 1) % U32
    ensures (w.requests + 1) % U32 == (l.requests + 1) % U32
    ensures (w.ownerReqNum + 1) % U32 == (l.ownerReq + 1) % U32
  {
    WrapSucc(l.grant, U32);
    WrapSucc(l.requests, U32);
    WrapSucc(l.ownerReq, U32);
  }

  /** Another thread of t's socket has drawn a local ticket that is not granted yet. */
  ghost predicate Waited(s: State, t: nat) {
    exists u :: 0 <= u < |s.threads| && Behind(s, t, u)
  }

  ghost predicate Behind(s: State, t: nat, u: nat) {
    t < |s.threads| && u < |s.threads| && u != t && s.threads[u].sock == s.threads[t].sock &&
    InLocalQueue(s.threads[u].pc)
  }

  /** requests tells whether somebody waits. */
  lemma RequestsTell(s: State, t: nat)
    requires Inv(s) && t < |s.threads| && s.threads[t].pc == CohortSpec.LoadRequests
    ensures s.locals[s.threads[t].psl].requests != s.threads[t].next <==> Waited(s, t)
  {
    var th, l := s.threads[t], s.locals[s.threads[t].sock];
    assert OwnsGlobal(th.pc) && LocalTicketOf(s, t);
    if l.requests > th.next {
      var u := s.localQueue[th.sock][th.next];
      assert TakesLocal(s, u, th.sock, th.next);
      assert Behind(s, t, u);
    }
    forall u | 0 <= u < |s.threads| && Behind(s, t, u)
      ensures l.requests > th.next
    {
      assert LocalTicketOf(s, u);
    }
  }

  /** The slot of a waiting thread holds its ticket exactly if the ticket is served. */
  lemma GlobalGrantTells(s: State, t: nat)
    requires Inv(s) && t < |s.threads| && s.threads[t].pc == WaitGlobal
    ensures s.grants[s.threads[t].gtkt % |s.grants|] == s.threads[t].gtkt <==> s.threads[t].gtkt == s.served
  {
    ServedSlotGranted(s);
    if s.grants[s.threads[t].gtkt % |s.grants|] == s.threads[t].gtkt {
      GrantedIsServed(s, t);
    }
  }

  /** unlock stores what batch_count it has loaded less one, or refills an empty one. */
  lemma BatchKnown(s: State, t: nat)
    requires Wf(s) && OwnerInv(s) && t < |s.threads| && s.threads[t].pc in {StoreBatchLess, StoreBatchFull}
    ensures s.threads[t].psl == s.threads[t].sock
    ensures s.locals[s.threads[t].psl].batch == if s.threads[t].pc == StoreBatchLess then s.threads[t].batch else 0
  {
    assert OwnsGlobal(s.threads[t].pc);
  }

  class Lock {
    var request: u32
    const grants: array<u32>
    const perSocket: array<SocketWords>
    var curPsl: Option<nat>
    ghost const nodes: nat
    ghost const threads: nat
    ghost var history: seq<Action>
    ghost var spec: State

    ghost predicate Valid()
      reads this, grants, perSocket
    {
      && Reached() && Fits(spec)
      && grants.Length == perSocket.Length == |spec.grants|
      && request == spec.request % U32 && curPsl == spec.curPsl
      && (forall i :: 0 <= i < grants.Length ==> grants[i] == spec.grants[i] % U32)
      && (forall i :: 0 <= i < perSocket.Length ==> Wraps(perSocket[i], spec.locals[i]))
    }

    /** spec is the state of a run of the unbounded machine. */
    ghost predicate Reached()
      reads this
    {
      0 < nodes && Reaches(Init(nodes, threads), history, spec)
    }

    ghost method Take(a: Action)
      requires Reached() && Enabled(spec, a)
      modifies this`spec, this`history
      ensures Reached() && spec == Next(old(spec), a) && history == old(history) + [a]
    {
      ReachesStep(Init(nodes, threads), history, spec, a);
      history := history + [a];
      spec := Next(spec, a);
    }

    lemma ReachedInv()
      requires Reached()
      ensures Inv(spec)
    {
      InitInv(nodes, threads);
      ReachesRun(Init(nodes, threads), history, spec);
      RunInv(Init(nodes, threads), history);
    }

    ghost predicate At(t: nat, pc: Pc)
      reads this
    {
      t < |spec.threads| && spec.threads[t].pc == pc
    }

    constructor (nodes: nat, ghost threads: nat)
      requires 0 < nodes && threads <= U32 && U32 % nodes == 0 && 2 * nodes < U32
      ensures Valid() && spec == Init(nodes, threads)
    {
      request := 0;
      grants := new u32[nodes](_ => 0);
      perSocket := new SocketWords[nodes](_ => SocketWords(0, 0, 0, 0, 0));
      curPsl := None;
      this.nodes, this.threads := nodes, threads;
      history, spec := [], Init(nodes, threads);
    }

    // lock

    method FetchAddRequests(ghost t: nat, sock: nat) returns (reqNum: u32)
      requires Valid() && At(t, Idle) && sock < perSocket.Length
      modifies this, perSocket
      ensures Valid() && spec == Next(old(spec), Arrive(t, sock))
      ensures reqNum == spec.threads[t].ltkt % U32
    {
      var w := perSocket[sock];
      reqNum := w.requests;
      perSocket[sock] := w.(requests := (reqNum + 1) % U32);
      SuccWraps(w, spec.locals[sock]);
      Take(Arrive(t, sock));
    }

    method LoadLocalGrant(ghost t: nat, sock: nat, reqNum: u32) returns (granted: bool)
      requires Valid() && At(t, WaitLocal)
      requires sock == spec.threads[t].sock && reqNum == spec.threads[t].ltkt % U32
      modifies this`spec, this`history
      ensures Valid() && spec == Next(old(spec), Step(t))
      ensures granted == At(t, TestSocketGrant)
      ensures granted <==> perSocket[sock].grant == reqNum
      ensures granted <==> old(spec.threads[t].ltkt == spec.locals[sock].grant)
    {
      granted := perSocket[sock].grant == reqNum;
      assert (perSocket[sock].grant == reqNum) == (spec.locals[sock].grant == spec.threads[t].ltkt) by {
        ReachedInv();
        LocalCompareExact(spec, t);
      }
      Take(Step(t));
    }

    method LoadSocketGrant(ghost t: nat, sock: nat) returns (passed: bool)
      requires Valid() && At(t, TestSocketGrant) && sock == spec.threads[t].sock
      modifies this`spec, this`history
      ensures Valid() && spec == Next(old(spec), Step(t))
      ensures passed == At(t, ClearSocketGrant)
      ensures passed <==> perSocket[sock].socketGrant != 0
    {
      passed := perSocket[sock].socketGrant != DOESNT_HAVE_SOCKET;
      Take(Step(t));
    }

    method StoreSocketGrantZero(ghost t: nat, sock: nat)
      requires Valid() && At(t, ClearSocketGrant) && sock == spec.threads[t].sock
      modifies this`spec, this`history, perSocket
      ensures Valid() && spec == Next(old(spec), Step(t))
      ensures perSocket[sock].socketGrant == 0
    {
      perSocket[sock] := perSocket[sock].(socketGrant := DOESNT_HAVE_SOCKET);
      Take(Step(t));
    }

    method FetchAddRequest(ghost t: nat) returns (reqNum: u32)
      requires Valid() && At(t, TakeGlobal)
      modifies this
      ensures Valid() && spec == Next(old(spec), Step(t))
      ensures reqNum == spec.threads[t].gtkt % U32
    {
      assert (request + 1) % U32 == (spec.request + 1) % U32 by {
        WrapSucc(spec.request, U32);
      }
      reqNum := request;
      request := (reqNum + 1) % U32;
      Take(Step(t));
      assert spec.request == old(spec.request) + 1;
      assert spec.locals == old(spec.locals) && spec.grants == old(spec.grants);
    }

    method LoadGlobalGrant(ghost t: nat, reqNum: u32) returns (granted: bool)
      requires Valid() && At(t, WaitGlobal) && reqNum == spec.threads[t].gtkt % U32
      modifies this`spec, this`history
      ensures Valid() && spec == Next(old(spec), Step(t))
      ensures granted == At(t, StorePsl)
      ensures granted <==> grants[reqNum % grants.Length] == reqNum
      ensures granted <==> old(spec.threads[t].gtkt == spec.served)
    {
      var reqIdx := reqNum % grants.Length;
      granted := grants[reqIdx] == reqNum;
      SlotExact(spec.threads[t].gtkt, spec);
      assert (grants[reqIdx] == reqNum) == (spec.grants[reqIdx] == spec.threads[t].gtkt) by {
        ReachedInv();
        GlobalCompareExact(spec, t);
      }
      assert granted == (spec.threads[t].gtkt == spec.served) by {
        ReachedInv();
        GlobalGrantTells(spec, t);
      }
      Take(Step(t));
    }

    method StoreCurPsl(ghost t: nat, sock: nat)
      requires Valid() && At(t, StorePsl) && sock == spec.threads[t].sock
      modifies this
      ensures Valid() && spec == Next(old(spec), Step(t))
    {
      curPsl := Some(sock);
      Take(Step(t));
    }

    method StoreOwnerReqNum(ghost t: nat, sock: nat, reqNum: u32)
      requires Valid() && At(t, StoreOwner)
      requires sock == spec.threads[t].sock && reqNum == spec.threads[t].gtkt % U32
      modifies this`spec, this`history, perSocket
      ensures Valid() && spec == Next(old(spec), Step(t))
    {
      perSocket[sock] := perSocket[sock].(ownerReqNum := reqNum);
      Take(Step(t));
    }

    // unlock

    method LoadCurPsl(ghost t: nat) returns (psl: nat)
      requires Valid() && At(t, Critical)
      modifies this`spec, this`history
      ensures Valid() && spec == Next(old(spec), Step(t))
      ensures At(t, CohortSpec.LoadGrant) && psl == spec.threads[t].psl == spec.threads[t].sock
    {
      assert curPsl == Some(spec.threads[t].sock) by {
        ReachedInv();
        UnlockOwner(spec, t);
      }
      psl := curPsl.value;
      Take(Step(t));
    }

    method LoadGrant(ghost t: nat, psl: nat) returns (nextGrant: u32)
      requires Valid() && At(t, CohortSpec.LoadGrant) && psl == spec.threads[t].psl
      modifies this`spec, this`history
      ensures Valid() && spec == Next(old(spec), Step(t))
      ensures nextGrant == spec.threads[t].next % U32
    {
      var w := perSocket[psl];
      nextGrant := (w.grant + 1) % U32;
      SuccWraps(w, spec.locals[psl]);
      Take(Step(t));
    }

    method LoadRequests(ghost t: nat, psl: nat, nextGrant: u32) returns (waiters: bool)
      requires Valid() && At(t, CohortSpec.LoadRequests)
      requires psl == spec.threads[t].psl && nextGrant == spec.threads[t].next % U32
      modifies this`spec, this`history
      ensures Valid() && spec == Next(old(spec), Step(t))
      ensures waiters == At(t, LoadBatch)
      ensures waiters <==> perSocket[psl].requests != nextGrant
      ensures waiters <==> old(Waited(spec, t))
    {
      waiters := perSocket[psl].requests != nextGrant;
      assert (perSocket[psl].requests == nextGrant) == (spec.locals[psl].requests == spec.threads[t].next) by {
        ReachedInv();
        RequestsCompareExact(spec, t);
      }
      assert waiters == Waited(spec, t) by {
        ReachedInv();
        RequestsTell(spec, t);
      }
      Take(Step(t));
    }

    method LoadBatchCount(ghost t: nat, psl: nat) returns (batch: u32)
      requires Valid() && At(t, LoadBatch) && psl == spec.threads[t].psl
      modifies this`spec, this`history
      ensures Valid() && spec == Next(old(spec), Step(t))
      ensures batch == spec.threads[t].batch && (batch != 0) == At(t, StoreBatchLess)
      ensures batch == perSocket[psl].batchCount
    {
      batch := perSocket[psl].batchCount;
      Take(Step(t));
    }

    method DecBatchCount(ghost t: nat, psl: nat, batch: u32)
      requires Valid() && At(t, StoreBatchLess)
      requires psl == spec.threads[t].psl && batch == spec.threads[t].batch != 0
      modifies this`spec, this`history, perSocket
      ensures Valid() && spec == Next(old(spec), Step(t))
      ensures perSocket[psl].batchCount + 1 == old(perSocket[psl].batchCount)
    {
      assert perSocket[psl].batchCount == batch by {
        ReachedInv();
        BatchKnown(spec, t);
      }
      perSocket[psl] := perSocket[psl].(batchCount := batch - 1);
      Take(Step(t));
    }

    method StoreSocketGrantOne(ghost t: nat, psl: nat)
      requires Valid() && At(t, StoreSocketGrant) && psl == spec.threads[t].psl
      modifies this`spec, this`history, perSocket
      ensures Valid() && spec == Next(old(spec), Step(t))
      ensures perSocket[psl].socketGrant == 1
    {
      perSocket[psl] := perSocket[psl].(socketGrant := HAS_SOCKET);
      Take(Step(t));
    }

    method ResetBatchCount(ghost t: nat, psl: nat)
      requires Valid() && At(t, StoreBatchFull) && psl == spec.threads[t].psl
      modifies this`spec, this`history, perSocket
      ensures Valid() && spec == Next(old(spec), Step(t))
      ensures old(perSocket[psl].batchCount) == 0 && perSocket[psl].batchCount == 100
    {
      assert perSocket[psl].batchCount == 0 by {
        ReachedInv();
        BatchKnown(spec, t);
      }
      perSocket[psl] := perSocket[psl].(batchCount := BATCH);
      Take(Step(t));
    }

    method LoadOwnerReqNum(ghost t: nat, psl: nat) returns (reqNum: u32)
      requires Valid() && At(t, LoadOwner) && psl == spec.threads[t].psl
      modifies this`spec, this`history
      ensures Valid() && spec == Next(old(spec), Step(t))
      ensures reqNum == spec.threads[t].req % U32
    {
      var w := perSocket[psl];
      reqNum := (w.ownerReqNum + 1) % U32;
      SuccWraps(w, spec.locals[psl]);
      Take(Step(t));
    }

    /** The release of the global lock; late when grant has been stored first. */
    method StoreGlobalGrant(ghost t: nat, reqNum: u32, ghost late: bool)
      requires Valid() && At(t, if late then StoreGrantsLate else StoreGrants)
      requires reqNum == spec.threads[t].req % U32
      modifies this`spec, this`history, grants
      ensures Valid() && spec == Next(old(spec), Step(t))
    {
      var reqIdx := reqNum % grants.Length;
      SlotExact(spec.threads[t].req, spec);
      assert reqIdx == spec.threads[t].req % |spec.grants|;
      grants[reqIdx] := reqNum;
      Take(Step(t));
    }

    /** The store of grant that follows the release. */
    method StoreGrantLast(ghost t: nat, psl: nat, nextGrant: u32)
      requires Valid() && At(t, StoreGrantAfter)
      requires psl == spec.threads[t].psl && nextGrant == spec.threads[t].next % U32
      modifies this`spec, this`history, perSocket
      ensures Valid() && spec == Next(old(spec), Step(t))
    {
      perSocket[psl] := perSocket[psl].(grant := nextGrant);
      Take(Step(t));
    }

    /** The store of grant that passes the lock on within the socket. */
    method StoreGrantHandoff(ghost t: nat, psl: nat, nextGrant: u32)
      requires Valid() && At(t, StoreGrantLocal)
      requires psl == spec.threads[t].psl && nextGrant == spec.threads[t].next % U32
      modifies this`spec, this`history, perSocket
      ensures Valid() && spec == Next(old(spec), Step(t))
    {
      perSocket[psl] := perSocket[psl].(grant := nextGrant);
      Take(Step(t));
    }

    /** The same store, reordered before the release. */
    method StoreGrantFirst(ghost t: nat, psl: nat, nextGrant: u32)
      requires Valid() && At(t, StoreGrants)
      requires psl == spec.threads[t].psl && nextGrant == spec.threads[t].next % U32
      modifies this`spec, this`history, perSocket
      ensures Valid() && spec == Next(old(spec), Swapped(t))
    {
      perSocket[psl] := perSocket[psl].(grant := nextGrant);
      Take(Swapped(t));
    }
  }

  lemma UnlockOwner(s: State, t: nat)
    requires Inv(s) && t < |s.threads| && s.threads[t].pc == Critical
    ensures s.curPsl == Some(s.threads[t].sock)
  {
    assert OwnsGlobal(s.threads[t].pc);
  }
}
