/** The invariant of the cohort lock and its preservation by every step. */
module CohortInv {
  import opened Basics
  import opened CohortSpec

  /** Between drawing a local ticket and storing the next grant. */
  predicate InLocalQueue(pc: Pc) {
    pc != Idle && pc != StoreGrantsLate
  }

  predicate HoldsLocal(pc: Pc) {
    InLocalQueue(pc) && pc != WaitLocal
  }

  /** Between taking the global lock, or taking it over, and giving it away. */
  predicate OwnsGlobal(pc: Pc) {
    (HoldsLocal(pc) && pc !in {TestSocketGrant, TakeGlobal, WaitGlobal, StoreGrantAfter}) || pc == StoreGrantsLate
  }

  /** Between lock's return and the releasing store of unlock. */
  predicate InCritical(pc: Pc) {
    OwnsGlobal(pc) && pc !in {ClearSocketGrant, StorePsl, StoreOwner}
  }

  /** next_grant has been computed and grant not yet stored. */
  predicate KnowsNext(pc: Pc) {
    pc in {LoadRequests, LoadBatch, StoreBatchLess, StoreSocketGrant, StoreGrantLocal,
           StoreBatchFull, LoadOwner, StoreGrants, StoreGrantAfter}
  }

  /** unlock has seen a waiter on its socket. */
  predicate SawWaiter(pc: Pc) {
    pc in {LoadBatch, StoreBatchLess, StoreSocketGrant, StoreGrantLocal, StoreBatchFull}
  }

  predicate Releasing(pc: Pc) {
    pc in {StoreGrants, StoreGrantsLate}
  }

  /** The newest global ticket of the residue class of slot i that has been
      granted; zero before the first one. */
  function LastGrant(i: nat, served: nat, nodes: nat): nat
    requires 0 < nodes
  {
    if served < i then 0 else served - (served - i) % nodes
  }

  /** Local tickets: each outstanding one belongs to one thread of the socket. */
  ghost predicate LocalInv(s: State)
    requires Wf(s)
  {
    && (forall i :: 0 <= i < |s.locals| ==>
          |s.localQueue[i]| == s.locals[i].requests && s.locals[i].grant <= s.locals[i].requests &&
          s.locals[i].batch <= BATCH)
    && (forall t :: 0 <= t < |s.threads| && InLocalQueue(s.threads[t].pc) ==>
          LocalTicketOf(s, t))
    && (forall i, k :: 0 <= i < |s.locals| && s.locals[i].grant <= k < |s.localQueue[i]| ==>
          TakesLocal(s, s.localQueue[i][k], i, k))
  }

  ghost predicate LocalTicketOf(s: State, t: nat)
    requires Wf(s) && t < |s.threads|
  {
    var th := s.threads[t];
    && s.locals[th.sock].grant <= th.ltkt < |s.localQueue[th.sock]|
    && s.localQueue[th.sock][th.ltkt] == t
    && (HoldsLocal(th.pc) ==> th.ltkt == s.locals[th.sock].grant)
  }

  ghost predicate TakesLocal(s: State, t: nat, i: nat, k: nat) {
    t < |s.threads| && InLocalQueue(s.threads[t].pc) && s.threads[t].sock == i && s.threads[t].ltkt == k
  }

  /** Global tickets: each outstanding one but the owner's belongs to a waiting thread. */
  ghost predicate GlobalInv(s: State) {
    && |s.globalQueue| == s.request && s.served <= s.request
    && (s.owner != Nobody ==> s.served < s.request)
    && (forall g :: s.served <= g < s.request && (g == s.served ==> s.owner == Nobody) ==>
          TakesGlobal(s, s.globalQueue[g], g))
    && (forall t :: 0 <= t < |s.threads| && s.threads[t].pc == WaitGlobal ==>
          GlobalTicketOf(s, t))
  }

  ghost predicate GlobalTicketOf(s: State, t: nat)
    requires t < |s.threads|
  {
    var g := s.threads[t].gtkt;
    s.served <= g < |s.globalQueue| && s.globalQueue[g] == t && (g == s.served ==> s.owner == Nobody)
  }

  ghost predicate TakesGlobal(s: State, t: nat, g: nat) {
    t < |s.threads| && s.threads[t].pc == WaitGlobal && s.threads[t].gtkt == g
  }

  /** Each slot holds the newest ticket of its class that was granted. */
  ghost predicate GrantsInv(s: State)
    requires |s.grants| > 0
  {
    forall i :: 0 <= i < |s.grants| ==> s.grants[i] == LastGrant(i, s.served, |s.grants|)
  }

  /** One thread at most owns the global lock. */
  ghost predicate OwnerAlone(s: State) {
    && (s.owner.Running? ==> s.owner.t < |s.threads| && OwnsGlobal(s.threads[s.owner.t].pc))
    && (forall t :: 0 <= t < |s.threads| && OwnsGlobal(s.threads[t].pc) ==> s.owner == Running(t))
  }

  ghost predicate OwnerKnows(s: State)
    requires Wf(s)
  {
    s.owner.Running? && s.owner.t < |s.threads| ==> OwnerLocals(s, s.threads[s.owner.t])
  }

  ghost predicate Handovers(s: State)
    requires Wf(s)
  {
    && (s.owner.Passing? ==> HandedOver(s, s.owner.sock))
    && (forall i :: 0 <= i < |s.locals| && s.locals[i].socketGrant ==> GrantPending(s, i))
  }

  /** Whoever has released and not yet stored grant knows what to store. */
  ghost predicate AfterRelease(s: State)
    requires Wf(s)
  {
    forall t :: 0 <= t < |s.threads| && s.threads[t].pc == StoreGrantAfter ==> LastStore(s, s.threads[t])
  }

  ghost predicate LastStore(s: State, th: Thread)
    requires th.sock < |s.locals|
  {
    th.psl == th.sock && th.next == s.locals[th.sock].grant + 1
  }

  /** Ownership of the global lock. */
  ghost predicate OwnerInv(s: State)
    requires Wf(s)
  {
    OwnerAlone(s) && OwnerKnows(s) && Handovers(s) && AfterRelease(s)
  }

  /** socket_grant is set only while the lock is being handed over on that socket. */
  ghost predicate GrantPending(s: State, i: nat) {
    || s.owner == Passing(i)
    || (s.owner.Running? && s.owner.t < |s.threads| && s.threads[s.owner.t].sock == i &&
        s.threads[s.owner.t].pc in {StoreGrantLocal, ClearSocketGrant})
  }

  /** Handed over and not yet taken over: the next local ticket has a taker. */
  ghost predicate HandedOver(s: State, i: nat)
    requires Wf(s)
  {
    && i < |s.locals| && s.curPsl == Some(i)
    && s.locals[i].ownerReq == s.served && s.locals[i].socketGrant
    && s.locals[i].grant < |s.localQueue[i]|
    && s.localQueue[i][s.locals[i].grant] < |s.threads|
    && s.threads[s.localQueue[i][s.locals[i].grant]].pc in {WaitLocal, TestSocketGrant}
  }

  /** What the owner of the global lock knows, access by access. */
  ghost predicate OwnerLocals(s: State, th: Thread)
    requires Wf(s) && th.sock < |s.locals|
  {
    var l := s.locals[th.sock];
    && (th.pc in {StorePsl, StoreOwner} ==> th.gtkt == s.served)
    && (th.pc == StoreOwner ==> s.curPsl == Some(th.sock))
    && (th.pc == ClearSocketGrant || InCritical(th.pc) ==> s.curPsl == Some(th.sock) && l.ownerReq == s.served)
    && (th.pc in {ClearSocketGrant, StoreGrantLocal} ==> l.socketGrant)
    && (InCritical(th.pc) && th.pc != Critical ==> th.psl == th.sock)
    && (KnowsNext(th.pc) ==> th.next == l.grant + 1)
    && (SawWaiter(th.pc) ==> l.requests > th.next)
    && (th.pc == StoreBatchLess ==> th.batch == l.batch > 0)
    && (th.pc in {StoreSocketGrant, StoreGrantLocal} ==> l.batch < BATCH)
    && (th.pc == StoreBatchFull ==> l.batch == 0)
    && (Releasing(th.pc) ==> th.req == s.served + 1)
  }

  ghost predicate Inv(s: State) {
    Wf(s) && LocalInv(s) && GlobalInv(s) && GrantsInv(s) && OwnerInv(s)
  }

  lemma InitInv(nodes: nat, threads: nat)
    requires 0 < nodes
    ensures Inv(Init(nodes, threads))
  {
  }

  lemma LastGrantStep(i: nat, served: nat, nodes: nat)
    requires i < nodes
    ensures LastGrant(i, served + 1, nodes) ==
            if i == (served + 1) % nodes then served + 1 else LastGrant(i, served, nodes)
  {
    if i <= served + 1 {
      ResidueClass(served + 1, i, nodes);
    }
    if i <= served {
      ModSucc(served - i, nodes);
    }
  }

  /** The release moves exactly one slot to the next ticket. */
  lemma GlobalGrantStep(s: State)
    requires Inv(s)
    ensures GrantsInv(StoreGlobalGrant(s, s.served + 1))
  {
    var s' := StoreGlobalGrant(s, s.served + 1);
    forall i | 0 <= i < |s.grants|
      ensures s'.grants[i] == LastGrant(i, s.served + 1, |s.grants|)
    {
      LastGrantStep(i, s.served, |s.grants|);
    }
  }

  // ----- what a step leaves alone -------------------------------------------------

  /** Thread t takes the step. */
  ghost predicate OnlyMoves(s: State, s': State, t: nat) {
    && Wf(s) && Wf(s') && t < |s.threads| == |s'.threads|
    && s'.threads == s.threads[t := s'.threads[t]]
  }

  /** t keeps its local ticket and its place in its socket's queue. */
  ghost predicate LocalsQuiet(s: State, s': State, t: nat) {
    && OnlyMoves(s, s', t)
    && |s'.locals| == |s.locals| && s'.localQueue == s.localQueue
    && SamePlace(s.threads[t], s'.threads[t])
    && forall i :: 0 <= i < |s.locals| ==> SameQueue(s.locals[i], s'.locals[i])
  }

  predicate SamePlace(th: Thread, th': Thread) {
    && th'.sock == th.sock && th'.ltkt == th.ltkt
    && InLocalQueue(th'.pc) == InLocalQueue(th.pc) && HoldsLocal(th'.pc) == HoldsLocal(th.pc)
  }

  predicate SameQueue(l: Local, l': Local) {
    l'.grant == l.grant && l'.requests == l.requests && (l.batch <= BATCH ==> l'.batch <= BATCH)
  }

  lemma LocalsKept(s: State, s': State, t: nat)
    requires LocalsQuiet(s, s', t) && LocalInv(s)
    ensures LocalInv(s')
  {
    forall u | 0 <= u < |s'.threads| && InLocalQueue(s'.threads[u].pc)
      ensures LocalTicketOf(s', u)
    {
      assert LocalTicketOf(s, u);
    }
    forall i, k | 0 <= i < |s'.locals| && s'.locals[i].grant <= k < |s'.localQueue[i]|
      ensures TakesLocal(s', s'.localQueue[i][k], i, k)
    {
      assert TakesLocal(s, s.localQueue[i][k], i, k);
    }
  }

  /** t stores the next local ticket into grant and leaves its socket's queue. */
  ghost predicate Leaves(s: State, s': State, t: nat) {
    && OnlyMoves(s, s', t)
    && s'.localQueue == s.localQueue
    && HoldsLocal(s.threads[t].pc) && !InLocalQueue(s'.threads[t].pc)
    && var i := s.threads[t].sock;
       s'.locals == s.locals[i := s.locals[i].(grant := s.locals[i].grant + 1)]
  }

  lemma LeavesLocals(s: State, s': State, t: nat)
    requires Leaves(s, s', t) && LocalInv(s)
    ensures LocalInv(s')
  {
    assert LocalTicketOf(s, t);
    forall u | 0 <= u < |s'.threads| && InLocalQueue(s'.threads[u].pc)
      ensures LocalTicketOf(s', u)
    {
      assert LocalTicketOf(s, u);
    }
    forall i, k | 0 <= i < |s'.locals| && s'.locals[i].grant <= k < |s'.localQueue[i]|
      ensures TakesLocal(s', s'.localQueue[i][k], i, k)
    {
      assert TakesLocal(s, s.localQueue[i][k], i, k);
    }
  }

  /** The global queue and the ownership of its front stay. */
  ghost predicate GlobalQuiet(s: State, s': State, t: nat) {
    && OnlyMoves(s, s', t)
    && s.threads[t].pc != WaitGlobal && s'.threads[t].pc != WaitGlobal
    && s'.globalQueue == s.globalQueue && s'.request == s.request && s'.served == s.served
    && (s'.owner == Nobody <==> s.owner == Nobody)
  }

  lemma GlobalKept(s: State, s': State, t: nat)
    requires GlobalQuiet(s, s', t) && GlobalInv(s)
    ensures GlobalInv(s')
  {
    forall g | s'.served <= g < s'.request && (g == s'.served ==> s'.owner == Nobody)
      ensures TakesGlobal(s', s'.globalQueue[g], g)
    {
      assert TakesGlobal(s, s.globalQueue[g], g);
    }
    forall u | 0 <= u < |s'.threads| && s'.threads[u].pc == WaitGlobal
      ensures GlobalTicketOf(s', u)
    {
      assert GlobalTicketOf(s, u);
    }
  }

  /** The owner takes a step as owner, and touches only its own socket's words. */
  ghost predicate OwnerStays(s: State, s': State, t: nat) {
    && OnlyMoves(s, s', t)
    && s'.owner == s.owner == Running(t) && OwnsGlobal(s'.threads[t].pc)
    && var th, th' := s.threads[t], s'.threads[t];
       && th'.sock == th.sock && s'.locals == s.locals[th.sock := s'.locals[th.sock]]
       && s'.locals[th.sock].grant == s.locals[th.sock].grant
       && (s'.locals[th.sock].socketGrant ==> th'.pc in {StoreGrantLocal, ClearSocketGrant})
  }

  lemma OwnerKept(s: State, s': State, t: nat)
    requires OwnerStays(s, s', t) && OwnerInv(s) && OwnerLocals(s', s'.threads[t])
    ensures OwnerInv(s')
  {
    assert OwnerAlone(s');
    forall i | 0 <= i < |s'.locals| && s'.locals[i].socketGrant
      ensures GrantPending(s', i)
    {
      assert i != s.threads[t].sock ==> GrantPending(s, i);
    }
    forall u | 0 <= u < |s'.threads| && s'.threads[u].pc == StoreGrantAfter
      ensures LastStore(s', s'.threads[u])
    {
      assert LastStore(s, s.threads[u]);
    }
  }

  /** A thread that does not own the global lock steps and changes at most the number of
      requests of a socket. */
  ghost predicate Bystander(s: State, s': State, t: nat) {
    && OnlyMoves(s, s', t)
    && !OwnsGlobal(s.threads[t].pc) && !OwnsGlobal(s'.threads[t].pc) && s'.threads[t].pc != StoreGrantAfter
    && s'.owner == s.owner && s'.curPsl == s.curPsl && s'.served == s.served
    && |s'.locals| == |s.locals|
    && forall i :: 0 <= i < |s.locals| ==> MoreRequests(s.locals[i], s'.locals[i])
  }

  predicate MoreRequests(l: Local, l': Local) {
    l'.requests >= l.requests && l' == l.(requests := l'.requests)
  }

  lemma BystanderKept(s: State, s': State, t: nat)
    requires Bystander(s, s', t) && OwnerInv(s)
    requires s'.owner.Passing? ==> HandedOver(s', s'.owner.sock)
    ensures OwnerInv(s')
  {
    assert OwnerAlone(s');
    if s.owner.Running? {
      assert MoreRequests(s.locals[s.threads[s.owner.t].sock], s'.locals[s.threads[s.owner.t].sock]);
    }
    forall i | 0 <= i < |s'.locals| && s'.locals[i].socketGrant
      ensures GrantPending(s', i)
    {
      assert MoreRequests(s.locals[i], s'.locals[i]) && GrantPending(s, i);
    }
    forall u | 0 <= u < |s'.threads| && s'.threads[u].pc == StoreGrantAfter
      ensures LastStore(s', s'.threads[u])
    {
      assert LastStore(s, s.threads[u]);
      assert MoreRequests(s.locals[s.threads[u].sock], s'.locals[s.threads[u].sock]);
    }
  }

  /** No other thread holds the lock of t's socket. */
  lemma HoldsAlone(s: State, t: nat, u: nat)
    requires Wf(s) && LocalInv(s) && t < |s.threads| && u < |s.threads|
    ensures HoldsLocal(s.threads[t].pc) && HoldsLocal(s.threads[u].pc) && s.threads[t].sock == s.threads[u].sock ==>
              t == u
  {
    assert InLocalQueue(s.threads[t].pc) ==> LocalTicketOf(s, t);
    assert InLocalQueue(s.threads[u].pc) ==> LocalTicketOf(s, u);
  }

  // ----- lock -------------------------------------------------------------------------

  lemma ArriveLocals(s: State, t: nat, sock: nat)
    requires Wf(s) && LocalInv(s) && Enabled(s, Arrive(t, sock))
    ensures LocalInv(NextArrive(s, t, sock))
  {
    var s' := NextArrive(s, t, sock);
    forall u | 0 <= u < |s'.threads| && InLocalQueue(s'.threads[u].pc)
      ensures LocalTicketOf(s', u)
    {
      assert u != t ==> LocalTicketOf(s, u);
    }
    forall i, k | 0 <= i < |s'.locals| && s'.locals[i].grant <= k < |s'.localQueue[i]|
      ensures TakesLocal(s', s'.localQueue[i][k], i, k)
    {
      assert k < |s.localQueue[i]| ==> TakesLocal(s, s.localQueue[i][k], i, k);
    }
  }

  lemma ArriveOwner(s: State, t: nat, sock: nat)
    requires Wf(s) && OwnerInv(s) && Enabled(s, Arrive(t, sock))
    ensures OwnerInv(NextArrive(s, t, sock))
  {
    var s' := NextArrive(s, t, sock);
    assert Bystander(s, s', t);
    if s.owner.Passing? {
      assert HandedOver(s', s.owner.sock);
    }
    BystanderKept(s, s', t);
  }

  lemma ArriveInv(s: State, t: nat, sock: nat)
    requires Inv(s) && Enabled(s, Arrive(t, sock))
    ensures Inv(NextArrive(s, t, sock))
  {
    ArriveLocals(s, t, sock);
    GlobalKept(s, NextArrive(s, t, sock), t);
    ArriveOwner(s, t, sock);
  }

  /** The local grant of a waiting thread: it now holds its socket's lock. */
  lemma WaitLocalLocals(s: State, t: nat)
    requires Wf(s) && LocalInv(s) && t < |s.threads| && s.threads[t].pc == WaitLocal
    ensures LocalInv(NextLock(s, t))
  {
    var s' := NextLock(s, t);
    forall u | 0 <= u < |s'.threads| && InLocalQueue(s'.threads[u].pc)
      ensures LocalTicketOf(s', u)
    {
      assert LocalTicketOf(s, u);
    }
    forall i, k | 0 <= i < |s'.locals| && s'.locals[i].grant <= k < |s'.localQueue[i]|
      ensures TakesLocal(s', s'.localQueue[i][k], i, k)
    {
      assert TakesLocal(s, s.localQueue[i][k], i, k);
    }
  }

  lemma WaitLocalOwner(s: State, t: nat)
    requires Wf(s) && OwnerInv(s) && t < |s.threads| && s.threads[t].pc == WaitLocal
    ensures OwnerInv(NextLock(s, t))
  {
    var s' := NextLock(s, t);
    assert Bystander(s, s', t);
    if s.owner.Passing? {
      assert HandedOver(s', s.owner.sock);
    }
    BystanderKept(s, s', t);
  }

  lemma WaitLocalInv(s: State, t: nat)
    requires Inv(s) && t < |s.threads| && s.threads[t].pc == WaitLocal
    ensures Inv(NextLock(s, t))
  {
    WaitLocalLocals(s, t);
    GlobalKept(s, NextLock(s, t), t);
    WaitLocalOwner(s, t);
  }

  /** A handed-over lock is taken by the thread whose local ticket is granted. */
  lemma TakesOver(s: State, t: nat)
    requires Inv(s) && t < |s.threads| && s.threads[t].pc == TestSocketGrant
    requires s.locals[s.threads[t].sock].socketGrant
    ensures s.owner == Passing(s.threads[t].sock)
  {
    if s.owner.Running? {
      HoldsAlone(s, t, s.owner.t);
    }
    assert GrantPending(s, s.threads[t].sock);
  }

  lemma TakesOverOwner(s: State, t: nat)
    requires Wf(s) && OwnerInv(s) && t < |s.threads| && s.threads[t].pc == TestSocketGrant
    requires s.locals[s.threads[t].sock].socketGrant && s.owner == Passing(s.threads[t].sock)
    ensures OwnerInv(NextLock(s, t))
  {
    var s' := NextLock(s, t);
    assert OwnerAlone(s') && OwnerLocals(s', s'.threads[t]);
    forall i | 0 <= i < |s'.locals| && s'.locals[i].socketGrant
      ensures GrantPending(s', i)
    {
      assert GrantPending(s, i);
    }
    forall u | 0 <= u < |s'.threads| && s'.threads[u].pc == StoreGrantAfter
      ensures LastStore(s', s'.threads[u])
    {
      assert LastStore(s, s.threads[u]);
    }
  }

  lemma TestSocketGrantOwner(s: State, t: nat)
    requires Wf(s) && LocalInv(s) && OwnerInv(s) && t < |s.threads| && s.threads[t].pc == TestSocketGrant
    requires !s.locals[s.threads[t].sock].socketGrant
    ensures OwnerInv(NextLock(s, t))
  {
    var s' := NextLock(s, t);
    assert Bystander(s, s', t);
    if s.owner.Passing? {
      var i := s.owner.sock;
      assert TakesLocal(s, s.localQueue[i][s.locals[i].grant], i, s.locals[i].grant);
      assert HandedOver(s', i);
    }
    BystanderKept(s, s', t);
  }

  lemma TestSocketGrantQuiet(s: State, t: nat)
    requires Wf(s) && t < |s.threads| && s.threads[t].pc == TestSocketGrant
    requires s.locals[s.threads[t].sock].socketGrant ==> s.owner.Passing?
    ensures LocalsQuiet(s, NextLock(s, t), t) && GlobalQuiet(s, NextLock(s, t), t)
    ensures NextLock(s, t).grants == s.grants && NextLock(s, t).served == s.served
  {
  }

  lemma TestSocketGrantInv(s: State, t: nat)
    requires Inv(s) && t < |s.threads| && s.threads[t].pc == TestSocketGrant
    ensures Inv(NextLock(s, t))
  {
    var s' := NextLock(s, t);
    if s.locals[s.threads[t].sock].socketGrant {
      TakesOver(s, t);
      TakesOverOwner(s, t);
    } else {
      TestSocketGrantOwner(s, t);
    }
    TestSocketGrantQuiet(s, t);
    LocalsKept(s, s', t);
    GlobalKept(s, s', t);
  }

  lemma TakeGlobalTickets(s: State, t: nat)
    requires GlobalInv(s) && Wf(s) && t < |s.threads| && s.threads[t].pc == TakeGlobal
    ensures GlobalInv(NextLock(s, t))
  {
    var s' := NextLock(s, t);
    forall g | s'.served <= g < s'.request && (g == s'.served ==> s'.owner == Nobody)
      ensures TakesGlobal(s', s'.globalQueue[g], g)
    {
      assert g < s.request ==> TakesGlobal(s, s.globalQueue[g], g);
    }
    forall u | 0 <= u < |s'.threads| && s'.threads[u].pc == WaitGlobal
      ensures GlobalTicketOf(s', u)
    {
      assert u != t ==> GlobalTicketOf(s, u);
    }
  }

  lemma TakeGlobalOwner(s: State, t: nat)
    requires Wf(s) && OwnerInv(s) && t < |s.threads| && s.threads[t].pc == TakeGlobal
    ensures OwnerInv(NextLock(s, t))
  {
    var s' := NextLock(s, t);
    assert Bystander(s, s', t);
    if s.owner.Passing? {
      assert HandedOver(s', s.owner.sock);
    }
    BystanderKept(s, s', t);
  }

  lemma TakeGlobalInv(s: State, t: nat)
    requires Inv(s) && t < |s.threads| && s.threads[t].pc == TakeGlobal
    ensures Inv(NextLock(s, t))
  {
    LocalsKept(s, NextLock(s, t), t);
    TakeGlobalTickets(s, t);
    TakeGlobalOwner(s, t);
  }

  /** The slot of a waiting thread holds its ticket only while nobody owns the lock and
      the ticket is served. */
  lemma GrantedIsServed(s: State, t: nat)
    requires Inv(s) && t < |s.threads| && s.threads[t].pc == WaitGlobal
    requires s.grants[s.threads[t].gtkt % |s.grants|] == s.threads[t].gtkt
    ensures s.owner == Nobody && s.threads[t].gtkt == s.served
  {
    var i := s.threads[t].gtkt % |s.grants|;
    assert GlobalTicketOf(s, t) && s.grants[i] == LastGrant(i, s.served, |s.grants|);
  }

  lemma WaitGlobalTickets(s: State, t: nat)
    requires Wf(s) && GlobalInv(s) && t < |s.threads| && s.threads[t].pc == WaitGlobal
    requires s.grants[s.threads[t].gtkt % |s.grants|] == s.threads[t].gtkt
    requires s.owner == Nobody && s.threads[t].gtkt == s.served
    ensures GlobalInv(NextLock(s, t))
  {
    var s' := NextLock(s, t);
    assert GlobalTicketOf(s, t);
    forall g | s'.served < g < s'.request
      ensures TakesGlobal(s', s'.globalQueue[g], g)
    {
      assert TakesGlobal(s, s.globalQueue[g], g);
    }
    forall u | 0 <= u < |s'.threads| && s'.threads[u].pc == WaitGlobal
      ensures GlobalTicketOf(s', u)
    {
      assert GlobalTicketOf(s, u);
    }
  }

  lemma WaitGlobalOwner(s: State, t: nat)
    requires Wf(s) && OwnerInv(s) && t < |s.threads| && s.threads[t].pc == WaitGlobal
    requires s.grants[s.threads[t].gtkt % |s.grants|] == s.threads[t].gtkt
    requires s.owner == Nobody && s.threads[t].gtkt == s.served
    ensures OwnerInv(NextLock(s, t))
  {
    var s' := NextLock(s, t);
    assert OwnerAlone(s') && OwnerLocals(s', s'.threads[t]);
    forall i: nat | i < |s'.locals|
      ensures !s'.locals[i].socketGrant
    {
      assert s.locals[i].socketGrant ==> GrantPending(s, i);
    }
    forall u | 0 <= u < |s'.threads| && s'.threads[u].pc == StoreGrantAfter
      ensures LastStore(s', s'.threads[u])
    {
      assert LastStore(s, s.threads[u]);
    }
  }

  lemma WaitGlobalInv(s: State, t: nat)
    requires Inv(s) && t < |s.threads| && s.threads[t].pc == WaitGlobal
    ensures Inv(NextLock(s, t))
  {
    if s.grants[s.threads[t].gtkt % |s.grants|] == s.threads[t].gtkt {
      GrantedIsServed(s, t);
      WaitGlobalTickets(s, t);
      WaitGlobalOwner(s, t);
      LocalsKept(s, NextLock(s, t), t);
    }
  }

  // ----- the owner's steps within lock and unlock --------------------------------------

  /** A step of the owner that stays owner keeps the invariant if the owner still knows
      what it must. */
  lemma OwnerStepInv(s: State, s': State, t: nat)
    requires Inv(s) && LocalsQuiet(s, s', t) && GlobalQuiet(s, s', t) && OwnerStays(s, s', t)
    requires s'.grants == s.grants && OwnerLocals(s', s'.threads[t])
    ensures Inv(s')
  {
    LocalsKept(s, s', t);
    GlobalKept(s, s', t);
    OwnerKept(s, s', t);
  }

  /** The accesses of lock by the owner. */
  predicate OwnerLocks(pc: Pc) {
    pc in {ClearSocketGrant, StorePsl, StoreOwner}
  }

  lemma OwnerLocksLocals(s: State, t: nat)
    requires Wf(s) && OwnerInv(s) && t < |s.threads| && OwnerLocks(s.threads[t].pc)
    ensures OwnerLocals(NextLock(s, t), NextLock(s, t).threads[t])
  {
  }

  lemma OwnerLocksQuiet(s: State, t: nat)
    requires Wf(s) && OwnerInv(s) && t < |s.threads| && OwnerLocks(s.threads[t].pc)
    ensures OwnerStays(s, NextLock(s, t), t)
  {
    var i := s.threads[t].sock;
    assert s.locals[i].socketGrant ==> GrantPending(s, i);
  }

  lemma OwnerLocksInv(s: State, t: nat)
    requires Inv(s) && t < |s.threads| && OwnerLocks(s.threads[t].pc)
    ensures Inv(NextLock(s, t))
  {
    OwnerLocksLocals(s, t);
    OwnerLocksQuiet(s, t);
    OwnerStepInv(s, NextLock(s, t), t);
  }

  /** The loads of unlock before the lock is given away. */
  predicate OwnerLoads(pc: Pc) {
    pc in {Critical, LoadGrant, LoadRequests, LoadBatch, LoadOwner}
  }

  /** What the owner reads is what it must know. */
  lemma OwnerLoadsKnows(s: State, t: nat)
    requires Wf(s) && OwnerInv(s) && t < |s.threads| && OwnerLoads(s.threads[t].pc)
    requires s.threads[t].pc == LoadRequests ==>
               s.locals[s.threads[t].sock].grant < s.locals[s.threads[t].sock].requests
    ensures OwnerLocals(NextUnlock(s, t), NextUnlock(s, t).threads[t])
  {
    assert s.owner == Running(t) && OwnerLocals(s, s.threads[t]);
    match s.threads[t].pc
    case Critical =>
    case LoadGrant =>
    case LoadRequests =>
    case LoadBatch =>
    case LoadOwner =>
  }

  /** A load changes the thread alone. */
  lemma LoadsOnly(s: State, t: nat)
    requires Wf(s) && t < |s.threads| && OwnerLoads(s.threads[t].pc)
    ensures var th, th' := s.threads[t], NextUnlock(s, t).threads[t];
            && NextUnlock(s, t) == Put(s, t, th') && th'.sock == th.sock && th'.ltkt == th.ltkt
            && InUnlock(th'.pc) && th'.pc !in {StoreGrantLocal, StoreGrantAfter, StoreGrantsLate}
  {
  }

  lemma OwnerLoadsQuiet(s: State, t: nat)
    requires Wf(s) && OwnerInv(s) && t < |s.threads| && OwnerLoads(s.threads[t].pc)
    ensures OwnerStays(s, NextUnlock(s, t), t)
    ensures LocalsQuiet(s, NextUnlock(s, t), t) && GlobalQuiet(s, NextUnlock(s, t), t)
    ensures NextUnlock(s, t).grants == s.grants
  {
    LoadsOnly(s, t);
    assert s.locals[s.threads[t].sock].socketGrant ==> GrantPending(s, s.threads[t].sock);
  }

  lemma OwnerLoadsInv(s: State, t: nat)
    requires Inv(s) && t < |s.threads| && OwnerLoads(s.threads[t].pc)
    ensures Inv(NextUnlock(s, t))
  {
    assert LocalTicketOf(s, t);
    OwnerLoadsKnows(s, t);
    OwnerLoadsQuiet(s, t);
    OwnerStepInv(s, NextUnlock(s, t), t);
  }

  /** The stores of unlock before the lock is given away. */
  predicate OwnerStores(pc: Pc) {
    pc in {StoreBatchLess, StoreSocketGrant, StoreBatchFull}
  }

  lemma OwnerStoresKnows(s: State, t: nat)
    requires Wf(s) && OwnerInv(s) && t < |s.threads| && OwnerStores(s.threads[t].pc)
    requires s.locals[s.threads[t].sock].batch <= BATCH
    ensures OwnerLocals(NextUnlock(s, t), NextUnlock(s, t).threads[t])
  {
    assert s.owner == Running(t) && OwnerLocals(s, s.threads[t]);
  }

  lemma OwnerStoresQuiet(s: State, t: nat)
    requires Wf(s) && OwnerInv(s) && t < |s.threads| && OwnerStores(s.threads[t].pc)
    ensures OwnerStays(s, NextUnlock(s, t), t)
    ensures LocalsQuiet(s, NextUnlock(s, t), t) && GlobalQuiet(s, NextUnlock(s, t), t)
    ensures NextUnlock(s, t).grants == s.grants
  {
    assert s.owner == Running(t) && OwnerLocals(s, s.threads[t]);
    assert s.locals[s.threads[t].sock].socketGrant ==> GrantPending(s, s.threads[t].sock);
  }

  lemma OwnerStoresInv(s: State, t: nat)
    requires Inv(s) && t < |s.threads| && OwnerStores(s.threads[t].pc)
    ensures Inv(NextUnlock(s, t))
  {
    OwnerStoresKnows(s, t);
    OwnerStoresQuiet(s, t);
    OwnerStepInv(s, NextUnlock(s, t), t);
  }

  // ----- giving the lock away ------------------------------------------------------------

  lemma StoreGrantLocalHandovers(s: State, t: nat)
    requires Wf(s) && LocalInv(s) && OwnerInv(s) && t < |s.threads| && s.threads[t].pc == StoreGrantLocal
    ensures Handovers(NextUnlock(s, t)) && OwnerAlone(NextUnlock(s, t))
  {
    var s', i := NextUnlock(s, t), s.threads[t].sock;
    var k := s.locals[i].grant + 1;
    assert TakesLocal(s, s.localQueue[i][k], i, k) && LocalTicketOf(s, s.localQueue[i][k]) && LocalTicketOf(s, t);
    assert HandedOver(s', i);
    forall j | 0 <= j < |s'.locals| && s'.locals[j].socketGrant
      ensures GrantPending(s', j)
    {
      assert GrantPending(s, j);
    }
  }

  lemma StoreGrantLocalOthers(s: State, t: nat)
    requires Wf(s) && LocalInv(s) && OwnerInv(s) && t < |s.threads| && s.threads[t].pc == StoreGrantLocal
    ensures AfterRelease(NextUnlock(s, t))
  {
    var s' := NextUnlock(s, t);
    forall u | 0 <= u < |s'.threads| && s'.threads[u].pc == StoreGrantAfter
      ensures LastStore(s', s'.threads[u])
    {
      assert LastStore(s, s.threads[u]);
      HoldsAlone(s, t, u);
    }
  }

  lemma StoreGrantLocalInv(s: State, t: nat)
    requires Inv(s) && t < |s.threads| && s.threads[t].pc == StoreGrantLocal
    ensures Inv(NextUnlock(s, t))
  {
    LeavesLocals(s, NextUnlock(s, t), t);
    GlobalKept(s, NextUnlock(s, t), t);
    StoreGrantLocalHandovers(s, t);
    StoreGrantLocalOthers(s, t);
  }

  /** The release by t: the next global ticket is served and nobody owns the lock. */
  ghost predicate Releases(s: State, s': State, t: nat) {
    && OnlyMoves(s, s', t)
    && s.owner == Running(t) && s'.owner == Nobody && !OwnsGlobal(s'.threads[t].pc)
    && s'.threads[t].pc != WaitGlobal && s.threads[t].pc != WaitGlobal
    && s'.threads[t].sock == s.threads[t].sock
    && s'.request == s.request && s'.globalQueue == s.globalQueue && s'.served == s.served + 1
    && s'.locals == s.locals
  }

  lemma ReleaseTickets(s: State, s': State, t: nat)
    requires Releases(s, s', t) && GlobalInv(s)
    ensures GlobalInv(s')
  {
    forall g | s'.served <= g < s'.request
      ensures TakesGlobal(s', s'.globalQueue[g], g)
    {
      assert TakesGlobal(s, s.globalQueue[g], g);
    }
    forall u | 0 <= u < |s'.threads| && s'.threads[u].pc == WaitGlobal
      ensures GlobalTicketOf(s', u)
    {
      assert GlobalTicketOf(s, u);
    }
  }

  lemma ReleaseOwner(s: State, s': State, t: nat)
    requires Releases(s, s', t) && OwnerInv(s) && !s.locals[s.threads[t].sock].socketGrant
    requires s'.threads[t].pc == StoreGrantAfter ==> LastStore(s', s'.threads[t])
    ensures OwnerInv(s')
  {
    forall i: nat | i < |s'.locals|
      ensures !s'.locals[i].socketGrant
    {
      assert s.locals[i].socketGrant ==> GrantPending(s, i);
    }
    forall u | 0 <= u < |s'.threads| && s'.threads[u].pc == StoreGrantAfter
      ensures LastStore(s', s'.threads[u])
    {
      assert u != t ==> LastStore(s, s.threads[u]);
    }
  }

  lemma ReleasingKnows(s: State, t: nat)
    requires Wf(s) && OwnerInv(s) && t < |s.threads| && Releasing(s.threads[t].pc)
    ensures s.owner == Running(t) && s.threads[t].req == s.served + 1
    ensures !s.locals[s.threads[t].sock].socketGrant
    ensures s.threads[t].pc == StoreGrants ==> LastStore(s, s.threads[t])
  {
    var i := s.threads[t].sock;
    assert s.locals[i].socketGrant ==> GrantPending(s, i);
  }

  lemma StoreGrantsReleases(s: State, t: nat)
    requires Wf(s) && OwnerInv(s) && t < |s.threads| && Releasing(s.threads[t].pc)
    ensures Releases(s, NextUnlock(s, t), t) && LocalsQuiet(s, NextUnlock(s, t), t)
    ensures NextUnlock(s, t).grants == StoreGlobalGrant(s, s.served + 1).grants
    ensures NextUnlock(s, t).threads[t].pc == StoreGrantAfter ==>
              LastStore(NextUnlock(s, t), NextUnlock(s, t).threads[t])
  {
    ReleasingKnows(s, t);
  }

  lemma StoreGrantsInv(s: State, t: nat)
    requires Inv(s) && t < |s.threads| && Releasing(s.threads[t].pc)
    ensures Inv(NextUnlock(s, t))
  {
    var s' := NextUnlock(s, t);
    StoreGrantsReleases(s, t);
    ReleasingKnows(s, t);
    GlobalGrantStep(s);
    ReleaseInv(s, s', t);
  }

  lemma ReleaseInv(s: State, s': State, t: nat)
    requires Inv(s) && Releases(s, s', t) && LocalsQuiet(s, s', t) && !s.locals[s.threads[t].sock].socketGrant
    requires GrantsInv(StoreGlobalGrant(s, s.served + 1)) && s'.grants == StoreGlobalGrant(s, s.served + 1).grants
    requires s'.threads[t].pc == StoreGrantAfter ==> LastStore(s', s'.threads[t])
    ensures Inv(s')
  {
    LocalsKept(s, s', t);
    ReleaseTickets(s, s', t);
    ReleaseOwner(s, s', t);
  }

  /** The last store of unlock, by a thread that owns the global lock no more. */
  lemma StoreGrantAfterHandovers(s: State, t: nat)
    requires Wf(s) && LocalInv(s) && OwnerInv(s) && t < |s.threads| && s.threads[t].pc == StoreGrantAfter
    ensures Handovers(NextUnlock(s, t))
  {
    var s', i := NextUnlock(s, t), s.threads[t].sock;
    assert LastStore(s, s.threads[t]) && LocalTicketOf(s, t);
    assert s.owner.Passing? ==> s.owner.sock != i;
    forall j | 0 <= j < |s'.locals| && s'.locals[j].socketGrant
      ensures GrantPending(s', j)
    {
      assert GrantPending(s, j);
    }
  }

  lemma StoreGrantAfterKnows(s: State, t: nat)
    requires Wf(s) && LocalInv(s) && OwnerInv(s) && t < |s.threads| && s.threads[t].pc == StoreGrantAfter
    ensures OwnerAlone(NextUnlock(s, t)) && OwnerKnows(NextUnlock(s, t))
  {
    assert LastStore(s, s.threads[t]);
    if s.owner.Running? {
      HoldsAlone(s, t, s.owner.t);
    }
  }

  lemma StoreGrantAfterOthers(s: State, t: nat)
    requires Wf(s) && LocalInv(s) && OwnerInv(s) && t < |s.threads| && s.threads[t].pc == StoreGrantAfter
    ensures AfterRelease(NextUnlock(s, t))
  {
    var s' := NextUnlock(s, t);
    assert LastStore(s, s.threads[t]);
    forall u | 0 <= u < |s'.threads| && s'.threads[u].pc == StoreGrantAfter
      ensures LastStore(s', s'.threads[u])
    {
      assert LastStore(s, s.threads[u]);
      HoldsAlone(s, t, u);
    }
  }

  lemma StoreGrantAfterInv(s: State, t: nat)
    requires Inv(s) && t < |s.threads| && s.threads[t].pc == StoreGrantAfter
    ensures Inv(NextUnlock(s, t))
  {
    assert LastStore(s, s.threads[t]);
    LeavesLocals(s, NextUnlock(s, t), t);
    GlobalKept(s, NextUnlock(s, t), t);
    StoreGrantAfterHandovers(s, t);
    StoreGrantAfterKnows(s, t);
    StoreGrantAfterOthers(s, t);
  }

  /** The reordered store: grant first, the release later. */
  lemma SwappedOwner(s: State, t: nat)
    requires Wf(s) && LocalInv(s) && OwnerInv(s) && t < |s.threads| && s.threads[t].pc == StoreGrants
    ensures OwnerInv(NextSwapped(s, t))
  {
    var s', i := NextSwapped(s, t), s.threads[t].sock;
    ReleasingKnows(s, t);
    assert OwnerAlone(s') && OwnerLocals(s', s'.threads[t]);
    forall j | 0 <= j < |s'.locals| && s'.locals[j].socketGrant
      ensures GrantPending(s', j)
    {
      assert GrantPending(s, j);
    }
    forall u | 0 <= u < |s'.threads| && s'.threads[u].pc == StoreGrantAfter
      ensures LastStore(s', s'.threads[u])
    {
      assert LastStore(s, s.threads[u]);
      HoldsAlone(s, t, u);
    }
  }

  lemma SwappedInv(s: State, t: nat)
    requires Inv(s) && t < |s.threads| && s.threads[t].pc == StoreGrants
    ensures Inv(NextSwapped(s, t))
  {
    ReleasingKnows(s, t);
    LeavesLocals(s, NextSwapped(s, t), t);
    GlobalKept(s, NextSwapped(s, t), t);
    SwappedOwner(s, t);
  }

  // ----- every step ------------------------------------------------------------------------

  lemma LockStepInv(s: State, t: nat)
    requires Inv(s) && Enabled(s, Step(t)) && !InUnlock(s.threads[t].pc)
    ensures Inv(NextLock(s, t))
  {
    match s.threads[t].pc
    case WaitLocal => WaitLocalInv(s, t);
    case TestSocketGrant => TestSocketGrantInv(s, t);
    case TakeGlobal => TakeGlobalInv(s, t);
    case WaitGlobal => WaitGlobalInv(s, t);
    case _ => OwnerLocksInv(s, t);
  }

  lemma GiveAwayInv(s: State, t: nat)
    requires Inv(s) && t < |s.threads|
    requires s.threads[t].pc in {StoreGrantLocal, StoreGrants, StoreGrantsLate, StoreGrantAfter}
    ensures Inv(NextUnlock(s, t))
  {
    match s.threads[t].pc
    case StoreGrantLocal => StoreGrantLocalInv(s, t);
    case StoreGrantAfter => StoreGrantAfterInv(s, t);
    case _ => StoreGrantsInv(s, t);
  }

  lemma UnlockStepInv(s: State, t: nat)
    requires Inv(s) && Enabled(s, Step(t)) && InUnlock(s.threads[t].pc)
    ensures Inv(NextUnlock(s, t))
  {
    if OwnerLoads(s.threads[t].pc) {
      OwnerLoadsInv(s, t);
    } else if OwnerStores(s.threads[t].pc) {
      OwnerStoresInv(s, t);
    } else {
      GiveAwayInv(s, t);
    }
  }

  lemma StepInv(s: State, a: Action)
    requires Inv(s) && Enabled(s, a)
    ensures Inv(Next(s, a))
  {
    match a
    case Arrive(t, sock) => ArriveInv(s, t, sock);
    case Swapped(t) => SwappedInv(s, t);
    case Step(t) =>
      if InUnlock(s.threads[t].pc) {
        UnlockStepInv(s, t);
      } else {
        LockStepInv(s, t);
      }
  }
}
