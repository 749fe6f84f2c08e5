/** The bound of 101 critical sections per ownership is attained, and what is left of a
    batch is carried over: two threads of one socket hand the lock to each other. */
module CohortAttained {
  import opened Basics
  import opened CohortSpec
  import opened CohortInv
  import opened CohortTheorems
  import opened CohortFairness
  import opened CohortBatch
  import A = CohortArrival

  // ----- runs that are built and counted ------------------------------------------------

  datatype Counted = Counted(s: State, y: Tally)

  /** Both invariants, stated so that a proof that only passes them on does not unfold them. */
  ghost predicate Fit(p: Counted) {
    Wf(p.s) && |p.y.handed| == |p.s.locals| && forall n :: IsLength(p.s.threads, n) ==> Inv(p.s) && TallyInv(p.s, p.y)
  }

  lemma Fits(p: Counted)
    requires Fit(p)
    ensures Inv(p.s) && TallyInv(p.s, p.y)
  {
    assert IsLength(p.s.threads, |p.s.threads|);
  }

  function After(p: Counted, a: Action): (q: Counted)
    requires Wf(p.s) && Enabled(p.s, a) && |p.y.handed| == |p.s.locals|
  {
    Counted(Next(p.s, a), Count(p.y, p.s, a))
  }

  /** acts lead from p to q, with n entries. */
  ghost predicate Leads(p: Counted, acts: seq<Action>, q: Counted, n: nat) {
    && Wf(p.s) && Wf(q.s) && |p.y.handed| == |p.s.locals|
    && forall k :: IsLength(acts, k) ==>
         Runs(p.s, acts) && Exec(p.s, acts) == q.s && TallyOf(p.s, acts, p.y) == q.y && Entries(p.s, acts) == n
  }

  lemma LeadsRun(p: Counted, acts: seq<Action>, q: Counted, n: nat)
    requires Leads(p, acts, q, n)
    ensures Runs(p.s, acts) && Exec(p.s, acts) == q.s && TallyOf(p.s, acts, p.y) == q.y && Entries(p.s, acts) == n
  {
    assert IsLength(acts, |acts|);
  }

  lemma LeadsNowhere(p: Counted)
    requires Fit(p)
    ensures Leads(p, [], p, 0)
  {
  }

  lemma StepFits(p: Counted, a: Action)
    requires Fit(p) && Enabled(p.s, a)
    ensures Fit(After(p, a))
  {
    Fits(p);
    StepInv(p.s, a);
    TallyStep(p.s, a, p.y);
  }

  lemma LeadsFrom(p: Counted, a: Action, acts: seq<Action>, q: Counted, n: nat)
    requires Fit(p) && Enabled(p.s, a) && Leads(After(p, a), acts, q, n)
    ensures Leads(p, [a] + acts, q, n + if Enters(p.s, a) then 1 else 0)
  {
    LeadsRun(After(p, a), acts, q, n);
    assert ([a] + acts)[1..] == acts;
  }

  /** The first step of a nonempty run. */
  lemma LeadsFirst(p: Counted, acts: seq<Action>, q: Counted, n: nat) returns (k: nat)
    requires Fit(p) && Leads(p, acts, q, n) && acts != []
    ensures Enabled(p.s, acts[0]) && Fit(After(p, acts[0])) && Leads(After(p, acts[0]), acts[1..], q, k)
    ensures n == k + if Enters(p.s, acts[0]) then 1 else 0
  {
    LeadsRun(p, acts, q, n);
    StepFits(p, acts[0]);
    k := Entries(After(p, acts[0]).s, acts[1..]);
  }

  lemma LeadsOnFromNowhere(p: Counted, q: Counted, n: nat, more: seq<Action>, r: Counted, m: nat)
    requires Leads(p, [], q, n) && Leads(q, more, r, m)
    ensures Leads(p, more, r, n + m)
  {
    LeadsRun(p, [], q, n);
  }

  lemma {:induction false} LeadsOn(p: Counted, acts: seq<Action>, q: Counted, n: nat, more: seq<Action>, r: Counted,
                                   m: nat)
    requires Fit(p) && Leads(p, acts, q, n) && Leads(q, more, r, m)
    ensures Leads(p, acts + more, r, n + m)
    decreases |acts|
  {
    if |acts| == 0 {
      LeadsOnFromNowhere(p, q, n, more, r, m);
      assert acts + more == more;
    } else {
      var k := LeadsFirst(p, acts, q, n);
      LeadsOn(After(p, acts[0]), acts[1..], q, k, more, r, m);
      LeadsFrom(p, acts[0], acts[1..] + more, r, k + m);
      Regroup(acts, more);
    }
  }

  lemma Regroup(acts: seq<Action>, more: seq<Action>)
    requires acts != []
    ensures acts + more == [acts[0]] + (acts[1..] + more)
  {
  }

  // ----- two threads of socket 0 ----------------------------------------------------------

  /** Threads 0 and 1 are idle and the lock is free. */
  ghost predicate Rest(s: State)
    requires Wf(s)
  {
    && |s.threads| >= 2 && s.threads[0].pc == Idle && s.threads[1].pc == Idle
    && s.locals[0].requests == s.locals[0].grant && s.owner == Nobody && s.request == s.served
  }

  /** Thread h is at the front of socket 0, and w is idle or waits right behind it. w calls
      lock while h is in its critical section. */
  ghost predicate Front(s: State, h: nat, w: nat)
    requires Wf(s)
  {
    && |s.threads| >= 2 && h < 2 && w == 1 - h
    && var f, o, l := s.threads[h], s.threads[w], s.locals[0];
       && f.sock == 0 && f.ltkt == l.grant && f.pc !in {Idle, StoreGrantsLate}
       && (if o.pc == Idle then l.requests == l.grant + 1 && !SawWaiter(f.pc)
           else o.pc == WaitLocal && o.sock == 0 && o.ltkt == l.grant + 1 && l.requests == l.grant + 2 &&
                InUnlock(f.pc))
       && FrontOwns(s, h)
  }

  ghost predicate FrontOwns(s: State, h: nat)
    requires Wf(s) && h < |s.threads|
  {
    match s.threads[h].pc
    case WaitLocal =>
      (s.owner == Passing(0) && s.request == s.served + 1) || (s.owner == Nobody && s.request == s.served)
    case TestSocketGrant =>
      (s.owner == Passing(0) && s.request == s.served + 1) || (s.owner == Nobody && s.request == s.served)
    case TakeGlobal => s.owner == Nobody && s.request == s.served
    case StoreGrantAfter => s.owner == Nobody && s.request == s.served
    case WaitGlobal => s.owner == Nobody && s.request == s.served + 1 && s.threads[h].gtkt == s.served
    case _ => s.owner == Running(h) && s.request == s.served + 1
  }

  /** Accesses left to the next entry, or to the end of unlock and the other's next entry. */
  function Rank(pc: Pc): nat {
    match pc
    case Critical => 14
    case LoadGrant => 13
    case LoadRequests => 12
    case LoadBatch => 11
    case StoreBatchFull => 10
    case LoadOwner => 9
    case StoreBatchLess => 9
    case StoreGrants => 8
    case StoreSocketGrant => 8
    case StoreGrantAfter => 7
    case StoreGrantLocal => 7
    case Idle => 6
    case WaitLocal => 5
    case TestSocketGrant => 4
    case TakeGlobal => 3
    case WaitGlobal => 2
    case StorePsl => 1
    case _ => 0
  }

  /** The order of the accesses. */
  predicate Follows(pc: Pc, pc': Pc) {
    match pc
    case WaitLocal => pc' == TestSocketGrant
    case TestSocketGrant => pc' == ClearSocketGrant || pc' == TakeGlobal
    case TakeGlobal => pc' == WaitGlobal
    case WaitGlobal => pc' == StorePsl
    case StorePsl => pc' == StoreOwner
    case StoreOwner => pc' == Critical
    case ClearSocketGrant => pc' == Critical
    case Critical => pc' == LoadGrant
    case LoadGrant => pc' == LoadRequests
    case LoadRequests => pc' == LoadBatch || pc' == LoadOwner
    case LoadBatch => pc' == StoreBatchLess || pc' == StoreBatchFull
    case StoreBatchLess => pc' == StoreSocketGrant
    case StoreSocketGrant => pc' == StoreGrantLocal
    case StoreGrantLocal => pc' == Idle
    case StoreBatchFull => pc' == LoadOwner
    case LoadOwner => pc' == StoreGrants
    case StoreGrants => pc' == StoreGrantAfter
    case StoreGrantAfter => pc' == Idle
    case _ => false
  }

  /** What a step of h from s to s' does. */
  ghost predicate Relayed(s: State, s': State, h: nat, w: nat)
    requires Wf(s) && Front(s, h, w)
  {
    && Wf(s') && |s'.threads| == |s.threads| && s'.threads[w].pc == s.threads[w].pc
    && Follows(s.threads[h].pc, s'.threads[h].pc)
    && (if s'.threads[h].pc != Idle then Front(s', h, w)
        else if s.threads[w].pc == Idle then Rest(s') else Front(s', w, h))
    && Chooses(s, s', h, w)
  }

  ghost predicate Chooses(s: State, s': State, h: nat, w: nat)
    requires Wf(s) && Wf(s') && h < |s.threads| == |s'.threads| && w < |s.threads|
  {
    var pc, pc', b, b' := s.threads[h].pc, s'.threads[h].pc, s.locals[0].batch, s'.locals[0].batch;
    && (pc == LoadRequests ==> pc' == if s.threads[w].pc == Idle then LoadOwner else LoadBatch)
    && (pc == LoadBatch ==> pc' == if b != 0 then StoreBatchLess else StoreBatchFull)
    && b' == (if pc == StoreBatchLess then b - 1 else if pc == StoreBatchFull then 100 else b)
    && s'.served == (if pc == StoreGrants then s.served + 1 else s.served)
  }

  lemma RelayApproach(s: State, h: nat, w: nat)
    requires Wf(s) && Front(s, h, w) && s.threads[h].pc in {WaitLocal, TestSocketGrant, TakeGlobal}
    requires s.locals[0].socketGrant <==> s.owner == Passing(0)
    ensures Relayed(s, NextLock(s, h), h, w)
  {
  }

  lemma RelayTicket(s: State, h: nat, w: nat)
    requires Wf(s) && Front(s, h, w) && s.threads[h].pc == WaitGlobal
    requires s.grants[s.served % |s.grants|] == s.served
    ensures Relayed(s, NextLock(s, h), h, w)
  {
  }

  lemma RelayEnter(s: State, h: nat, w: nat)
    requires Wf(s) && Front(s, h, w) && OwnerLocks(s.threads[h].pc)
    ensures Relayed(s, NextLock(s, h), h, w)
  {
  }

  /** An access within unlock by the owner that h stays. */
  ghost predicate Within(s: State, s': State, h: nat) {
    && OnlyMoves(s, s', h) && |s'.locals| == |s.locals|
    && s'.threads[h].sock == s.threads[h].sock && s'.threads[h].ltkt == s.threads[h].ltkt
    && s'.owner == s.owner == Running(h) && s'.request == s.request && s'.served == s.served
    && s'.locals[0].grant == s.locals[0].grant && s'.locals[0].requests == s.locals[0].requests
    && Follows(s.threads[h].pc, s'.threads[h].pc)
    && InUnlock(s.threads[h].pc) && InUnlock(s'.threads[h].pc) && s.threads[h].pc !in {StoreGrants, StoreGrantAfter}
  }

  lemma RelayWithin(s: State, s': State, h: nat, w: nat)
    requires Wf(s) && Front(s, h, w) && Within(s, s', h)
    requires SawWaiter(s'.threads[h].pc) ==> s.threads[w].pc != Idle
    requires Chooses(s, s', h, w)
    ensures Relayed(s, s', h, w)
  {
  }

  lemma RelayLoads(s: State, h: nat, w: nat)
    requires Wf(s) && Front(s, h, w) && OwnerLoads(s.threads[h].pc) && OwnerLocals(s, s.threads[h])
    ensures Relayed(s, NextUnlock(s, h), h, w)
  {
    LoadsOnly(s, h);
    RelayWithin(s, NextUnlock(s, h), h, w);
  }

  lemma RelayStores(s: State, h: nat, w: nat)
    requires Wf(s) && Front(s, h, w) && OwnerLocals(s, s.threads[h])
    requires s.threads[h].pc in {StoreBatchLess, StoreSocketGrant, StoreBatchFull}
    ensures Relayed(s, NextUnlock(s, h), h, w)
  {
    RelayWithin(s, NextUnlock(s, h), h, w);
  }

  lemma RelayRelease(s: State, h: nat, w: nat)
    requires Wf(s) && Front(s, h, w) && OwnerLocals(s, s.threads[h]) && s.threads[h].pc == StoreGrants
    ensures Relayed(s, NextUnlock(s, h), h, w)
  {
  }

  lemma RelayAway(s: State, h: nat, w: nat)
    requires Wf(s) && Front(s, h, w) && s.threads[h].pc in {StoreGrantLocal, StoreGrantAfter}
    requires LastStore(s, s.threads[h])
    ensures Relayed(s, NextUnlock(s, h), h, w)
  {
  }

  lemma RelayInLock(s: State, h: nat, w: nat)
    requires Inv(s) && Front(s, h, w) && !InUnlock(s.threads[h].pc)
    ensures Relayed(s, NextLock(s, h), h, w)
  {
    if OwnerLocks(s.threads[h].pc) {
      RelayEnter(s, h, w);
    } else if s.threads[h].pc == WaitGlobal {
      ServedSlotGranted(s);
      RelayTicket(s, h, w);
    } else {
      if s.owner == Nobody {
        A.NotAnnounced(s, 0);
      }
      RelayApproach(s, h, w);
    }
  }

  lemma RelayInUnlock(s: State, h: nat, w: nat)
    requires Wf(s) && OwnerInv(s) && Front(s, h, w) && InUnlock(s.threads[h].pc)
    ensures Relayed(s, NextUnlock(s, h), h, w)
  {
    var pc := s.threads[h].pc;
    assert pc == StoreGrantAfter ==> LastStore(s, s.threads[h]);
    assert pc != StoreGrantAfter ==> OwnerLocals(s, s.threads[h]);
    if OwnerLoads(pc) {
      RelayLoads(s, h, w);
    } else if pc in {StoreGrantLocal, StoreGrantAfter} {
      RelayAway(s, h, w);
    } else if pc == StoreGrants {
      RelayRelease(s, h, w);
    } else {
      RelayStores(s, h, w);
    }
  }

  lemma Relay(s: State, h: nat, w: nat)
    requires Inv(s) && Front(s, h, w)
    ensures Relayed(s, Next(s, Step(h)), h, w)
  {
    if InUnlock(s.threads[h].pc) {
      RelayInUnlock(s, h, w);
    } else {
      RelayInLock(s, h, w);
    }
  }

  /** The first of the two calls lock. */
  lemma CallFirst(s: State, h: nat, w: nat)
    requires Wf(s) && Rest(s) && h < 2 && w == 1 - h
    ensures Front(NextArrive(s, h, 0), h, w) && NextArrive(s, h, 0).threads[h].pc == WaitLocal
  {
  }

  /** The other one calls lock while h is in its critical section. */
  lemma CallSecond(s: State, h: nat, w: nat)
    requires Wf(s) && Front(s, h, w) && s.threads[h].pc == Critical && s.threads[w].pc == Idle
    ensures var s' := NextArrive(s, w, 0);
            Front(s', h, w) && s'.threads[h].pc == Critical && s'.threads[w].pc == WaitLocal &&
            s'.locals[0].batch == s.locals[0].batch && s'.served == s.served
  {
  }

  // ----- the phases of a run -----------------------------------------------------------------

  /** Entries that the strategy has left under the ticket that h is served under; alone
      says whether the other thread is idle. */
  function LeftAt(pc: Pc, alone: bool, batch: nat): nat {
    if pc in {StoreBatchFull, LoadOwner, StoreGrants, StoreGrantAfter} then 0
    else if pc in {LoadGrant, LoadRequests} && alone then 0
    else if pc in {Critical, LoadGrant, LoadRequests, LoadBatch, StoreBatchLess} then batch
    else batch + 1
  }

  function Left(s: State, h: nat): nat
    requires Wf(s) && h < 2 <= |s.threads|
  {
    LeftAt(s.threads[h].pc, s.threads[1 - h].pc == Idle, s.locals[0].batch)
  }

  lemma FollowsLeft(pc: Pc, pc': Pc, alone: bool, batch: nat, batch': nat)
    requires Follows(pc, pc') && 0 < LeftAt(pc, alone, batch) && !(pc == Critical && alone)
    requires pc == LoadRequests ==> pc' == LoadBatch
    requires pc == LoadBatch ==> pc' == StoreBatchLess
    requires batch' == if pc == StoreBatchLess then batch - 1 else batch
    ensures pc in {StoreOwner, ClearSocketGrant} ==> LeftAt(pc, alone, batch) == batch + 1
    ensures pc !in {StoreOwner, ClearSocketGrant} && pc' != Idle ==>
              LeftAt(pc', alone, batch') == LeftAt(pc, alone, batch) && Rank(pc') < Rank(pc)
    ensures pc' == Idle ==>
              LeftAt(WaitLocal, true, batch') == LeftAt(pc, alone, batch) && Rank(WaitLocal) + 1 < Rank(pc)
  {
    match pc {
      case Critical =>
      case LoadBatch =>
      case StoreBatchLess =>
      case _ =>
    }
  }

  /** h has just entered. */
  ghost predicate JustEntered(s: State, h: nat, w: nat, batch: nat)
    requires Wf(s)
  {
    Front(s, h, w) && s.threads[h].pc == Critical && s.threads[w].pc == Idle && s.locals[0].batch == batch
  }

  /** What an ownership has covered when n more sections have been entered. */
  function Covered(p: Counted, n: nat): nat {
    n + if p.s.owner == Nobody then 0 else p.y.entries
  }

  /** The next access towards the next entry. */
  function Move(s: State, h: nat, w: nat): Action
    requires Wf(s) && Front(s, h, w)
  {
    if s.threads[h].pc == Critical && s.threads[w].pc == Idle then Arrive(w, 0) else Step(h)
  }

  /** A step from s to s' has brought the next entry, now by h', nearer, or is an entry. */
  ghost predicate Nearer(s: State, s': State, h: nat, h': nat, enters: bool)
    requires Wf(s) && h < 2 <= |s.threads|
  {
    && Wf(s') && h' < 2 <= |s'.threads| && Front(s', h', 1 - h') && s'.served == s.served
    && Left(s', h') + (if enters then 1 else 0) == Left(s, h)
    && (if enters then s'.threads[h'].pc == Critical && s'.threads[1 - h'].pc == Idle
        else Ahead(s', h') < Ahead(s, h))
  }

  lemma EntersNearer(s: State, s': State, h: nat, w: nat)
    requires Wf(s) && Front(s, h, w) && Relayed(s, s', h, w) && s.threads[h].pc in {StoreOwner, ClearSocketGrant}
    ensures Nearer(s, s', h, h, true)
  {
    EntersLeft(s, s', h, w);
    assert s.threads[w].pc == Idle;
  }

  lemma EntersLeft(s: State, s': State, h: nat, w: nat)
    requires Wf(s) && Wf(s') && h < 2 && w == 1 - h && 2 <= |s.threads| == |s'.threads|
    requires Follows(s.threads[h].pc, s'.threads[h].pc) && s'.threads[w].pc == s.threads[w].pc && Chooses(s, s', h, w)
    requires s.threads[h].pc in {StoreOwner, ClearSocketGrant}
    ensures Left(s', h) + 1 == Left(s, h) && Left(s', h) == s'.locals[0].batch && s'.threads[h].pc == Critical
  {
  }

  lemma PassesNearer(s: State, s': State, h: nat, w: nat)
    requires Wf(s) && Front(s, h, w) && 0 < Left(s, h) && Relayed(s, s', h, w) && s'.threads[h].pc == Idle
    ensures Nearer(s, s', h, w, false)
  {
    assert s.threads[w].pc == WaitLocal;
    PassesLeft(s, s', h, w);
  }

  lemma PassesLeft(s: State, s': State, h: nat, w: nat)
    requires Wf(s) && Wf(s') && h < 2 && w == 1 - h && 2 <= |s.threads| == |s'.threads| && 0 < Left(s, h)
    requires Follows(s.threads[h].pc, Idle) && s.threads[w].pc == s'.threads[w].pc == WaitLocal
    requires s'.threads[h].pc == Idle && Chooses(s, s', h, w)
    ensures Left(s', w) == Left(s, h) && Ahead(s', w) < Ahead(s, h)
  {
    FollowsLeft(s.threads[h].pc, Idle, false, s.locals[0].batch, s'.locals[0].batch);
  }

  lemma StaysNearer(s: State, s': State, h: nat, w: nat)
    requires Wf(s) && Front(s, h, w) && 0 < Left(s, h) && Relayed(s, s', h, w) && s'.threads[h].pc != Idle
    requires s.threads[h].pc !in {StoreOwner, ClearSocketGrant}
    requires s.threads[h].pc == Critical ==> s.threads[w].pc != Idle
    ensures Nearer(s, s', h, h, false)
  {
    StaysLeft(s, s', h, w);
  }

  lemma StaysLeft(s: State, s': State, h: nat, w: nat)
    requires Wf(s) && Wf(s') && h < 2 && w == 1 - h && 2 <= |s.threads| == |s'.threads| && 0 < Left(s, h)
    requires Follows(s.threads[h].pc, s'.threads[h].pc) && s'.threads[w].pc == s.threads[w].pc && Chooses(s, s', h, w)
    requires s.threads[h].pc !in {StoreOwner, ClearSocketGrant} && s'.threads[h].pc != Idle
    requires s.threads[h].pc == Critical || s.threads[h].pc == LoadRequests ==> s.threads[w].pc != Idle
    ensures Left(s', h) == Left(s, h) && Ahead(s', h) < Ahead(s, h)
  {
    FollowsLeft(s.threads[h].pc, s'.threads[h].pc, s.threads[w].pc == Idle, s.locals[0].batch, s'.locals[0].batch);
  }

  lemma RelayedIsNearer(s: State, s': State, h: nat, w: nat) returns (h': nat)
    requires Wf(s) && Front(s, h, w) && 0 < Left(s, h) && Relayed(s, s', h, w)
    requires s.threads[h].pc == Critical ==> s.threads[w].pc != Idle
    ensures Nearer(s, s', h, h', s.threads[h].pc in {StoreOwner, ClearSocketGrant})
  {
    h' := h;
    if s.threads[h].pc in {StoreOwner, ClearSocketGrant} {
      EntersNearer(s, s', h, w);
    } else if s'.threads[h].pc == Idle {
      PassesNearer(s, s', h, w);
      h' := w;
    } else {
      StaysNearer(s, s', h, w);
    }
  }

  lemma CallIsNearer(s: State, h: nat, w: nat)
    requires Wf(s) && Front(s, h, w) && s.threads[h].pc == Critical && s.threads[w].pc == Idle
    ensures Nearer(s, NextArrive(s, w, 0), h, h, false)
  {
    CallSecond(s, h, w);
  }

  /** One step towards the next entry. */
  lemma Moves(s: State, h: nat, w: nat) returns (h': nat)
    requires Inv(s) && Front(s, h, w) && 0 < Left(s, h)
    ensures Enabled(s, Move(s, h, w)) && Nearer(s, Next(s, Move(s, h, w)), h, h', Enters(s, Move(s, h, w)))
  {
    if s.threads[h].pc == Critical && s.threads[w].pc == Idle {
      CallIsNearer(s, h, w);
      h' := h;
    } else {
      Relay(s, h, w);
      h' := RelayedIsNearer(s, Next(s, Step(h)), h, w);
    }
  }

  lemma CallCounts(p: Counted, w: nat)
    requires Wf(p.s) && |p.y.handed| == |p.s.locals| && Enabled(p.s, Arrive(w, 0))
    ensures Covered(After(p, Arrive(w, 0)), 0) == Covered(p, 0)
  {
  }

  lemma LockCounts(p: Counted, h: nat, w: nat)
    requires Wf(p.s) && |p.y.handed| == |p.s.locals| && Front(p.s, h, w) && !InUnlock(p.s.threads[h].pc)
    requires p.s.owner.Passing? ==> p.s.threads[h].pc in {WaitLocal, TestSocketGrant}
    requires p.s.owner == Nobody ==> !p.s.locals[0].socketGrant
    ensures Covered(After(p, Step(h)), 0) == Covered(p, if Enters(p.s, Step(h)) then 1 else 0)
  {
  }

  lemma UnlockCounts(p: Counted, h: nat, w: nat)
    requires Wf(p.s) && |p.y.handed| == |p.s.locals| && Front(p.s, h, w) && InUnlock(p.s.threads[h].pc)
    requires p.s.threads[h].pc != StoreGrants
    ensures Covered(After(p, Step(h)), 0) == Covered(p, 0)
  {
  }

  /** The tally counts the entries of the ownership. */
  lemma MoveCounts(p: Counted, h: nat, w: nat)
    requires Fit(p) && Front(p.s, h, w) && p.s.threads[h].pc != StoreGrants
    ensures var a := Move(p.s, h, w);
            Covered(After(p, a), 0) == Covered(p, if Enters(p.s, a) then 1 else 0)
  {
    Fits(p);
    if Move(p.s, h, w) != Step(h) {
      CallCounts(p, w);
    } else if InUnlock(p.s.threads[h].pc) {
      UnlockCounts(p, h, w);
    } else {
      if p.s.owner == Nobody {
        A.NotAnnounced(p.s, 0);
      }
      LockCounts(p, h, w);
    }
  }

  lemma MoveOn(p: Counted, h: nat, w: nat) returns (a: Action, q: Counted, h': nat)
    requires Fit(p) && Front(p.s, h, w) && 0 < Left(p.s, h)
    ensures Enabled(p.s, a) && q == After(p, a) && Fit(q) && Nearer(p.s, q.s, h, h', Enters(p.s, a))
    ensures Covered(q, 0) == Covered(p, if Enters(p.s, a) then 1 else 0)
  {
    a := Move(p.s, h, w);
    q := After(p, a);
    Fits(p);
    h' := Moves(p.s, h, w);
    StepFits(p, a);
    MoveCounts(p, h, w);
  }

  function Ahead(s: State, h: nat): nat
    requires h < 2 <= |s.threads|
  {
    Rank(s.threads[h].pc) + if s.threads[1 - h].pc == Idle then 1 else 0
  }

  /** n more sections can be entered; folded as Fit is. */
  ghost predicate Ready(p: Counted, h: nat, w: nat, n: nat) {
    && Fit(p) && h < 2 <= |p.s.threads| && w == 1 - h
    && forall k :: IsLength(p.s.threads, k) ==>
         Front(p.s, h, w) && n <= Left(p.s, h) &&
         (n == 0 ==> p.s.threads[h].pc == Critical && p.s.threads[w].pc == Idle)
  }

  ghost predicate Arrived(p: Counted, h: nat, w: nat, batch: nat) {
    Fit(p) && forall k :: IsLength(p.s.threads, k) ==> JustEntered(p.s, h, w, batch)
  }

  lemma ReadyFront(p: Counted, h: nat, w: nat, n: nat)
    requires Ready(p, h, w, n)
    ensures Fit(p) && Front(p.s, h, w) && n <= Left(p.s, h)
    ensures n == 0 ==> p.s.threads[h].pc == Critical && p.s.threads[w].pc == Idle
  {
    assert IsLength(p.s.threads, |p.s.threads|);
  }

  lemma ReadyArrived(p: Counted, h: nat, w: nat)
    requires Ready(p, h, w, 0)
    ensures Arrived(p, h, w, Left(p.s, h))
  {
    ReadyFront(p, h, w, 0);
  }

  lemma NearerReady(p: Counted, q: Counted, h: nat, h': nat, enters: bool, n: nat)
    requires Fit(p) && h < 2 <= |p.s.threads| && 0 < n <= Left(p.s, h)
    requires Fit(q) && Nearer(p.s, q.s, h, h', enters)
    ensures Ready(q, h', 1 - h', if enters then n - 1 else n)
  {
  }

  /** What one move has made of the rest; enters says whether it was an entry. */
  ghost predicate Nears(p: Counted, q: Counted, h: nat, h': nat, enters: bool)
    requires Wf(p.s) && h < 2 <= |p.s.threads|
  {
    && Wf(q.s) && h' < 2 <= |q.s.threads| && q.s.served == p.s.served
    && Left(q.s, h') + (if enters then 1 else 0) == Left(p.s, h) && (enters || Ahead(q.s, h') < Ahead(p.s, h))
    && Covered(q, 0) == Covered(p, if enters then 1 else 0)
  }

  lemma LeadsStep(p: Counted, a: Action)
    requires Fit(p) && Enabled(p.s, a)
    ensures Leads(p, [a], After(p, a), if Enters(p.s, a) then 1 else 0)
  {
    StepFits(p, a);
    LeadsNowhere(After(p, a));
    LeadsFrom(p, a, [], After(p, a), 0);
    assert [a] + [] == [a];
  }

  /** One move, e entries, keeps the rest possible. */
  lemma MoveReady(p: Counted, h: nat, w: nat, n: nat) returns (move: seq<Action>, q: Counted, h': nat, e: nat)
    requires Ready(p, h, w, n) && 0 < n
    ensures Fit(p) && e <= 1 && Leads(p, move, q, e) && h' < 2
    ensures Ready(q, h', 1 - h', n - e) && Nears(p, q, h, h', e == 1)
  {
    var a;
    ReadyFront(p, h, w, n);
    a, q, h' := MoveOn(p, h, w);
    LeadsStep(p, a);
    move, e := [a], if Enters(p.s, a) then 1 else 0;
    NearerReady(p, q, h, h', e == 1, n);
  }

  /** n more sections are entered under one ticket. */
  lemma {:induction false} HandOn(p: Counted, h: nat, w: nat, n: nat)
    returns (acts: seq<Action>, q: Counted, h': nat, w': nat)
    requires Ready(p, h, w, n)
    ensures n <= Left(p.s, h) && Leads(p, acts, q, n) && q.s.served == p.s.served
    ensures Arrived(q, h', w', Left(p.s, h) - n) && q.y.entries == Covered(p, n)
    decreases n, Ahead(p.s, h)
  {
    if n == 0 {
      acts, q, h', w' := [], p, h, w;
      ReadyArrived(p, h, w);
      ReadyFront(p, h, w, n);
      LeadsNowhere(p);
    } else {
      var move, p', k, e := MoveReady(p, h, w, n);
      acts, q, h', w' := HandOn(p', k, 1 - k, n - e);
      LeadsOn(p, move, p', e, acts, q, n - e);
      acts := move + acts;
    }
  }

  // ----- the ends of an ownership ------------------------------------------------------------

  /** h at the front, with the given batch; folded as Fit is. */
  ghost predicate Leaving(p: Counted, h: nat, w: nat, pc: Pc, alone: bool, batch: nat) {
    && Fit(p) && h < 2 <= |p.s.threads| && w == 1 - h
    && p.s.threads[h].pc == pc && (p.s.threads[w].pc == Idle <==> alone) && p.s.locals[0].batch == batch
    && forall k :: IsLength(p.s.threads, k) ==> Front(p.s, h, w)
  }

  lemma LeavingFront(p: Counted, h: nat, w: nat, pc: Pc, alone: bool, batch: nat)
    requires Leaving(p, h, w, pc, alone, batch)
    ensures Front(p.s, h, w) && Inv(p.s)
  {
    assert IsLength(p.s.threads, |p.s.threads|);
    Fits(p);
  }

  function BatchAfter(pc: Pc, batch: nat): nat {
    if pc == StoreBatchLess && batch > 0 then batch - 1 else if pc == StoreBatchFull then 100 else batch
  }

  /** Where an access of unlock leads. */
  ghost predicate LeadsAway(q: Counted, h: nat, w: nat, pc': Pc, alone: bool, batch: nat) {
    if pc' != Idle then Leaving(q, h, w, pc', alone, batch)
    else if alone then Fit(q) && Rest(q.s) && q.s.locals[0].batch == batch
    else Leaving(q, w, h, WaitLocal, true, batch)
  }

  /** One access of unlock. */
  lemma LeaveStep(p: Counted, h: nat, w: nat, pc: Pc, alone: bool, batch: nat) returns (q: Counted, pc': Pc)
    requires Leaving(p, h, w, pc, alone, batch) && InUnlock(pc) && pc != StoreBatchLess
    ensures Leads(p, [Step(h)], q, 0) && Follows(pc, pc') && LeadsAway(q, h, w, pc', alone, BatchAfter(pc, batch))
    ensures pc == LoadRequests ==> pc' == if alone then LoadOwner else LoadBatch
    ensures pc == LoadBatch ==> pc' == if batch != 0 then StoreBatchLess else StoreBatchFull
    ensures pc != LoadBatch ==> q.y == p.y
    ensures pc != StoreGrants ==> q.s.served == p.s.served
    ensures pc == StoreGrantAfter ==> q.s.owner == Nobody
  {
    LeavingFront(p, h, w, pc, alone, batch);
    Relay(p.s, h, w);
    LeadsStep(p, Step(h));
    StepFits(p, Step(h));
    q := After(p, Step(h));
    pc' := q.s.threads[h].pc;
    LeaveStepFolds(p.s, q, h, w, pc, alone, batch);
  }

  lemma LeaveStepFolds(s: State, q: Counted, h: nat, w: nat, pc: Pc, alone: bool, batch: nat)
    requires Wf(s) && Front(s, h, w) && Relayed(s, q.s, h, w) && Fit(q) && pc != StoreBatchLess
    requires s.threads[h].pc == pc && (s.threads[w].pc == Idle <==> alone) && s.locals[0].batch == batch
    ensures LeadsAway(q, h, w, q.s.threads[h].pc, alone, BatchAfter(pc, batch))
  {
    if q.s.threads[h].pc == Idle && !alone {
      assert q.s.threads[w].pc == WaitLocal;
    }
  }

  /** Accesses of unlock before it has been decided what becomes of the lock. */
  lemma {:induction false} Decide(p: Counted, h: nat, w: nat, pc: Pc, batch: nat)
    returns (acts: seq<Action>, q: Counted)
    requires Leaving(p, h, w, pc, false, batch) && pc in {Critical, LoadGrant, LoadRequests, LoadBatch}
    ensures Leads(p, acts, q, 0) && Leaving(q, h, w, LoadBatch, false, batch)
    ensures q.y == p.y && q.s.served == p.s.served
    decreases Rank(pc)
  {
    if pc == LoadBatch {
      acts, q := [], p;
      LeadsNowhere(p);
    } else {
      var p', pc' := DecideStep(p, h, w, pc, batch);
      acts, q := Decide(p', h, w, pc', batch);
      LeadsOn(p, [Step(h)], p', 0, acts, q, 0);
      acts := [Step(h)] + acts;
    }
  }

  lemma DecideStep(p: Counted, h: nat, w: nat, pc: Pc, batch: nat) returns (q: Counted, pc': Pc)
    requires Leaving(p, h, w, pc, false, batch) && pc in {Critical, LoadGrant, LoadRequests}
    ensures Leads(p, [Step(h)], q, 0) && Leaving(q, h, w, pc', false, batch)
    ensures pc' in {LoadGrant, LoadRequests, LoadBatch} && Rank(pc') < Rank(pc)
    ensures q.y == p.y && q.s.served == p.s.served
  {
    q, pc' := LeaveStep(p, h, w, pc, false, batch);
  }

  /** The owner has seen a waiter and an empty batch: it refills the batch and releases. */
  lemma {:induction false} GiveUp(p: Counted, h: nat, w: nat, pc: Pc, batch: nat)
    returns (acts: seq<Action>, q: Counted)
    requires Leaving(p, h, w, pc, false, batch) && GivesUp(pc, batch)
    ensures Leads(p, acts, q, 0) && Leaving(q, w, h, WaitLocal, true, 100)
    ensures q.s.owner == Nobody
    decreases Rank(pc)
  {
    var p', pc' := GiveUpStep(p, h, w, pc, batch);
    if pc' == Idle {
      acts, q := [Step(h)], p';
    } else {
      acts, q := GiveUp(p', h, w, pc', if pc == StoreBatchFull then 100 else batch);
      LeadsOn(p, [Step(h)], p', 0, acts, q, 0);
      acts := [Step(h)] + acts;
    }
  }

  predicate GivesUp(pc: Pc, batch: nat) {
    || (pc in {LoadBatch, StoreBatchFull} && batch == 0)
    || (pc in {LoadOwner, StoreGrants, StoreGrantAfter} && batch == 100)
  }

  lemma GiveUpStep(p: Counted, h: nat, w: nat, pc: Pc, batch: nat) returns (q: Counted, pc': Pc)
    requires Leaving(p, h, w, pc, false, batch) && GivesUp(pc, batch)
    ensures Leads(p, [Step(h)], q, 0) && Rank(pc') < Rank(pc)
    ensures pc' != Idle ==> var b := if pc == StoreBatchFull then 100 else batch;
                            Leaving(q, h, w, pc', false, b) && GivesUp(pc', b)
    ensures pc' == Idle ==> Leaving(q, w, h, WaitLocal, true, 100) && q.s.owner == Nobody
  {
    q, pc' := LeaveStep(p, h, w, pc, false, batch);
  }

  /** The owner sees no waiter and releases; the batch stays as it is. */
  lemma {:induction false} Quit(p: Counted, h: nat, w: nat, pc: Pc, batch: nat)
    returns (acts: seq<Action>, q: Counted)
    requires Leaving(p, h, w, pc, true, batch) && Quits(pc)
    ensures Leads(p, acts, q, 0) && Fit(q) && Rest(q.s) && q.s.locals[0].batch == batch
    decreases Rank(pc)
  {
    var p', pc' := QuitStep(p, h, w, pc, batch);
    if pc' == Idle {
      acts, q := [Step(h)], p';
    } else {
      acts, q := Quit(p', h, w, pc', batch);
      LeadsOn(p, [Step(h)], p', 0, acts, q, 0);
      acts := [Step(h)] + acts;
    }
  }

  predicate Quits(pc: Pc) {
    pc in {Critical, LoadGrant, LoadRequests, LoadOwner, StoreGrants, StoreGrantAfter}
  }

  lemma QuitStep(p: Counted, h: nat, w: nat, pc: Pc, batch: nat) returns (q: Counted, pc': Pc)
    requires Leaving(p, h, w, pc, true, batch) && Quits(pc)
    ensures Leads(p, [Step(h)], q, 0) && Rank(pc') < Rank(pc)
    ensures pc' != Idle ==> Leaving(q, h, w, pc', true, batch) && Quits(pc')
    ensures pc' == Idle ==> Fit(q) && Rest(q.s) && q.s.locals[0].batch == batch
  {
    q, pc' := LeaveStep(p, h, w, pc, true, batch);
  }

  // ----- whole runs ----------------------------------------------------------------------------

  function Start(nodes: nat, threads: nat): Counted {
    Counted(Init(nodes, threads), NoTally(nodes))
  }

  lemma StartFits(nodes: nat, threads: nat)
    requires 0 < nodes && 2 <= threads
    ensures Fit(Start(nodes, threads)) && Rest(Start(nodes, threads).s)
    ensures Start(nodes, threads).s.locals[0].batch == 0
  {
    InitInv(nodes, threads);
    InitTally(nodes, threads);
  }

  lemma ArrivedLeaving(q: Counted, h: nat, w: nat, batch: nat)
    requires Arrived(q, h, w, batch)
    ensures h < 2 && Leaving(q, h, w, Critical, true, batch)
  {
    assert IsLength(q.s.threads, |q.s.threads|);
  }

  lemma LeavingReady(p: Counted, h: nat, w: nat, batch: nat, n: nat)
    requires Leaving(p, h, w, WaitLocal, true, batch) && 0 < n <= batch + 1
    ensures Ready(p, h, w, n) && Left(p.s, h) == batch + 1
  {
  }

  /** From a free lock one of the two calls lock. */
  lemma Call(p: Counted, h: nat) returns (q: Counted)
    requires Fit(p) && Rest(p.s) && h < 2
    ensures Leads(p, [Arrive(h, 0)], q, 0) && Leaving(q, h, 1 - h, WaitLocal, true, p.s.locals[0].batch)
    ensures q.s.owner == Nobody
  {
    CallFirst(p.s, h, 1 - h);
    LeadsStep(p, Arrive(h, 0));
    StepFits(p, Arrive(h, 0));
    q := After(p, Arrive(h, 0));
  }

  /** A thread acquires the free lock, while the other one stays idle. */
  lemma Acquire(p: Counted, h: nat) returns (acts: seq<Action>, q: Counted, h': nat)
    requires Fit(p) && Rest(p.s) && h < 2
    ensures Leads(p, acts, q, 1) && h' < 2 && q.y.entries == 1
    ensures Leaving(q, h', 1 - h', Critical, true, p.s.locals[0].batch)
  {
    var w';
    var p' := Call(p, h);
    LeavingReady(p', h, 1 - h, p.s.locals[0].batch, 1);
    acts, q, h', w' := HandOn(p', h, 1 - h, 1);
    ArrivedLeaving(q, h', w', p.s.locals[0].batch);
    LeadsOn(p, [Arrive(h, 0)], p', 0, acts, q, 1);
    acts := [Arrive(h, 0)] + acts;
  }

  lemma CallBehind(p: Counted, h: nat, w: nat, batch: nat) returns (q: Counted)
    requires Leaving(p, h, w, Critical, true, batch)
    ensures Leads(p, [Arrive(w, 0)], q, 0) && Leaving(q, h, w, Critical, false, batch)
    ensures q.y == p.y && q.s.served == p.s.served
  {
    LeavingFront(p, h, w, Critical, true, batch);
    CallSecond(p.s, h, w);
    LeadsStep(p, Arrive(w, 0));
    StepFits(p, Arrive(w, 0));
    q := After(p, Arrive(w, 0));
  }

  /** The other thread calls lock, and the owner sees it. */
  lemma SeeWaiter(p: Counted, h: nat, w: nat, batch: nat) returns (acts: seq<Action>, q: Counted)
    requires Leaving(p, h, w, Critical, true, batch)
    ensures Leads(p, acts, q, 0) && Leaving(q, h, w, LoadBatch, false, batch)
    ensures q.y == p.y && q.s.served == p.s.served
  {
    var p' := CallBehind(p, h, w, batch);
    acts, q := Decide(p', h, w, Critical, batch);
    LeadsOn(p, [Arrive(w, 0)], p', 0, acts, q, 0);
    acts := [Arrive(w, 0)] + acts;
  }

  /** The first ownership of a socket that ends with a waiter leaves a full batch. */
  lemma Refill(nodes: nat, threads: nat) returns (acts: seq<Action>, q: Counted, h: nat, n: nat)
    requires 0 < nodes && 2 <= threads
    ensures Leads(Start(nodes, threads), acts, q, n) && h < 2
    ensures Leaving(q, h, 1 - h, WaitLocal, true, 100) && q.s.owner == Nobody
  {
    var p := Start(nodes, threads);
    StartFits(nodes, threads);
    var one, p1, k := Acquire(p, 0);
    var two, p2 := SeeWaiter(p1, k, 1 - k, 0);
    var three, p3 := GiveUp(p2, k, 1 - k, LoadBatch, 0);
    LeadsOn(p, one, p1, 1, two, p2, 0);
    LeadsOn(p, one + two, p2, 1, three, p3, 0);
    acts, q, h, n := one + two + three, p3, 1 - k, 1;
  }

  /** From then on one ownership covers 101 sections. */
  lemma Cover(p: Counted, h: nat) returns (acts: seq<Action>, q: Counted, h': nat)
    requires h < 2 && Leaving(p, h, 1 - h, WaitLocal, true, 100) && p.s.owner == Nobody
    ensures Leads(p, acts, q, 101) && q.s.served == p.s.served && q.y.entries == 101
    ensures h' < 2 && Leaving(q, h', 1 - h', Critical, true, 0)
  {
    var w';
    LeavingReady(p, h, 1 - h, 100, 101);
    acts, q, h', w' := HandOn(p, h, 1 - h, 101);
    ArrivedLeaving(q, h', w', 0);
  }

  /** The bound of OwnershipBound is attained: whatever the number of sockets, two threads
      can enter 101 times while one global ticket is served. */
  lemma BoundAttained(nodes: nat, threads: nat) returns (before: seq<Action>, acts: seq<Action>)
    requires 0 < nodes && 2 <= threads
    ensures Runs(Init(nodes, threads), before)
    ensures var s := Exec(Init(nodes, threads), before);
            Runs(s, acts) && Exec(s, acts).served == s.served && Entries(s, acts) == 101
  {
    var p, h, n;
    before, p, h, n := Refill(nodes, threads);
    LeadsRun(Start(nodes, threads), before, p, n);
    var q, k;
    acts, q, k := Cover(p, h);
    LeadsRun(p, acts, q, 101);
  }

  /** In every run one global ticket covers at most b critical sections. */
  ghost predicate BoundedOwnership(nodes: nat, threads: nat, b: int)
    requires 0 < nodes
  {
    forall before, acts ::
      Runs(Init(nodes, threads), before) && Runs(Exec(Init(nodes, threads), before), acts) &&
      Exec(Exec(Init(nodes, threads), before), acts).served == Exec(Init(nodes, threads), before).served
      ==> Entries(Exec(Init(nodes, threads), before), acts) <= b
  }

  /** 101 is the least bound. */
  lemma ExactOwnershipBound(nodes: nat, threads: nat, b: int)
    requires 0 < nodes && 2 <= threads
    ensures BoundedOwnership(nodes, threads, b) <==> b >= 101
  {
    if b >= 101 {
      forall before, acts |
        Runs(Init(nodes, threads), before) && Runs(Exec(Init(nodes, threads), before), acts) &&
        Exec(Exec(Init(nodes, threads), before), acts).served == Exec(Init(nodes, threads), before).served
        ensures Entries(Exec(Init(nodes, threads), before), acts) <= b
      {
        InitInv(nodes, threads);
        RunInv(Init(nodes, threads), before);
        OwnershipBound(Exec(Init(nodes, threads), before), acts);
      }
    } else {
      var before, acts := BoundAttained(nodes, threads);
    }
  }

  lemma {:induction false} HandedStays(s: State, acts: seq<Action>, y: Tally)
    requires Wf(s) && Runs(s, acts) && |y.handed| == |s.locals| && y.handed[0].Some?
    ensures |TallyOf(s, acts, y).handed| > 0 && TallyOf(s, acts, y).handed[0].Some?
    decreases acts
  {
    if acts != [] {
      LocalsKeptCount(s, acts[0]);
      HandedStays(Next(s, acts[0]), acts[1..], Count(y, s, acts[0]));
    }
  }

  lemma FullBatchHanded(p: Counted, h: nat)
    requires h < 2 && Leaving(p, h, 1 - h, WaitLocal, true, 100)
    ensures p.y.handed[0].Some?
  {
    Fits(p);
    LeavingFront(p, h, 1 - h, WaitLocal, true, 100);
    assert SocketTally(p.s, p.y, 0);
  }

  /** After a cover and a quiet end the next owner that sees a waiter has nothing left. */
  lemma CoverAndQuit(p: Counted, h: nat) returns (acts: seq<Action>, q: Counted, h': nat)
    requires h < 2 && Leaving(p, h, 1 - h, WaitLocal, true, 100) && p.s.owner == Nobody
    ensures Leads(p, acts, q, 102) && h' < 2 && Leaving(q, h', 1 - h', LoadBatch, false, 0) && q.y.entries == 1
  {
    var two, p2, h2 := Cover(p, h);
    var three, p3 := Quit(p2, h2, 1 - h2, Critical, 0);
    var four, p4, h4 := Acquire(p3, 0);
    var five, p5 := SeeWaiter(p4, h4, 1 - h4, 0);
    LeadsOn(p, two, p2, 101, three, p3, 0);
    LeadsOn(p, two + three, p3, 101, four, p4, 1);
    LeadsOn(p, two + three + four, p4, 102, five, p5, 0);
    acts, q, h' := two + three + four + five, p5, h4;
  }

  /** What was spent is carried over an ownership that ends without a waiter: after 100
      handovers such an end leaves the socket's next owner none, and it releases to the
      first waiter it sees although one section only has been entered since it took its
      ticket. */
  lemma CarriedOver(nodes: nat, threads: nat) returns (acts: seq<Action>, t: nat)
    requires 0 < nodes && 2 <= threads
    ensures Runs(Init(nodes, threads), acts)
    ensures var s, y := Exec(Init(nodes, threads), acts), TallyOf(Init(nodes, threads), acts, NoTally(nodes));
            && t < |s.threads| && s.threads[t].pc == LoadBatch && !HandsOver(s, Step(t))
            && y.carried == Some(100) && y.entries == 1
  {
    var p := Start(nodes, threads);
    StartFits(nodes, threads);
    var one, p1, h1, n := Refill(nodes, threads);
    var rest, q, h := CoverAndQuit(p1, h1);
    LeadsOn(p, one, p1, n, rest, q, 102);
    LeadsRun(p, one + rest, q, n + 102);
    FullBatchHanded(p1, h1);
    LeadsRun(p1, rest, q, 102);
    HandedStays(p1.s, rest, p1.y);
    NothingLeft(q, h);
    acts, t := one + rest, h;
  }

  lemma NothingLeft(p: Counted, t: nat)
    requires t < 2 && Leaving(p, t, 1 - t, LoadBatch, false, 0) && p.y.entries == 1 && p.y.handed[0].Some?
    ensures !HandsOver(p.s, Step(t)) && p.y.carried == Some(100)
  {
    Fits(p);
    LeavingFront(p, t, 1 - t, LoadBatch, false, 0);
    FrontDecides(p.s, t);
    NothingCarried(p.s, p.y, t);
    DecisionTally(p.s, t, p.y);
  }

  lemma FrontDecides(s: State, t: nat)
    requires Wf(s) && t < 2 && Front(s, t, 1 - t) && s.threads[t].pc == LoadBatch
    ensures s.owner == Running(t) && s.threads[t].sock == 0
  {
  }

  lemma NothingCarried(s: State, y: Tally, t: nat)
    requires t < |s.threads| && s.threads[t].pc == LoadBatch && s.threads[t].sock == 0 && s.owner == Running(t)
    requires 0 < |s.locals| == |y.handed| && SocketTally(s, y, 0) && s.locals[0].batch == 0
    requires OwnershipTally(s, y) && y.handed[0].Some? && y.entries == 1
    ensures y.carried == Some(100)
  {
  }
}
