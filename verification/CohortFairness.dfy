/** Fairness and progress of the cohort lock. */
module CohortFairness {
  import opened Basics
  import opened CohortSpec
  import opened CohortInv
  import opened CohortTheorems

  // ----- the partitioned grants ----------------------------------------------

  /** The oldest global ticket that still has a waiting thread, if any has. */
  function FirstWaiting(s: State): nat {
    if s.owner == Nobody then s.served else s.served + 1
  }

  /** The owner has stored grant before its release: its socket is free again. */
  predicate ReleaseLate(s: State) {
    s.owner.Running? && s.owner.t < |s.threads| && s.threads[s.owner.t].pc == StoreGrantsLate
  }

  function SocketOfTicket(s: State, g: nat): nat {
    if g < |s.globalQueue| && s.globalQueue[g] < |s.threads| then s.threads[s.globalQueue[g]].sock else 0
  }

  function OwnerSocket(s: State): nat {
    match s.owner
    case Running(t) => if t < |s.threads| then s.threads[t].sock else 0
    case Passing(i) => i
    case Nobody => 0
  }

  lemma WaitersOnDistinctSockets(s: State, g: nat, h: nat)
    requires Wf(s) && LocalInv(s) && GlobalInv(s) && FirstWaiting(s) <= g < h < s.request
    ensures SocketOfTicket(s, g) != SocketOfTicket(s, h)
  {
    var t, u := s.globalQueue[g], s.globalQueue[h];
    assert TakesGlobal(s, t, g) && TakesGlobal(s, u, h);
    assert LocalTicketOf(s, t) && LocalTicketOf(s, u);
  }

  lemma WaitersNotOnOwnersSocket(s: State, g: nat)
    requires Inv(s) && FirstWaiting(s) <= g < s.request && s.owner != Nobody && !ReleaseLate(s)
    ensures SocketOfTicket(s, g) != OwnerSocket(s)
  {
    var t := s.globalQueue[g];
    assert TakesGlobal(s, t, g) && LocalTicketOf(s, t);
    if s.owner.Running? {
      assert LocalTicketOf(s, s.owner.t);
    }
  }

  function WaiterSockets(s: State): seq<int> {
    seq(if s.request <= FirstWaiting(s) then 0 else s.request - FirstWaiting(s),
        (k: nat) => SocketOfTicket(s, FirstWaiting(s) + k))
  }

  lemma WaiterSocketAt(s: State, k: nat)
    requires Wf(s) && k < |WaiterSockets(s)|
    ensures WaiterSockets(s)[k] == SocketOfTicket(s, FirstWaiting(s) + k)
    ensures FirstWaiting(s) + k < s.request
    ensures 0 <= WaiterSockets(s)[k] < |s.grants|
  {
  }

  lemma WaiterSocketsDistinct(s: State)
    requires Wf(s) && LocalInv(s) && GlobalInv(s)
    ensures Distinct(WaiterSockets(s))
    ensures forall i :: 0 <= i < |WaiterSockets(s)| ==> 0 <= WaiterSockets(s)[i] < |s.grants|
  {
    var xs := WaiterSockets(s);
    forall i, j | 0 <= i < j < |xs|
      ensures xs[i] != xs[j]
    {
      WaiterSocketAt(s, i);
      WaiterSocketAt(s, j);
      WaitersOnDistinctSockets(s, FirstWaiting(s) + i, FirstWaiting(s) + j);
    }
    forall i | 0 <= i < |xs|
      ensures 0 <= xs[i] < |s.grants|
    {
      WaiterSocketAt(s, i);
    }
  }

  lemma OwnerSocketDistinct(s: State)
    requires Inv(s) && s.owner != Nobody && !ReleaseLate(s)
    ensures OwnerSocket(s) !in WaiterSockets(s) && OwnerSocket(s) < |s.grants|
  {
    var xs := WaiterSockets(s);
    forall i | 0 <= i < |xs|
      ensures xs[i] != OwnerSocket(s)
    {
      WaiterSocketAt(s, i);
      WaitersNotOnOwnersSocket(s, FirstWaiting(s) + i);
    }
  }

  /** At most one global ticket per socket is outstanding. Storing grant before the
      release frees the socket for one more ticket, but no more threads wait. */
  lemma OutstandingTickets(s: State)
    requires Inv(s)
    ensures s.request - FirstWaiting(s) <= |s.grants|
    ensures s.request - s.served <= |s.grants| + (if ReleaseLate(s) then 1 else 0)
  {
    var xs := WaiterSockets(s);
    WaiterSocketsDistinct(s);
    Pigeonhole(xs, |s.grants|);
    if s.owner != Nobody && !ReleaseLate(s) {
      OwnerSocketDistinct(s);
      Pigeonhole(xs + [OwnerSocket(s)], |s.grants|);
    }
  }

  /** Two waiting threads never watch the same slot. */
  lemma WaitersOnDistinctSlots(s: State, t: nat, u: nat)
    requires Inv(s) && t < |s.threads| && u < |s.threads| && t != u
    requires s.threads[t].pc == WaitGlobal && s.threads[u].pc == WaitGlobal
    ensures s.threads[t].gtkt % |s.grants| != s.threads[u].gtkt % |s.grants|
  {
    OutstandingTickets(s);
    assert GlobalTicketOf(s, t) && GlobalTicketOf(s, u);
    var g, h := s.threads[t].gtkt, s.threads[u].gtkt;
    if g < h {
      WrapExact(g, h, |s.grants|);
    } else {
      WrapExact(h, g, |s.grants|);
    }
  }

  /** The release overwrites a value nobody waits for, and only the taker of the
      released ticket watches the slot. */
  lemma ReleaseOverwritesNoAwaitedGrant(s: State, t: nat, w: nat)
    requires Inv(s) && t < |s.threads| && s.threads[t].pc in {StoreGrants, StoreGrantsLate}
    requires w < |s.threads| && s.threads[w].pc == WaitGlobal
    ensures s.grants[s.threads[t].req % |s.grants|] < s.threads[w].gtkt
    ensures s.threads[w].gtkt % |s.grants| == s.threads[t].req % |s.grants| <==> s.threads[w].gtkt == s.threads[t].req
  {
    assert GlobalTicketOf(s, w);
    OutstandingTickets(s);
    WrapExact(s.threads[t].req, s.threads[w].gtkt, |s.grants|);
  }

  /** No more local tickets of a socket are outstanding than there are threads. */
  lemma LocalQueueBound(s: State, i: nat)
    requires Inv(s) && i < |s.locals|
    ensures s.locals[i].requests - s.locals[i].grant <= |s.threads|
  {
    var xs := s.localQueue[i][s.locals[i].grant..];
    forall j | 0 <= j < |xs|
      ensures TakesLocal(s, xs[j], i, s.locals[i].grant + j)
    {
      assert TakesLocal(s, s.localQueue[i][s.locals[i].grant + j], i, s.locals[i].grant + j);
    }
    Pigeonhole(xs, |s.threads|);
  }

  // ----- bounded bypass -------------------------------------------------------

  predicate Enters(s: State, a: Action)
    requires Enabled(s, a)
  {
    a.Step? && s.threads[a.t].pc in {ClearSocketGrant, StoreOwner}
  }

  /** How many critical sections the current global ownership can still cover. */
  function Remaining(s: State): nat
    requires Wf(s)
  {
    match s.owner
    case Nobody => BATCH + 1
    case Passing(i) => if i < |s.locals| then s.locals[i].batch + 1 else 0
    case Running(t) =>
      if t >= |s.threads| then 0 else
      var th := s.threads[t];
      var batch := s.locals[th.sock].batch;
      if th.pc in {ClearSocketGrant, StorePsl, StoreOwner, StoreSocketGrant, StoreGrantLocal} then batch + 1
      else if th.pc in {Critical, LoadGrant, LoadRequests, LoadBatch, StoreBatchLess} then batch
      else 0
  }

  /** A step from s to s' either stays within the ownership, paying for an entry,
      or ends it. */
  ghost predicate Spends(s: State, s': State, enters: bool) {
    && Wf(s) && Wf(s')
    && (s'.served == s.served ==> Remaining(s') + (if enters then 1 else 0) <= Remaining(s))
    && (s'.served != s.served ==> s'.served == s.served + 1 && s'.owner == Nobody && !enters)
  }

  /** Taking the lock over, or taking it when it is free, starts with what is left. */
  lemma TakingSpends(s: State, t: nat)
    requires Wf(s) && LocalInv(s) && t < |s.threads|
    requires || (s.threads[t].pc == TestSocketGrant && s.owner == Passing(s.threads[t].sock))
             || (s.threads[t].pc == WaitGlobal && s.owner == Nobody)
    ensures Spends(s, NextLock(s, t), false)
  {
  }

  lemma LockSpends(s: State, t: nat)
    requires Wf(s) && OwnerAlone(s) && Enabled(s, Step(t)) && !InUnlock(s.threads[t].pc)
    requires NextLock(s, t).owner == s.owner
    ensures Spends(s, NextLock(s, t), Enters(s, Step(t)))
  {
  }

  lemma RemainingAfterLock(s: State, t: nat)
    requires Inv(s) && Enabled(s, Step(t)) && !InUnlock(s.threads[t].pc)
    ensures Spends(s, NextLock(s, t), Enters(s, Step(t)))
  {
    var th := s.threads[t];
    if th.pc == TestSocketGrant && s.locals[th.sock].socketGrant {
      TakesOver(s, t);
      TakingSpends(s, t);
    } else if th.pc == WaitGlobal && s.grants[th.gtkt % |s.grants|] == th.gtkt {
      GrantedIsServed(s, t);
      TakingSpends(s, t);
    } else {
      LockSpends(s, t);
    }
  }

  lemma UnlockWithinSpends(s: State, t: nat)
    requires Wf(s) && OwnerInv(s) && t < |s.threads|
    requires OwnerLoads(s.threads[t].pc) || OwnerStores(s.threads[t].pc)
    ensures Spends(s, NextUnlock(s, t), false)
  {
    assert s.owner == Running(t) && OwnerLocals(s, s.threads[t]);
  }

  lemma UnlockAwaySpends(s: State, t: nat)
    requires Wf(s) && OwnerInv(s) && t < |s.threads|
    requires s.threads[t].pc in {StoreGrantLocal, StoreGrants, StoreGrantsLate, StoreGrantAfter}
    ensures Spends(s, NextUnlock(s, t), false)
  {
    assert s.threads[t].pc != StoreGrantAfter ==> s.owner == Running(t) && OwnerLocals(s, s.threads[t]);
  }

  lemma RemainingAfterUnlock(s: State, t: nat)
    requires Wf(s) && OwnerInv(s) && Enabled(s, Step(t)) && InUnlock(s.threads[t].pc)
    ensures Spends(s, NextUnlock(s, t), false)
  {
    if OwnerLoads(s.threads[t].pc) || OwnerStores(s.threads[t].pc) {
      UnlockWithinSpends(s, t);
    } else {
      UnlockAwaySpends(s, t);
    }
  }

  lemma RemainingAfterOther(s: State, a: Action)
    requires Wf(s) && OwnerAlone(s) && Enabled(s, a) && !a.Step?
    ensures Spends(s, Next(s, a), false)
  {
    if s.owner.Running? {
      assert a.Swapped? ==> s.owner.t == a.t;
    }
  }

  lemma RemainingStep(s: State, a: Action)
    requires Inv(s) && Enabled(s, a)
    ensures Spends(s, Next(s, a), Enters(s, a))
  {
    if a.Step? {
      if InUnlock(s.threads[a.t].pc) {
        RemainingAfterUnlock(s, a.t);
      } else {
        RemainingAfterLock(s, a.t);
      }
    } else {
      RemainingAfterOther(s, a);
    }
  }

  /** Critical sections entered during a run. */
  function Entries(s: State, acts: seq<Action>): nat
    requires Wf(s) && Runs(s, acts)
    decreases acts
  {
    if acts == [] then 0
    else (if Enters(s, acts[0]) then 1 else 0) + Entries(Next(s, acts[0]), acts[1..])
  }

  lemma {:induction false} ServedGrows(s: State, acts: seq<Action>)
    requires Inv(s) && Runs(s, acts)
    ensures s.served <= Exec(s, acts).served
    decreases acts
  {
    if acts != [] {
      StepInv(s, acts[0]);
      RemainingStep(s, acts[0]);
      ServedGrows(Next(s, acts[0]), acts[1..]);
    }
  }

  /** One ownership of the global lock covers at most 101 critical sections. */
  lemma {:induction false} OwnershipBound(s: State, acts: seq<Action>)
    requires Inv(s) && Runs(s, acts) && Exec(s, acts).served == s.served
    ensures Entries(s, acts) <= Remaining(s) <= 101
    decreases acts
  {
    if acts != [] {
      StepInv(s, acts[0]);
      RemainingStep(s, acts[0]);
      ServedGrows(Next(s, acts[0]), acts[1..]);
      OwnershipBound(Next(s, acts[0]), acts[1..]);
    }
  }

  /** Critical sections of other threads before the first one of w. */
  function Overtakes(s: State, acts: seq<Action>, w: nat): nat
    requires Wf(s) && Runs(s, acts)
    decreases acts
  {
    if acts == [] then 0
    else if Enters(s, acts[0]) && acts[0].t == w then 0
    else (if Enters(s, acts[0]) then 1 else 0) + Overtakes(Next(s, acts[0]), acts[1..], w)
  }

  predicate HasGlobalTicket(s: State, w: nat) {
    w < |s.threads| && s.threads[w].pc in {WaitGlobal, StorePsl, StoreOwner}
  }

  /** The bound that every step of a run respects. */
  function Bypass(s: State, w: nat): nat
    requires Wf(s) && HasGlobalTicket(s, w)
  {
    var g := s.threads[w].gtkt;
    if g <= s.served then 0 else Remaining(s) + (BATCH + 1) * (g - s.served - 1)
  }

  /** From s to s' thread w keeps its global ticket. */
  ghost predicate Keeps(s: State, s': State, w: nat) {
    HasGlobalTicket(s, w) && HasGlobalTicket(s', w) && s'.threads[w].gtkt == s.threads[w].gtkt
  }

  lemma TicketKeptByUnlock(s: State, t: nat, w: nat)
    requires Enabled(s, Step(t)) && Wf(s) && InUnlock(s.threads[t].pc) && HasGlobalTicket(s, w)
    ensures Keeps(s, NextUnlock(s, t), w)
  {
  }

  lemma TicketKeptByLock(s: State, t: nat, w: nat)
    requires Enabled(s, Step(t)) && Wf(s) && !InUnlock(s.threads[t].pc) && HasGlobalTicket(s, w)
    requires Enters(s, Step(t)) ==> t != w
    ensures Keeps(s, NextLock(s, t), w)
  {
  }

  lemma TicketKept(s: State, a: Action, w: nat)
    requires Wf(s) && Enabled(s, a) && HasGlobalTicket(s, w) && (Enters(s, a) ==> a.t != w)
    ensures Keeps(s, Next(s, a), w)
  {
    if a.Step? {
      if InUnlock(s.threads[a.t].pc) {
        TicketKeptByUnlock(s, a.t, w);
      } else {
        TicketKeptByLock(s, a.t, w);
      }
    }
  }

  /** A thread whose ticket is served is not overtaken. */
  lemma ServedIsNext(s: State, a: Action, w: nat)
    requires Inv(s) && Enabled(s, a) && HasGlobalTicket(s, w) && s.threads[w].gtkt == s.served
    requires Enters(s, a)
    ensures a.t == w
  {
    assert OwnsGlobal(s.threads[a.t].pc);
  }

  lemma TicketNotPast(s: State, w: nat)
    requires Inv(s) && HasGlobalTicket(s, w)
    ensures s.served <= s.threads[w].gtkt < s.request
  {
    if s.threads[w].pc == WaitGlobal {
      assert GlobalTicketOf(s, w);
    }
  }

  lemma BypassStep(s: State, a: Action, w: nat)
    requires Inv(s) && Enabled(s, a) && HasGlobalTicket(s, w) && (Enters(s, a) ==> a.t != w)
    ensures HasGlobalTicket(Next(s, a), w)
    ensures Bypass(Next(s, a), w) + (if Enters(s, a) then 1 else 0) <= Bypass(s, w)
  {
    TicketKept(s, a, w);
    RemainingStep(s, a);
    TicketNotPast(s, w);
    if Enters(s, a) && s.threads[w].gtkt == s.served {
      ServedIsNext(s, a, w);
    }
    BypassSpends(s, Next(s, a), w, Enters(s, a));
  }

  lemma BypassSpends(s: State, s': State, w: nat, enters: bool)
    requires Spends(s, s', enters) && Keeps(s, s', w)
    requires s.served <= s.threads[w].gtkt
    requires enters ==> s.served < s.threads[w].gtkt
    ensures Bypass(s', w) + (if enters then 1 else 0) <= Bypass(s, w)
  {
    if s.served < s.threads[w].gtkt {
      Batches(s.threads[w].gtkt - s.served - 1);
    }
  }

  lemma Batches(d: nat)
    ensures d > 0 ==> (BATCH + 1) * d == BATCH + 1 + (BATCH + 1) * (d - 1)
  {
  }

  lemma {:induction false} BypassRun(s: State, acts: seq<Action>, w: nat)
    requires Inv(s) && Runs(s, acts) && HasGlobalTicket(s, w)
    ensures Overtakes(s, acts, w) <= Bypass(s, w)
    decreases acts
  {
    if acts != [] && !(Enters(s, acts[0]) && acts[0].t == w) {
      BypassStep(s, acts[0], w);
      StepInv(s, acts[0]);
      BypassRun(Next(s, acts[0]), acts[1..], w);
    }
  }

  /** Bounded bypass: a thread whose global ticket is d behind the one being served
      enters after at most 101 * d others, whatever the schedule. */
  lemma BoundedBypass(s: State, acts: seq<Action>, w: nat)
    requires Inv(s) && Runs(s, acts) && HasGlobalTicket(s, w)
    ensures s.served <= s.threads[w].gtkt
    ensures Overtakes(s, acts, w) <= 101 * (s.threads[w].gtkt - s.served)
  {
    TicketNotPast(s, w);
    BypassRun(s, acts, w);
    OwnershipBound(s, []);
    var d := s.threads[w].gtkt - s.served;
    assert d > 0 ==> (BATCH + 1) * d == BATCH + 1 + (BATCH + 1) * (d - 1);
  }

  /** So once it has drawn a global ticket a thread waits for at most 101 critical
      sections per socket. */
  lemma BypassPerSocket(s: State, acts: seq<Action>, w: nat)
    requires Inv(s) && Runs(s, acts) && HasGlobalTicket(s, w)
    ensures Overtakes(s, acts, w) <= 101 * |s.grants|
  {
    BoundedBypass(s, acts, w);
    TicketNotPast(s, w);
    OutstandingTickets(s);
    var d := s.threads[w].gtkt - s.served;
    assert (BATCH + 1) * |s.grants| == (BATCH + 1) * d + (BATCH + 1) * (|s.grants| - d);
  }

  // ----- no deadlock ----------------------------------------------------------

  predicate CanMove(s: State, t: nat)
    requires Wf(s)
  {
    t < |s.threads| && s.threads[t].pc != Idle && Next(s, Step(t)) != s
  }

  lemma LockMoves(s: State, t: nat)
    requires Wf(s) && t < |s.threads| && !InUnlock(s.threads[t].pc)
    requires s.threads[t].pc !in {Idle, WaitLocal, WaitGlobal}
    ensures NextLock(s, t).threads[t].pc != s.threads[t].pc
  {
  }

  lemma UnlockMoves(s: State, t: nat)
    requires Wf(s) && t < |s.threads| && InUnlock(s.threads[t].pc)
    requires s.threads[t].pc == Critical ==> s.curPsl.Some? && s.curPsl.value < |s.locals|
    ensures NextUnlock(s, t).threads[t].pc != s.threads[t].pc
  {
  }

  lemma OnlyWaitersStall(s: State, t: nat)
    requires Inv(s) && t < |s.threads| && s.threads[t].pc !in {Idle, WaitLocal, WaitGlobal}
    ensures CanMove(s, t)
  {
    if InUnlock(s.threads[t].pc) {
      assert s.threads[t].pc == Critical ==> s.owner == Running(t);
      UnlockMoves(s, t);
    } else {
      LockMoves(s, t);
    }
  }

  lemma FrontOfSocketMoves(s: State, t: nat)
    requires Inv(s) && t < |s.threads| && s.threads[t].pc == WaitLocal
    requires s.threads[t].ltkt == s.locals[s.threads[t].sock].grant
    ensures CanMove(s, t)
  {
    assert Next(s, Step(t)).threads[t].pc != s.threads[t].pc;
  }

  /** The slot of the served ticket holds that ticket. */
  lemma ServedSlotGranted(s: State)
    requires |s.grants| > 0 && GrantsInv(s)
    ensures s.grants[s.served % |s.grants|] == s.served
  {
    var i := s.served % |s.grants|;
    if i <= s.served {
      ResidueClass(s.served, i, |s.grants|);
    }
    assert s.grants[i] == LastGrant(i, s.served, |s.grants|);
  }

  /** Some thread can take the global lock, or has it and can move. */
  lemma GlobalLockMoves(s: State) returns (u: nat)
    requires Inv(s) && s.served < s.request
    ensures CanMove(s, u)
  {
    match s.owner
    case Running(t) =>
      u := t;
      OnlyWaitersStall(s, u);
    case Passing(i) =>
      u := s.localQueue[i][s.locals[i].grant];
      assert TakesLocal(s, u, i, s.locals[i].grant);
      if s.threads[u].pc == WaitLocal {
        FrontOfSocketMoves(s, u);
      } else {
        OnlyWaitersStall(s, u);
      }
    case Nobody =>
      u := s.globalQueue[s.served];
      assert TakesGlobal(s, u, s.served);
      ServedSlotGranted(s);
      assert Next(s, Step(u)).threads[u].pc != s.threads[u].pc;
  }

  /** Whenever a thread is inside lock, the critical section or unlock, some thread
      has a step that changes the state. */
  lemma NoDeadlock(s: State, t: nat) returns (u: nat)
    requires Inv(s) && t < |s.threads| && s.threads[t].pc != Idle
    ensures CanMove(s, u)
  {
    u := t;
    if s.threads[t].pc == WaitLocal {
      var i := s.threads[t].sock;
      assert LocalTicketOf(s, t);
      u := s.localQueue[i][s.locals[i].grant];
      assert TakesLocal(s, u, i, s.locals[i].grant);
    }
    if s.threads[u].pc == WaitGlobal {
      assert GlobalTicketOf(s, u);
      u := GlobalLockMoves(s);
    } else if s.threads[u].pc == WaitLocal {
      FrontOfSocketMoves(s, u);
    } else {
      OnlyWaitersStall(s, u);
    }
  }
}
