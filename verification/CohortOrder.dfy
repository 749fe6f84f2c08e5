/** The order in which threads of one socket enter the cohort lock. */
module CohortOrder {
  import opened Basics
  import M = Mutex
  import opened CohortSpec
  import opened CohortInv
  import opened CohortTheorems
  import opened CohortFairness

  /** The thread whose local ticket is granted on socket i, if it has been drawn. */
  function Front(s: State, i: nat): Option<nat>
    requires Wf(s) && i < |s.locals|
  {
    if s.locals[i].grant < |s.localQueue[i]| then Some(s.localQueue[i][s.locals[i].grant]) else None
  }

  /** That thread has entered and not yet stored grant. */
  predicate FrontEntered(s: State, i: nat)
    requires Wf(s) && i < |s.locals|
  {
    Front(s, i).Some? && Front(s, i).value < |s.threads| && InUnlock(s.threads[Front(s, i).value].pc)
  }

  /** How many local tickets of socket i have entered. */
  function Entered(s: State, i: nat): nat
    requires Wf(s) && i < |s.locals|
  {
    s.locals[i].grant + if FrontEntered(s, i) then 1 else 0
  }

  /** The thread of socket i that enters in this step, if one does. */
  function EntersOn(s: State, a: Action, i: nat): seq<nat>
    requires Enabled(s, a)
  {
    if Enters(s, a) && s.threads[a.t].sock == i then [a.t] else []
  }

  lemma FrontOf(s: State, i: nat)
    requires Wf(s) && LocalInv(s) && i < |s.locals|
    ensures Front(s, i).Some? ==> TakesLocal(s, Front(s, i).value, i, s.locals[i].grant)
  {
  }

  lemma HolderIsFront(s: State, t: nat)
    requires Wf(s) && LocalInv(s) && t < |s.threads| && HoldsLocal(s.threads[t].pc)
    ensures Front(s, s.threads[t].sock) == Some(t)
  {
    assert LocalTicketOf(s, t);
  }

  // ----- one step -------------------------------------------------------------------

  /** The step does not touch grant or the queue of socket i, and does not take its front
      into the critical section or out of it. */
  ghost predicate FrontQuiet(s: State, s': State, t: nat, i: nat) {
    && OnlyMoves(s, s', t) && i < |s.locals| == |s'.locals|
    && s'.localQueue[i] == s.localQueue[i] && s'.locals[i].grant == s.locals[i].grant
    && (InUnlock(s'.threads[t].pc) == InUnlock(s.threads[t].pc) || Front(s, i) != Some(t))
  }

  lemma QuietEntered(s: State, s': State, t: nat, i: nat)
    requires FrontQuiet(s, s', t, i)
    ensures Entered(s', i) == Entered(s, i)
  {
  }

  lemma ArriveEntered(s: State, t: nat, sock: nat, i: nat)
    requires Wf(s) && LocalInv(s) && Enabled(s, Arrive(t, sock)) && i < |s.locals|
    ensures Entered(NextArrive(s, t, sock), i) == Entered(s, i)
  {
    FrontOf(s, i);
  }

  /** The store of grant by the front thread, which has entered. */
  lemma LeavesEntered(s: State, s': State, t: nat, i: nat)
    requires Leaves(s, s', t) && LocalInv(s) && i < |s.locals| && InUnlock(s.threads[t].pc)
    ensures Entered(s', i) == Entered(s, i)
  {
    HolderIsFront(s, t);
    FrontOf(s, i);
    LeavesLocals(s, s', t);
    FrontOf(s', i);
    if s.threads[t].sock == i && Front(s', i).Some? {
      HoldsAlone(s, t, Front(s', i).value);
    }
  }

  lemma EnterEntered(s: State, t: nat, i: nat)
    requires Wf(s) && LocalInv(s) && Enabled(s, Step(t)) && Enters(s, Step(t)) && i < |s.locals|
    ensures Entered(NextLock(s, t), i) == Entered(s, i) + |EntersOn(s, Step(t), i)|
    ensures s.threads[t].sock == i ==> Front(s, i) == Some(t) && Entered(s, i) == s.locals[i].grant
  {
    HolderIsFront(s, t);
    FrontOf(s, i);
  }

  lemma LockEntered(s: State, t: nat, i: nat)
    requires Wf(s) && Enabled(s, Step(t)) && !InUnlock(s.threads[t].pc) && !Enters(s, Step(t)) && i < |s.locals|
    ensures Entered(NextLock(s, t), i) == Entered(s, i)
  {
    QuietEntered(s, NextLock(s, t), t, i);
  }

  lemma UnlockWithinEntered(s: State, t: nat, i: nat)
    requires Wf(s) && t < |s.threads| && InUnlock(s.threads[t].pc) && i < |s.locals|
    requires s.threads[t].pc !in {StoreGrantLocal, StoreGrantAfter, StoreGrantsLate}
    ensures Entered(NextUnlock(s, t), i) == Entered(s, i)
  {
    QuietEntered(s, NextUnlock(s, t), t, i);
  }

  lemma LateEntered(s: State, t: nat, i: nat)
    requires Wf(s) && LocalInv(s) && t < |s.threads| && s.threads[t].pc == StoreGrantsLate && i < |s.locals|
    ensures Entered(NextUnlock(s, t), i) == Entered(s, i)
  {
    FrontOf(s, i);
    QuietEntered(s, NextUnlock(s, t), t, i);
  }

  lemma LastStoreLeaves(s: State, t: nat)
    requires Wf(s) && OwnerInv(s) && t < |s.threads| && s.threads[t].pc in {StoreGrantLocal, StoreGrantAfter}
    ensures Leaves(s, NextUnlock(s, t), t)
  {
    assert s.threads[t].pc == StoreGrantAfter ==> LastStore(s, s.threads[t]);
  }

  lemma SwappedLeaves(s: State, t: nat)
    requires Wf(s) && OwnerInv(s) && t < |s.threads| && s.threads[t].pc == StoreGrants
    ensures Leaves(s, NextSwapped(s, t), t)
  {
    ReleasingKnows(s, t);
  }

  lemma UnlockEntered(s: State, t: nat, i: nat)
    requires Wf(s) && LocalInv(s) && OwnerInv(s) && Enabled(s, Step(t)) && InUnlock(s.threads[t].pc) && i < |s.locals|
    ensures Entered(NextUnlock(s, t), i) == Entered(s, i)
  {
    if s.threads[t].pc in {StoreGrantLocal, StoreGrantAfter} {
      LastStoreLeaves(s, t);
      LeavesEntered(s, NextUnlock(s, t), t, i);
    } else if s.threads[t].pc == StoreGrantsLate {
      LateEntered(s, t, i);
    } else {
      UnlockWithinEntered(s, t, i);
    }
  }

  lemma SwappedEntered(s: State, t: nat, i: nat)
    requires Wf(s) && LocalInv(s) && OwnerInv(s) && Enabled(s, Swapped(t)) && i < |s.locals|
    ensures Entered(NextSwapped(s, t), i) == Entered(s, i)
  {
    SwappedLeaves(s, t);
    LeavesEntered(s, NextSwapped(s, t), t, i);
  }

  lemma SilentEntered(s: State, a: Action, i: nat)
    requires Wf(s) && LocalInv(s) && OwnerInv(s) && Enabled(s, a) && i < |s.locals| && !Enters(s, a)
    ensures |Next(s, a).locals| == |s.locals|
    ensures Entered(Next(s, a), i) == Entered(s, i)
  {
    LocalsCount(s, a);
    if a.Arrive? {
      ArriveEntered(s, a.t, a.sock, i);
    } else if a.Swapped? {
      SwappedEntered(s, a.t, i);
    } else if InUnlock(s.threads[a.t].pc) {
      UnlockEntered(s, a.t, i);
    } else {
      LockEntered(s, a.t, i);
    }
  }

  lemma LocalsCount(s: State, a: Action)
    requires Wf(s) && Enabled(s, a)
    ensures |Next(s, a).locals| == |s.locals|
  {
  }

  /** Every entry takes the next local ticket of its socket, and nothing else counts. */
  lemma EnteredStep(s: State, a: Action, i: nat)
    requires Wf(s) && LocalInv(s) && OwnerInv(s) && Enabled(s, a) && i < |s.locals|
    ensures |Next(s, a).locals| == |s.locals|
    ensures Entered(Next(s, a), i) == Entered(s, i) + |EntersOn(s, a, i)|
    ensures EntersOn(s, a, i) != [] ==>
              Entered(s, i) < |s.localQueue[i]| && EntersOn(s, a, i) == [s.localQueue[i][Entered(s, i)]]
  {
    LocalsCount(s, a);
    if Enters(s, a) {
      EnterEntered(s, a.t, i);
    } else {
      SilentEntered(s, a, i);
    }
  }

  /** A thread that waits in lock has not been counted. */
  lemma NotYetEntered(s: State, w: nat)
    requires Wf(s) && LocalInv(s) && w < |s.threads| && InLocalQueue(s.threads[w].pc) && !InUnlock(s.threads[w].pc)
    ensures s.locals[s.threads[w].sock].grant <= Entered(s, s.threads[w].sock) <= s.threads[w].ltkt
  {
    assert LocalTicketOf(s, w);
  }

  // ----- runs ------------------------------------------------------------------------

  /** The threads of socket i that entered, in that order. */
  function EntriesOn(s: State, acts: seq<Action>, i: nat): seq<nat>
    requires Wf(s) && Runs(s, acts)
    decreases acts
  {
    if acts == [] then [] else EntersOn(s, acts[0], i) + EntriesOn(Next(s, acts[0]), acts[1..], i)
  }

  /** The threads that drew a local ticket of socket i, in that order. */
  function ArrivalsOn(acts: seq<Action>, i: nat): seq<nat> {
    if acts == [] then []
    else (if acts[0].Arrive? && acts[0].sock == i then [acts[0].t] else []) + ArrivalsOn(acts[1..], i)
  }

  lemma QueueStep(s: State, a: Action, i: nat)
    requires Wf(s) && Enabled(s, a) && i < |s.localQueue|
    ensures |Next(s, a).localQueue| == |s.localQueue|
    ensures Next(s, a).localQueue[i] == s.localQueue[i] + (if a.Arrive? && a.sock == i then [a.t] else [])
  {
  }

  lemma {:induction false} QueueRecords(s: State, acts: seq<Action>, i: nat)
    requires Wf(s) && Runs(s, acts) && i < |s.localQueue|
    ensures |Exec(s, acts).localQueue| == |s.localQueue|
    ensures Exec(s, acts).localQueue[i] == s.localQueue[i] + ArrivalsOn(acts, i)
    decreases acts
  {
    if acts != [] {
      var now := if acts[0].Arrive? && acts[0].sock == i then [acts[0].t] else [];
      QueueStep(s, acts[0], i);
      QueueRecords(Next(s, acts[0]), acts[1..], i);
      M.Regroup(s.localQueue[i], now, ArrivalsOn(acts[1..], i));
    }
  }

  lemma EnteredBound(s: State, i: nat)
    requires Wf(s) && LocalInv(s) && i < |s.locals|
    ensures Entered(s, i) <= |s.localQueue[i]|
  {
  }

  /** s' has the queue of s and more, and the entries are the next stretch of it. */
  ghost predicate Advances(s: State, s': State, entries: seq<nat>, i: nat) {
    && Wf(s) && Wf(s') && i < |s.locals| == |s'.locals|
    && s.localQueue[i] <= s'.localQueue[i]
    && Entered(s, i) <= Entered(s', i) <= |s'.localQueue[i]|
    && entries == s'.localQueue[i][Entered(s, i)..Entered(s', i)]
  }

  lemma AdvancesFurther(s: State, a: Action, s': State, entries: seq<nat>, i: nat)
    requires Wf(s) && LocalInv(s) && OwnerInv(s) && Enabled(s, a) && i < |s.locals|
    requires Advances(Next(s, a), s', entries, i)
    ensures Advances(s, s', EntersOn(s, a, i) + entries, i)
  {
    EnteredStep(s, a, i);
    QueueStep(s, a, i);
    Stretch(s'.localQueue[i], s.localQueue[i], EntersOn(s, a, i), Entered(s, i), Entered(s', i));
  }

  /** What has entered during the run is the next stretch of the socket's queue. */
  lemma {:induction false} EntriesRecord(s: State, acts: seq<Action>, i: nat)
    requires Inv(s) && Runs(s, acts) && i < |s.locals|
    ensures Advances(s, Exec(s, acts), EntriesOn(s, acts, i), i)
    decreases acts
  {
    if acts == [] {
      EnteredBound(s, i);
    } else {
      var s' := Next(s, acts[0]);
      StepInv(s, acts[0]);
      LocalsCount(s, acts[0]);
      EntriesRecord(s', acts[1..], i);
      AdvancesFurther(s, acts[0], Exec(s', acts[1..]), EntriesOn(s', acts[1..], i), i);
    }
  }

  lemma Stretch(all: seq<nat>, queue: seq<nat>, now: seq<nat>, lo: nat, hi: nat)
    requires queue <= all && lo + |now| <= hi <= |all|
    requires now != [] ==> lo < |queue| && now == [queue[lo]]
    ensures now + all[lo + |now|..hi] == all[lo..hi]
  {
  }

  /** The threads of a socket enter in the order of their fetch_adds on its requests. */
  lemma SocketFifo(nodes: nat, threads: nat, acts: seq<Action>, i: nat)
    requires i < nodes && Runs(Init(nodes, threads), acts)
    ensures EntriesOn(Init(nodes, threads), acts, i) <= ArrivalsOn(acts, i)
  {
    var s := Init(nodes, threads);
    InitInv(nodes, threads);
    EntriesRecord(s, acts, i);
    QueueRecords(s, acts, i);
    assert s.localQueue[i] + ArrivalsOn(acts, i) == ArrivalsOn(acts, i);
  }
}
