/** Whether the cohort lock bounds the overtaking of a thread from its call of lock on,
    and not only from its global ticket on: it does exactly if there is one socket. With
    more, a thread paused between its local lock and its global ticket is overtaken
    without limit by a thread of another socket. */
module CohortArrival {
  import opened Basics
  import opened CohortSpec
  import opened CohortInv
  import opened CohortTheorems
  import opened CohortFairness
  import opened CohortOrder

  /** Between the fetch_add on requests and the last store of lock. */
  predicate InLock(s: State, w: nat) {
    w < |s.threads| && s.threads[w].pc != Idle && !InUnlock(s.threads[w].pc)
  }

  // ----- one socket ------------------------------------------------------------------

  lemma OneSocket(s: State, t: nat)
    requires Wf(s) && |s.locals| == 1 && t < |s.threads|
    ensures s.threads[t].sock == 0
  {
  }

  lemma StaysInLock(s: State, a: Action, w: nat)
    requires Wf(s) && Enabled(s, a) && InLock(s, w) && !(Enters(s, a) && a.t == w)
    ensures InLock(Next(s, a), w)
    ensures Next(s, a).threads[w].ltkt == s.threads[w].ltkt && |Next(s, a).locals| == |s.locals|
  {
    if a.Step? && InUnlock(s.threads[a.t].pc) {
      assert a.t != w;
    }
  }

  lemma {:induction false} OvertakesCounted(s: State, acts: seq<Action>, w: nat)
    requires Inv(s) && |s.locals| == 1 && Runs(s, acts) && InLock(s, w)
    ensures Overtakes(s, acts, w) <= s.threads[w].ltkt - Entered(s, 0)
    decreases acts
  {
    OneSocket(s, w);
    NotYetEntered(s, w);
    if acts != [] && !(Enters(s, acts[0]) && acts[0].t == w) {
      OneSocket(s, acts[0].t);
      EnteredStep(s, acts[0], 0);
      StaysInLock(s, acts[0], w);
      StepInv(s, acts[0]);
      OvertakesCounted(Next(s, acts[0]), acts[1..], w);
    }
  }

  /** With one socket only the threads ahead in its queue enter before w. */
  lemma OneSocketBound(s: State, acts: seq<Action>, w: nat)
    requires Inv(s) && |s.locals| == 1 && Runs(s, acts) && InLock(s, w)
    ensures Overtakes(s, acts, w) <= s.threads[w].ltkt - s.locals[0].grant < |s.threads|
  {
    OvertakesCounted(s, acts, w);
    OneSocket(s, w);
    assert LocalTicketOf(s, w);
    LocalQueueBound(s, 0);
  }

  // ----- two sockets -------------------------------------------------------------------

  /** Thread 1 of socket 1 runs alone while thread 0 of socket 0 stands before drawing
      its global ticket. */
  ghost predicate Alone(s: State)
    requires Wf(s)
  {
    && |s.threads| >= 2 && |s.locals| >= 2
    && s.threads[0].pc == TakeGlobal && s.threads[0].sock == 0
    && var th, l := s.threads[1], s.locals[1];
       && OnPath(th.pc)
       && (th.pc != Idle ==> th.sock == 1 && l.grant == th.ltkt && l.requests == l.grant + 1)
       && (th.pc == Idle ==> l.requests == l.grant)
       && if th.pc == WaitGlobal then s.owner == Nobody && th.gtkt == s.served && s.request == s.served + 1
          else if OwnsGlobal(th.pc) then s.owner == Running(1) && s.request == s.served + 1
          else s.owner == Nobody && s.request == s.served
  }

  /** The accesses of an acquisition and a release that meet nobody, the release first. */
  function Rank(pc: Pc): nat {
    match pc
    case Critical => 13
    case LoadGrant => 12
    case LoadRequests => 11
    case LoadOwner => 10
    case StoreGrants => 9
    case StoreGrantAfter => 8
    case Idle => 7
    case WaitLocal => 6
    case TestSocketGrant => 5
    case TakeGlobal => 4
    case WaitGlobal => 3
    case StorePsl => 2
    case StoreOwner => 1
    case _ => 0
  }

  predicate OnPath(pc: Pc) {
    Rank(pc) > 0
  }

  function Move(s: State): Action
    requires |s.threads| >= 2
  {
    if s.threads[1].pc == Idle then Arrive(1, 1) else Step(1)
  }

  lemma SoloArrive(s: State)
    requires Wf(s) && Alone(s) && s.threads[1].pc == Idle
    ensures Alone(NextArrive(s, 1, 1)) && NextArrive(s, 1, 1).threads[1].pc == WaitLocal
  {
  }

  lemma SoloLocal(s: State)
    requires Wf(s) && Alone(s) && s.threads[1].pc in {WaitLocal, TestSocketGrant, TakeGlobal}
    requires !s.locals[1].socketGrant
    ensures Alone(NextLock(s, 1)) && Rank(NextLock(s, 1).threads[1].pc) == Rank(s.threads[1].pc) - 1
  {
  }

  lemma SoloGlobal(s: State)
    requires Wf(s) && Alone(s) && s.threads[1].pc in {WaitGlobal, StorePsl, StoreOwner}
    requires s.threads[1].pc == WaitGlobal ==> s.grants[s.served % |s.grants|] == s.served
    ensures Alone(NextLock(s, 1))
    ensures var pc, pc' := s.threads[1].pc, NextLock(s, 1).threads[1].pc;
            if pc == StoreOwner then pc' == Critical else Rank(pc') == Rank(pc) - 1
  {
  }

  lemma SoloDecide(s: State)
    requires Wf(s) && Alone(s) && s.threads[1].pc in {Critical, LoadGrant, LoadRequests}
    requires OwnerLocals(s, s.threads[1])
    ensures Alone(NextUnlock(s, 1)) && Rank(NextUnlock(s, 1).threads[1].pc) == Rank(s.threads[1].pc) - 1
  {
  }

  lemma SoloRelease(s: State)
    requires Wf(s) && Alone(s) && s.threads[1].pc in {LoadOwner, StoreGrants, StoreGrantAfter}
    requires s.threads[1].pc != StoreGrantAfter ==> OwnerLocals(s, s.threads[1])
    requires s.threads[1].pc == StoreGrantAfter ==> LastStore(s, s.threads[1])
    ensures Alone(NextUnlock(s, 1)) && Rank(NextUnlock(s, 1).threads[1].pc) == Rank(s.threads[1].pc) - 1
  {
  }

  /** While nobody owns the lock no handover is announced. */
  lemma NotAnnounced(s: State, i: nat)
    requires Wf(s) && OwnerInv(s) && s.owner == Nobody && i < |s.locals|
    ensures !s.locals[i].socketGrant
  {
    assert s.locals[i].socketGrant ==> GrantPending(s, i);
  }

  lemma SoloInLock(s: State)
    requires Inv(s) && Alone(s) && InLock(s, 1)
    ensures Alone(NextLock(s, 1))
    ensures var pc, pc' := s.threads[1].pc, NextLock(s, 1).threads[1].pc;
            if pc == StoreOwner then pc' == Critical else Rank(pc') == Rank(pc) - 1
  {
    if s.threads[1].pc in {WaitLocal, TestSocketGrant, TakeGlobal} {
      NotAnnounced(s, 1);
      SoloLocal(s);
    } else {
      ServedSlotGranted(s);
      SoloGlobal(s);
    }
  }

  lemma SoloInUnlock(s: State)
    requires Inv(s) && Alone(s) && InUnlock(s.threads[1].pc)
    ensures Alone(NextUnlock(s, 1)) && Rank(NextUnlock(s, 1).threads[1].pc) == Rank(s.threads[1].pc) - 1
  {
    assert s.threads[1].pc == StoreGrantAfter ==> LastStore(s, s.threads[1]);
    if s.threads[1].pc in {Critical, LoadGrant, LoadRequests} {
      SoloDecide(s);
    } else {
      SoloRelease(s);
    }
  }

  lemma SoloStep(s: State)
    requires Inv(s) && Alone(s)
    ensures Inv(Next(s, Move(s))) && Alone(Next(s, Move(s)))
    ensures var pc, pc' := s.threads[1].pc, Next(s, Move(s)).threads[1].pc;
            if pc == StoreOwner then pc' == Critical else Rank(pc') == Rank(pc) - 1
  {
    StepInv(s, Move(s));
    if s.threads[1].pc == Idle {
      SoloArrive(s);
    } else if InUnlock(s.threads[1].pc) {
      SoloInUnlock(s);
    } else {
      SoloInLock(s);
    }
  }

  /** Thread 1 enters n more times. */
  lemma {:induction false} Overtaking(s: State, n: nat) returns (acts: seq<Action>)
    requires Inv(s) && Alone(s)
    ensures Runs(s, acts) && Overtakes(s, acts, 0) == n
    decreases n, Rank(s.threads[1].pc)
  {
    if n == 0 {
      acts := [];
    } else {
      var a, pc := Move(s), s.threads[1].pc;
      SoloStep(s);
      var rest := Overtaking(Next(s, a), if pc == StoreOwner then n - 1 else n);
      acts := Prepend(s, a, rest);
    }
  }

  lemma Prepend(s: State, a: Action, acts: seq<Action>) returns (all: seq<Action>)
    requires Wf(s) && Enabled(s, a) && Runs(Next(s, a), acts) && !(Enters(s, a) && a.t == 0)
    ensures Runs(s, all)
    ensures Overtakes(s, all, 0) == (if Enters(s, a) then 1 else 0) + Overtakes(Next(s, a), acts, 0)
  {
    all := [a] + acts;
    assert all[1..] == acts;
  }

  /** Thread 0 has called lock on socket 0. */
  function Called(nodes: nat, threads: nat): State
    requires 0 < nodes && 0 < threads
  {
    Next(Init(nodes, threads), Arrive(0, 0))
  }

  /** Thread 0 is on its way to the global ticket, thread 1 idle. */
  ghost predicate Pausing(s: State, pc: Pc)
    requires Wf(s)
  {
    && |s.threads| >= 2 && |s.locals| >= 2
    && s.threads[0].pc == pc && s.threads[0].sock == 0 && s.threads[1].pc == Idle
    && s.owner == Nobody && s.request == s.served && s.locals[1].requests == s.locals[1].grant
    && s.threads[0].ltkt == s.locals[0].grant && !s.locals[0].socketGrant
  }

  lemma CalledPausing(nodes: nat, threads: nat)
    requires 2 <= nodes && 2 <= threads
    ensures Pausing(Called(nodes, threads), WaitLocal)
  {
  }

  lemma FirstPause(s: State)
    requires Wf(s) && Pausing(s, WaitLocal)
    ensures Pausing(NextLock(s, 0), TestSocketGrant)
  {
  }

  lemma SecondPause(s: State)
    requires Wf(s) && Pausing(s, TestSocketGrant)
    ensures Alone(NextLock(s, 0))
  {
  }

  /** Thread 0 called lock and has two steps to its global ticket. */
  lemma Paused(nodes: nat, threads: nat) returns (s: State)
    requires 2 <= nodes && 2 <= threads
    ensures Enabled(Called(nodes, threads), Step(0)) && !Enters(Called(nodes, threads), Step(0))
    ensures s == Next(Called(nodes, threads), Step(0)) && Inv(s) && Pausing(s, TestSocketGrant)
  {
    InitInv(nodes, threads);
    StepInv(Init(nodes, threads), Arrive(0, 0));
    CalledPausing(nodes, threads);
    FirstPause(Called(nodes, threads));
    StepInv(Called(nodes, threads), Step(0));
    s := Next(Called(nodes, threads), Step(0));
  }

  lemma PausedThenOvertaken(s: State, n: nat) returns (acts: seq<Action>)
    requires Inv(s) && Pausing(s, TestSocketGrant)
    ensures Runs(s, acts) && Overtakes(s, acts, 0) == n
  {
    SecondPause(s);
    StepInv(s, Step(0));
    acts := Overtaking(Next(s, Step(0)), n);
    acts := Prepend(s, Step(0), acts);
  }

  /** With two sockets: for every n there is a run in which a thread that has called lock
      first is overtaken n times. */
  lemma NoBoundFromArrival(nodes: nat, threads: nat, n: nat) returns (acts: seq<Action>)
    requires 2 <= nodes && 2 <= threads
    ensures Runs(Called(nodes, threads), acts) && Overtakes(Called(nodes, threads), acts, 0) == n
  {
    var s := Paused(nodes, threads);
    acts := PausedThenOvertaken(s, n);
    acts := Prepend(Called(nodes, threads), Step(0), acts);
  }

  // ----- the exact condition -------------------------------------------------------------

  /** In every run a thread in lock sees at most b entries of others before its own. */
  ghost predicate BoundedFromArrival(nodes: nat, threads: nat, b: nat)
    requires 0 < nodes
  {
    forall before, acts, w ::
      Runs(Init(nodes, threads), before) && InLock(Exec(Init(nodes, threads), before), w) &&
      Runs(Exec(Init(nodes, threads), before), acts)
      ==> Overtakes(Exec(Init(nodes, threads), before), acts, w) <= b
  }

  lemma OneSocketBounded(threads: nat)
    ensures BoundedFromArrival(1, threads, threads)
  {
    var s0 := Init(1, threads);
    forall before, acts, w | Runs(s0, before) && InLock(Exec(s0, before), w) && Runs(Exec(s0, before), acts)
      ensures Overtakes(Exec(s0, before), acts, w) <= threads
    {
      InitInv(1, threads);
      RunInv(s0, before);
      SizesKept(s0, before);
      OneSocketBound(Exec(s0, before), acts, w);
    }
  }

  lemma {:induction false} SizesKept(s: State, acts: seq<Action>)
    requires Wf(s) && Runs(s, acts)
    ensures |Exec(s, acts).locals| == |s.locals| && |Exec(s, acts).threads| == |s.threads|
    decreases acts
  {
    if acts != [] {
      StepSizes(s, acts[0]);
      SizesKept(Next(s, acts[0]), acts[1..]);
    }
  }

  lemma StepSizes(s: State, a: Action)
    requires Wf(s) && Enabled(s, a)
    ensures |Next(s, a).locals| == |s.locals| && |Next(s, a).threads| == |s.threads|
  {
  }

  lemma ManySocketsUnbounded(nodes: nat, threads: nat, b: nat)
    requires 2 <= nodes && 2 <= threads
    ensures !BoundedFromArrival(nodes, threads, b)
  {
    var acts := NoBoundFromArrival(nodes, threads, b + 1);
    var s0, before := Init(nodes, threads), [Arrive(0, 0)];
    assert before[1..] == [];
    assert Runs(s0, before) && Exec(s0, before) == Called(nodes, threads);
    assert InLock(Exec(s0, before), 0);
  }

  /** A bound from the call of lock exists exactly if there is one socket. */
  lemma ExactlyOneSocket(nodes: nat, threads: nat)
    requires 0 < nodes && 2 <= threads
    ensures (exists b: nat :: BoundedFromArrival(nodes, threads, b)) <==> nodes == 1
  {
    if nodes == 1 {
      OneSocketBounded(threads);
    } else {
      forall b: nat
        ensures !BoundedFromArrival(nodes, threads, b)
      {
        ManySocketsUnbounded(nodes, threads, b);
      }
    }
  }
}
