/** When the cohort lock is handed over within a socket, and that the bound on one global
    ownership is attained. Nothing here is said in terms of batch_count: a tally of what
    threads were seen to do decides. */
module CohortBatch {
  import opened Basics
  import opened CohortSpec
  import opened CohortInv
  import opened CohortTheorems
  import opened CohortFairness

  // ----- what is counted ---------------------------------------------------------------

  /** handed: for each socket, how often it has handed the lock over since it last released
      it in spite of a waiter; None before that has happened. entries: critical sections
      entered since the served global ticket was taken. carried: what handed was for the
      owner's socket when the ticket was taken. */
  datatype Tally = Tally(handed: seq<Option<nat>>, entries: nat, carried: Option<nat>)

  function NoTally(nodes: nat): Tally {
    Tally(seq(nodes, _ => None), 0, None)
  }

  /** An owner that has seen a waiter on its socket decides what becomes of the lock. */
  predicate Decides(s: State, a: Action)
    requires Enabled(s, a)
  {
    a.Step? && s.threads[a.t].pc == LoadBatch
  }

  predicate HandsOver(s: State, a: Action)
    requires Wf(s) && Enabled(s, a)
  {
    Decides(s, a) && Next(s, a).threads[a.t].pc == StoreBatchLess
  }

  predicate TakesTicket(s: State, a: Action)
    requires Wf(s) && Enabled(s, a)
  {
    a.Step? && s.threads[a.t].pc == WaitGlobal && Next(s, a).threads[a.t].pc == StorePsl
  }

  function Count(y: Tally, s: State, a: Action): (y': Tally)
    requires Wf(s) && Enabled(s, a) && |y.handed| == |s.locals|
    ensures |y'.handed| == |y.handed|
  {
    var i := s.threads[a.t].sock;
    if TakesTicket(s, a) then y.(entries := 0, carried := y.handed[i])
    else if Enters(s, a) then y.(entries := y.entries + 1)
    else if HandsOver(s, a) then
      y.(handed := y.handed[i := if y.handed[i].Some? then Some(y.handed[i].value + 1) else None])
    else if Decides(s, a) then y.(handed := y.handed[i := Some(0)])
    else y
  }

  /** What is decided is done: three accesses later the lock has been passed on within the
      socket, or else released to the next global ticket. Other threads may step in
      between, but only t moves t on. */
  lemma DecisionCarriedOut(s: State, t: nat)
    requires Inv(s) && t < |s.threads| && s.threads[t].pc in {StoreBatchLess, StoreBatchFull}
    ensures var s1 := NextUnlock(s, t);
            && InUnlock(s1.threads[t].pc) && InUnlock(NextUnlock(s1, t).threads[t].pc)
            && var s3 := NextUnlock(NextUnlock(s1, t), t);
               if s.threads[t].pc == StoreBatchLess
               then s3.owner == Passing(s.threads[t].sock) && s3.served == s.served && s3.threads[t].pc == Idle
               else s3.owner == Nobody && s3.served == s.served + 1
  {
    assert s.owner == Running(t) && OwnerLocals(s, s.threads[t]);
  }

  // ----- the tally and batch_count ------------------------------------------------------

  predicate OwnerAt(s: State, i: nat, pc: Pc) {
    s.owner.Running? && s.owner.t < |s.threads| && s.threads[s.owner.t].sock == i && s.threads[s.owner.t].pc == pc
  }

  function BatchLeft(h: Option<nat>): int {
    if h.Some? then 100 - h.value else 0
  }

  ghost predicate SocketTally(s: State, y: Tally, i: nat)
    requires i < |s.locals| == |y.handed|
  {
    && (y.handed[i].Some? ==> y.handed[i].value <= 100)
    && (OwnerAt(s, i, StoreBatchFull) ==> y.handed[i] == Some(0))
    && s.locals[i].batch ==
         if OwnerAt(s, i, StoreBatchLess) then BatchLeft(y.handed[i]) + 1
         else if OwnerAt(s, i, StoreBatchFull) then 0 else BatchLeft(y.handed[i])
  }

  /** How the owner's handovers add up with the entries of this ownership. */
  ghost predicate OwnershipTally(s: State, y: Tally) {
    match s.owner
    case Nobody => true
    case Passing(i) => i < |y.handed| && y.carried.Some? && y.handed[i] == Some(y.carried.value + y.entries)
    case Running(t) => t < |s.threads| && s.threads[t].sock < |y.handed| && OwnTally(s.threads[t], y)
  }

  ghost predicate OwnTally(th: Thread, y: Tally)
    requires th.sock < |y.handed|
  {
    var h := y.handed[th.sock];
    && (th.pc in {StorePsl, StoreOwner} ==> y.entries == 0 && h == y.carried)
    && (th.pc in {ClearSocketGrant, StoreBatchLess, StoreSocketGrant, StoreGrantLocal} ==>
          y.carried.Some? && h == Some(y.carried.value + y.entries))
    && (th.pc in {Critical, LoadGrant, LoadRequests, LoadBatch} ==>
          y.entries >= 1 &&
          if y.carried.Some? then h == Some(y.carried.value + y.entries - 1) else h == None && y.entries == 1)
  }

  ghost predicate TallyInv(s: State, y: Tally) {
    && |y.handed| == |s.locals|
    && (forall i :: 0 <= i < |s.locals| ==> SocketTally(s, y, i))
    && OwnershipTally(s, y)
  }

  // ----- one step -------------------------------------------------------------------------

  /** A step that neither changes the owner nor is one of the owner, nor touches a batch. */
  lemma BystanderTally(s: State, s': State, t: nat, y: Tally)
    requires OnlyMoves(s, s', t) && TallyInv(s, y) && s'.owner == s.owner != Running(t)
    requires |s'.locals| == |s.locals| && forall i :: 0 <= i < |s.locals| ==> s'.locals[i].batch == s.locals[i].batch
    ensures TallyInv(s', y)
  {
    forall i | 0 <= i < |s'.locals|
      ensures SocketTally(s', y, i)
    {
      assert SocketTally(s, y, i);
    }
  }

  /** A change of owner that is no step within its unlock before the decision is done. */
  lemma OwnerChangesTally(s: State, s': State, y: Tally, y': Tally)
    requires TallyInv(s, y) && |s'.locals| == |s.locals| && y'.handed == y.handed && OwnershipTally(s', y')
    requires forall i :: 0 <= i < |s.locals| ==>
               s'.locals[i].batch == s.locals[i].batch &&
               !OwnerAt(s, i, StoreBatchLess) && !OwnerAt(s, i, StoreBatchFull) &&
               !OwnerAt(s', i, StoreBatchLess) && !OwnerAt(s', i, StoreBatchFull)
    ensures TallyInv(s', y')
  {
    forall i | 0 <= i < |s'.locals|
      ensures SocketTally(s', y', i)
    {
      assert SocketTally(s, y, i);
    }
  }

  /** A step of the owner as owner changes the books of its own socket only. */
  lemma OwnerTally(s: State, s': State, t: nat, y: Tally, y': Tally)
    requires OnlyMoves(s, s', t) && TallyInv(s, y) && s'.owner == s.owner == Running(t)
    requires |s'.locals| == |s.locals| == |y'.handed| && s'.threads[t].sock == s.threads[t].sock
    requires forall i :: 0 <= i < |s.locals| && i != s.threads[t].sock ==>
               s'.locals[i].batch == s.locals[i].batch && y'.handed[i] == y.handed[i]
    requires SocketTally(s', y', s.threads[t].sock) && OwnTally(s'.threads[t], y')
    ensures TallyInv(s', y')
  {
    forall i | 0 <= i < |s'.locals|
      ensures SocketTally(s', y', i)
    {
      assert SocketTally(s, y, i);
    }
  }

  lemma ArriveTally(s: State, t: nat, sock: nat, y: Tally)
    requires Wf(s) && OwnerAlone(s) && Enabled(s, Arrive(t, sock)) && TallyInv(s, y)
    ensures TallyInv(NextArrive(s, t, sock), y)
  {
    BystanderTally(s, NextArrive(s, t, sock), t, y);
  }

  /** A thread on its way to the lock does not own it. */
  lemma ApproachTally(s: State, t: nat, y: Tally)
    requires Wf(s) && OwnerAlone(s) && TallyInv(s, y) && t < |s.threads|
    requires s.threads[t].pc in {WaitLocal, TestSocketGrant, TakeGlobal, WaitGlobal}
    requires NextLock(s, t).owner == s.owner
    ensures TallyInv(NextLock(s, t), y)
  {
    BystanderTally(s, NextLock(s, t), t, y);
  }

  lemma TakeOverTally(s: State, t: nat, y: Tally)
    requires Wf(s) && TallyInv(s, y) && t < |s.threads| && s.threads[t].pc == TestSocketGrant
    requires s.locals[s.threads[t].sock].socketGrant && s.owner == Passing(s.threads[t].sock)
    ensures TallyInv(NextLock(s, t), y)
  {
    OwnerChangesTally(s, NextLock(s, t), y, y);
  }

  lemma TicketTally(s: State, t: nat, y: Tally)
    requires Wf(s) && TallyInv(s, y) && t < |s.threads| && s.threads[t].pc == WaitGlobal && s.owner == Nobody
    requires s.grants[s.threads[t].gtkt % |s.grants|] == s.threads[t].gtkt
    ensures TallyInv(NextLock(s, t), y.(entries := 0, carried := y.handed[s.threads[t].sock]))
  {
    OwnerChangesTally(s, NextLock(s, t), y, y.(entries := 0, carried := y.handed[s.threads[t].sock]));
  }

  lemma OwnerLocksTally(s: State, t: nat, y: Tally)
    requires Wf(s) && OwnerAlone(s) && TallyInv(s, y) && Enabled(s, Step(t)) && OwnerLocks(s.threads[t].pc)
    ensures TallyInv(NextLock(s, t), Count(y, s, Step(t)))
  {
    assert SocketTally(s, y, s.threads[t].sock);
    OwnerTally(s, NextLock(s, t), t, y, Count(y, s, Step(t)));
  }

  lemma LoadsTally(s: State, t: nat, y: Tally)
    requires Wf(s) && OwnerInv(s) && TallyInv(s, y) && Enabled(s, Step(t))
    requires OwnerLoads(s.threads[t].pc) && s.threads[t].pc != LoadBatch
    ensures TallyInv(NextUnlock(s, t), y)
  {
    assert SocketTally(s, y, s.threads[t].sock);
    LoadsOnly(s, t);
    OwnerTally(s, NextUnlock(s, t), t, y, y);
  }

  /** The books of an owner that is about to decide. */
  lemma BooksAtDecision(s: State, t: nat, y: Tally)
    requires Wf(s) && TallyInv(s, y) && t < |s.threads| && s.threads[t].pc == LoadBatch && s.owner == Running(t)
    ensures var h, i := y.handed[s.threads[t].sock], s.threads[t].sock;
            && y.entries >= 1 && s.locals[i].batch == BatchLeft(h) && (h.Some? ==> h.value <= 100)
            && (if y.carried.Some? then h == Some(y.carried.value + y.entries - 1) else h == None && y.entries == 1)
  {
    assert SocketTally(s, y, s.threads[t].sock);
  }

  /** The load of batch_count decides. */
  lemma DecisionStep(s: State, t: nat)
    requires Wf(s) && t < |s.threads| && s.threads[t].pc == LoadBatch && s.threads[t].psl == s.threads[t].sock
    ensures HandsOver(s, Step(t)) <==> s.locals[s.threads[t].sock].batch != 0
    ensures NextUnlock(s, t).threads[t].pc == if HandsOver(s, Step(t)) then StoreBatchLess else StoreBatchFull
    ensures OnlyMoves(s, NextUnlock(s, t), t) && NextUnlock(s, t) == Put(s, t, NextUnlock(s, t).threads[t])
    ensures NextUnlock(s, t).threads[t].sock == s.threads[t].sock
  {
  }

  lemma DeciderOwns(s: State, t: nat)
    requires Wf(s) && OwnerInv(s) && t < |s.threads| && s.threads[t].pc == LoadBatch
    ensures s.owner == Running(t) && s.threads[t].psl == s.threads[t].sock
  {
    assert s.owner == Running(t) && OwnerLocals(s, s.threads[t]);
  }

  lemma CountAtDecision(s: State, t: nat, y: Tally)
    requires Wf(s) && |y.handed| == |s.locals| && t < |s.threads| && s.threads[t].pc == LoadBatch
    ensures var i := s.threads[t].sock;
            Count(y, s, Step(t)) ==
              if !HandsOver(s, Step(t)) then y.(handed := y.handed[i := Some(0)])
              else if y.handed[i].Some? then y.(handed := y.handed[i := Some(y.handed[i].value + 1)])
              else y.(handed := y.handed[i := None])
  {
  }

  lemma DecisionBooks(s: State, s': State, t: nat, y: Tally, y': Tally)
    requires OnlyMoves(s, s', t) && TallyInv(s, y) && s.threads[t].pc == LoadBatch && s.owner == Running(t)
    requires s' == Put(s, t, s'.threads[t]) && s'.threads[t].sock == s.threads[t].sock
    requires var i := s.threads[t].sock;
             && s.locals[i].batch == BatchLeft(y.handed[i])
             && if s.locals[i].batch != 0
                then s'.threads[t].pc == StoreBatchLess && y.handed[i].Some? &&
                     y' == y.(handed := y.handed[i := Some(y.handed[i].value + 1)])
                else s'.threads[t].pc == StoreBatchFull && y' == y.(handed := y.handed[i := Some(0)])
    requires var h := y.handed[s.threads[t].sock];
             h.Some? ==> h.value <= 100 && y.carried.Some? && h == Some(y.carried.value + y.entries - 1)
    ensures TallyInv(s', y')
  {
    OwnerTally(s, s', t, y, y');
  }

  /** Whoever sees a waiter passes the lock on exactly while fewer than 101 sections have been
      entered, what was carried over included. */
  lemma DecisionTally(s: State, t: nat, y: Tally)
    requires Wf(s) && OwnerInv(s) && TallyInv(s, y) && t < |s.threads| && s.threads[t].pc == LoadBatch
    ensures y.entries >= 1
    ensures HandsOver(s, Step(t)) <==> y.carried.Some? && y.carried.value + y.entries < 101
    ensures TallyInv(NextUnlock(s, t), Count(y, s, Step(t)))
  {
    DeciderOwns(s, t);
    BooksAtDecision(s, t, y);
    DecisionStep(s, t);
    CountAtDecision(s, t, y);
    DecisionBooks(s, NextUnlock(s, t), t, y, Count(y, s, Step(t)));
  }

  lemma StoresTally(s: State, t: nat, y: Tally)
    requires Wf(s) && OwnerInv(s) && TallyInv(s, y) && t < |s.threads| && OwnerStores(s.threads[t].pc)
    ensures TallyInv(NextUnlock(s, t), y)
  {
    assert s.owner == Running(t) && OwnerLocals(s, s.threads[t]);
    assert SocketTally(s, y, s.threads[t].sock);
    OwnerTally(s, NextUnlock(s, t), t, y, y);
  }

  lemma AwayTally(s: State, t: nat, y: Tally)
    requires Wf(s) && OwnerInv(s) && TallyInv(s, y) && t < |s.threads|
    requires s.threads[t].pc in {StoreGrantLocal, StoreGrants, StoreGrantsLate}
    ensures TallyInv(NextUnlock(s, t), y)
  {
    assert s.owner == Running(t) && OwnerLocals(s, s.threads[t]);
    OwnerChangesTally(s, NextUnlock(s, t), y, y);
  }

  lemma AfterTally(s: State, t: nat, y: Tally)
    requires Wf(s) && OwnerAlone(s) && TallyInv(s, y) && t < |s.threads| && s.threads[t].pc == StoreGrantAfter
    ensures TallyInv(NextUnlock(s, t), y)
  {
    BystanderTally(s, NextUnlock(s, t), t, y);
  }

  lemma SwappedTally(s: State, t: nat, y: Tally)
    requires Wf(s) && OwnerInv(s) && TallyInv(s, y) && t < |s.threads| && s.threads[t].pc == StoreGrants
    ensures TallyInv(NextSwapped(s, t), y)
  {
    ReleasingKnows(s, t);
    assert SocketTally(s, y, s.threads[t].sock) && OwnerLocals(s, s.threads[t]);
    OwnerTally(s, NextSwapped(s, t), t, y, y);
  }

  lemma LockTally(s: State, t: nat, y: Tally)
    requires Inv(s) && TallyInv(s, y) && Enabled(s, Step(t)) && !InUnlock(s.threads[t].pc)
    ensures TallyInv(NextLock(s, t), Count(y, s, Step(t)))
  {
    var th := s.threads[t];
    if OwnerLocks(th.pc) {
      OwnerLocksTally(s, t, y);
    } else if th.pc == TestSocketGrant && s.locals[th.sock].socketGrant {
      TakesOver(s, t);
      TakeOverTally(s, t, y);
    } else if th.pc == WaitGlobal && s.grants[th.gtkt % |s.grants|] == th.gtkt {
      GrantedIsServed(s, t);
      TicketTally(s, t, y);
    } else {
      ApproachTally(s, t, y);
    }
  }

  lemma UnlockTally(s: State, t: nat, y: Tally)
    requires Wf(s) && OwnerInv(s) && TallyInv(s, y) && Enabled(s, Step(t)) && InUnlock(s.threads[t].pc)
    ensures TallyInv(NextUnlock(s, t), Count(y, s, Step(t)))
  {
    var pc := s.threads[t].pc;
    if pc == LoadBatch {
      DecisionTally(s, t, y);
    } else if OwnerLoads(pc) {
      LoadsTally(s, t, y);
    } else if OwnerStores(pc) {
      StoresTally(s, t, y);
    } else if pc == StoreGrantAfter {
      AfterTally(s, t, y);
    } else {
      AwayTally(s, t, y);
    }
  }

  lemma TallyStep(s: State, a: Action, y: Tally)
    requires Inv(s) && TallyInv(s, y) && Enabled(s, a)
    ensures TallyInv(Next(s, a), Count(y, s, a))
  {
    match a
    case Arrive(t, sock) => ArriveTally(s, t, sock, y);
    case Swapped(t) => SwappedTally(s, t, y);
    case Step(t) =>
      if InUnlock(s.threads[t].pc) {
        UnlockTally(s, t, y);
      } else {
        LockTally(s, t, y);
      }
  }

  // ----- runs -------------------------------------------------------------------------------

  lemma LocalsKeptCount(s: State, a: Action)
    requires Wf(s) && Enabled(s, a)
    ensures |Next(s, a).locals| == |s.locals|
  {
  }

  function TallyOf(s: State, acts: seq<Action>, y: Tally): (y': Tally)
    requires Wf(s) && Runs(s, acts) && |y.handed| == |s.locals|
    decreases acts
  {
    if acts == [] then y
    else
      LocalsKeptCount(s, acts[0]);
      TallyOf(Next(s, acts[0]), acts[1..], Count(y, s, acts[0]))
  }

  lemma {:induction false} TallyRun(s: State, acts: seq<Action>, y: Tally)
    requires Inv(s) && TallyInv(s, y) && Runs(s, acts)
    ensures Inv(Exec(s, acts)) && TallyInv(Exec(s, acts), TallyOf(s, acts, y))
    decreases acts
  {
    if acts != [] {
      StepInv(s, acts[0]);
      TallyStep(s, acts[0], y);
      TallyRun(Next(s, acts[0]), acts[1..], Count(y, s, acts[0]));
    }
  }

  lemma InitTally(nodes: nat, threads: nat)
    requires 0 < nodes
    ensures TallyInv(Init(nodes, threads), NoTally(nodes))
  {
    forall i | 0 <= i < nodes
      ensures SocketTally(Init(nodes, threads), NoTally(nodes), i)
    {
    }
  }

  /** Over every run: an owner that sees a waiter hands the lock over exactly if its socket
      has released in spite of a waiter before, and the sections entered since the ticket was
      taken and the handovers carried over from earlier ownerships are fewer than 101. An
      ownership of a socket that never did covers one section. */
  lemma HandsOverExactly(nodes: nat, threads: nat, acts: seq<Action>, t: nat)
    requires 0 < nodes && Runs(Init(nodes, threads), acts)
    requires var s := Exec(Init(nodes, threads), acts); t < |s.threads| && s.threads[t].pc == LoadBatch
    ensures var s, y := Exec(Init(nodes, threads), acts), TallyOf(Init(nodes, threads), acts, NoTally(nodes));
            && (HandsOver(s, Step(t)) <==> y.carried.Some? && y.carried.value + y.entries < 101)
            && (y.carried == None ==> y.entries == 1)
            && (y.carried == Some(0) ==> (HandsOver(s, Step(t)) <==> y.entries < 101))
  {
    InitInv(nodes, threads);
    InitTally(nodes, threads);
    TallyRun(Init(nodes, threads), acts, NoTally(nodes));
    var s, y := Exec(Init(nodes, threads), acts), TallyOf(Init(nodes, threads), acts, NoTally(nodes));
    assert s.owner == Running(t);
    DecisionTally(s, t, y);
  }

  // ----- the order of unlock's last two stores --------------------------------------------------

  /** Both orders lead to the same state. */
  lemma OrderDoesNotMatter(s: State, t: nat)
    requires Inv(s) && t < |s.threads| && s.threads[t].pc == StoreGrants
    ensures Enabled(s, Swapped(t)) && NextSwapped(s, t).threads[t].pc == StoreGrantsLate
    ensures NextUnlock(NextSwapped(s, t), t) == NextUnlock(NextUnlock(s, t), t)
  {
    var one, other := NextUnlock(NextSwapped(s, t), t), NextUnlock(NextUnlock(s, t), t);
    assert one.threads == other.threads && one.locals == other.locals;
  }
}
