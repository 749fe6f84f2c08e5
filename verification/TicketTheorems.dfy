/** What the ticket lock promises over every run while its counters do not wrap. */
module TicketTheorems {
  import opened Basics
  import M = Mutex
  import opened TicketSpec

  /** acts lead from s0 to s. Stated through the length of acts, so that a proof that only
      passes the fact on does not unroll the run. */
  ghost predicate Reaches(s0: State, acts: seq<Action>, s: State) {
    forall n :: IsLength(acts, n) ==> Runs(s0, acts) && Exec(s0, acts) == s
  }

  lemma ReachesRun(s0: State, acts: seq<Action>, s: State)
    requires Reaches(s0, acts, s)
    ensures Runs(s0, acts) && Exec(s0, acts) == s
  {
    assert IsLength(acts, |acts|);
  }

  lemma ReachesStep(s0: State, acts: seq<Action>, s: State, a: Action)
    requires Reaches(s0, acts, s) && Enabled(s, a)
    ensures Reaches(s0, acts + [a], Next(s, a))
  {
    ReachesRun(s0, acts, s);
    RunsAppend(s0, acts, a);
  }

  lemma {:induction false} ThreadsKept(s: State, acts: seq<Action>)
    requires Runs(s, acts)
    ensures |Exec(s, acts).threads| == |s.threads| && Exec(s, acts).modulus == s.modulus
    decreases acts
  {
    if acts != [] {
      ThreadsKept(Next(s, acts[0]), acts[1..]);
    }
  }

  lemma {:induction false} RunInv(s: State, acts: seq<Action>)
    requires Inv(s) && Runs(s, acts)
    ensures Inv(Exec(s, acts))
    decreases acts
  {
    if acts != [] {
      StepInv(s, acts[0]);
      RunInv(Next(s, acts[0]), acts[1..]);
    }
  }

  ghost predicate MutualExclusion(s: State) {
    forall t, u :: 0 <= t < |s.threads| && 0 <= u < |s.threads| &&
      InCritical(s.threads[t].pc) && InCritical(s.threads[u].pc)
      ==> t == u
  }

  /** lock, trylock and unlock together exclude each other. */
  lemma RunMutualExclusion(threads: nat, acts: seq<Action>)
    requires Runs(Init(0, threads), acts)
    ensures MutualExclusion(Exec(Init(0, threads), acts))
  {
    InitInv(threads);
    RunInv(Init(0, threads), acts);
    var s := Exec(Init(0, threads), acts);
    forall t, u | 0 <= t < |s.threads| && 0 <= u < |s.threads| &&
                  InCritical(s.threads[t].pc) && InCritical(s.threads[u].pc)
      ensures t == u
    {
      assert ThreadOf(s, t) && ThreadOf(s, u);
    }
  }

  /** The acquisition or release a step completes. */
  function Emit(s: State, a: Action): seq<M.Event>
    requires Enabled(s, a)
  {
    var th := s.threads[a.t];
    if !a.Step? then []
    else if th.pc == StoreCur then [M.Release(a.t)]
    else if (th.pc == WaitCur && s.cur == th.ticket) || (th.pc == TryCas && s.next == th.ticket) then [M.Acquire(a.t)]
    else []
  }

  function Trace(s: State, acts: seq<Action>): seq<M.Event>
    requires Runs(s, acts)
    decreases acts
  {
    if acts == [] then [] else Emit(s, acts[0]) + Trace(Next(s, acts[0]), acts[1..])
  }

  lemma StepRefines(s: State, a: Action)
    requires Inv(s) && Enabled(s, a)
    ensures M.Legal(s.holder, Emit(s, a))
    ensures M.HolderAfter(s.holder, Emit(s, a)) == Next(s, a).holder
  {
    assert ThreadOf(s, a.t);
    HolderServed(s);
  }

  lemma {:induction false} RunRefines(s: State, acts: seq<Action>)
    requires Inv(s) && Runs(s, acts)
    ensures M.Legal(s.holder, Trace(s, acts))
    ensures M.HolderAfter(s.holder, Trace(s, acts)) == Exec(s, acts).holder
    decreases acts
  {
    if acts != [] {
      StepInv(s, acts[0]);
      StepRefines(s, acts[0]);
      RunRefines(Next(s, acts[0]), acts[1..]);
      M.LegalConcat(s.holder, Emit(s, acts[0]), Trace(Next(s, acts[0]), acts[1..]));
    }
  }

  // ----- first come, first served ------------------------------------------------------

  /** The thread that draws a ticket in this step: lock's fetch_add, trylock's exchange. */
  function Drawing(s: State, a: Action): seq<nat>
    requires Enabled(s, a)
  {
    if a.Lock? || (a.Step? && s.threads[a.t].pc == TryCas && s.next == s.threads[a.t].ticket) then [a.t] else []
  }

  function Draws(s: State, acts: seq<Action>): seq<nat>
    requires Runs(s, acts)
    decreases acts
  {
    if acts == [] then [] else Drawing(s, acts[0]) + Draws(Next(s, acts[0]), acts[1..])
  }

  lemma StepRecords(s: State, a: Action)
    requires Enabled(s, a)
    ensures Next(s, a).takers == s.takers + Drawing(s, a)
    ensures Next(s, a).entered == s.entered + M.Acquirers(Emit(s, a))
  {
  }

  lemma {:induction false} TakersRecord(s: State, acts: seq<Action>)
    requires Runs(s, acts)
    ensures Exec(s, acts).takers == s.takers + Draws(s, acts)
    decreases acts
  {
    if acts != [] {
      var s' := Next(s, acts[0]);
      StepRecords(s, acts[0]);
      TakersRecord(s', acts[1..]);
      M.Regroup(s.takers, Drawing(s, acts[0]), Draws(s', acts[1..]));
    }
  }

  lemma {:induction false} EnteredRecords(s: State, acts: seq<Action>)
    requires Runs(s, acts)
    ensures Exec(s, acts).entered == s.entered + M.Acquirers(Trace(s, acts))
    decreases acts
  {
    if acts != [] {
      var s', rest := Next(s, acts[0]), acts[1..];
      var now, later := Emit(s, acts[0]), Trace(s', rest);
      StepRecords(s, acts[0]);
      EnteredRecords(s', rest);
      M.AcquirersConcat(now, later);
      M.Regroup(s.entered, M.Acquirers(now), M.Acquirers(later));
    }
  }

  /** The lock is acquired exactly in the order in which tickets are drawn. */
  lemma Fifo(threads: nat, acts: seq<Action>)
    requires Runs(Init(0, threads), acts)
    ensures M.Acquirers(Trace(Init(0, threads), acts)) <= Draws(Init(0, threads), acts)
  {
    var s := Init(0, threads);
    InitInv(threads);
    RunInv(s, acts);
    TakersRecord(s, acts);
    EnteredRecords(s, acts);
    assert s.entered + M.Acquirers(Trace(s, acts)) == M.Acquirers(Trace(s, acts));
    assert s.takers + Draws(s, acts) == Draws(s, acts);
  }

  // ----- no deadlock ------------------------------------------------------------------------

  /** Whenever a thread waits in lock or holds the lock, one of those moves. */
  lemma NoDeadlock(s: State, t: nat) returns (u: nat)
    requires Inv(s) && t < |s.threads| && HasTicket(s.threads[t].pc)
    ensures u < |s.threads| && HasTicket(s.threads[u].pc) && NextStep(s, u) != s
  {
    assert ThreadOf(s, t);
    u := s.takers[s.cur];
    assert Takes(s, u, s.cur);
    assert NextStep(s, u).threads[u].pc != s.threads[u].pc;
  }
}
