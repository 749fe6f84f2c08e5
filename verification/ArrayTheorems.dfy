/** What the array lock promises over every run, and the exact number of threads up
    to which it does. */
module ArrayTheorems {
  import opened Basics
  import M = Mutex
  import opened ArraySpec

  // ----- runs ----------------------------------------------------------------------

  predicate Runs(s: State, acts: seq<Action>)
    decreases acts
  {
    acts == [] || (Enabled(s, acts[0]) && Runs(Next(s, acts[0]), acts[1..]))
  }

  function Exec(s: State, acts: seq<Action>): State
    requires Runs(s, acts)
    decreases acts
  {
    if acts == [] then s else Exec(Next(s, acts[0]), acts[1..])
  }

  lemma {:induction false} RunsAppend(s: State, acts: seq<Action>, a: Action)
    requires Runs(s, acts) && Enabled(Exec(s, acts), a)
    ensures Runs(s, acts + [a]) && Exec(s, acts + [a]) == Next(Exec(s, acts), a)
    decreases acts
  {
    if acts != [] {
      assert (acts + [a])[1..] == acts[1..] + [a];
      RunsAppend(Next(s, acts[0]), acts[1..], a);
    }
  }

  /** acts lead from s0 to s. Stated through the length of acts, so that a proof that only
      passes the fact on does not unroll the run. */
  ghost predicate Reaches(s0: State, acts: seq<Action>, s: State) {
    forall n :: IsLength(acts, n) ==> Runs(s0, acts) && Exec(s0, acts) == s
  }

  lemma ReachesRun(s0: State, acts: seq<Action>, s: State)
    requires Reaches(s0, acts, s)
    ensures Runs(s0, acts) && Exec(s0, acts) == s
  {
    assert IsLength(acts, |acts|);
  }

  lemma ReachesStep(s0: State, acts: seq<Action>, s: State, a: Action)
    requires Reaches(s0, acts, s) && Enabled(s, a)
    ensures Reaches(s0, acts + [a], Next(s, a))
  {
    ReachesRun(s0, acts, s);
    RunsAppend(s0, acts, a);
  }

  lemma {:induction false} RunInv(s: State, acts: seq<Action>)
    requires Inv(s) && Runs(s, acts)
    ensures Inv(Exec(s, acts))
    decreases acts
  {
    if acts != [] {
      StepInv(s, acts[0]);
      RunInv(Next(s, acts[0]), acts[1..]);
    }
  }

  // ----- mutual exclusion, order, one flag --------------------------------------------

  ghost predicate MutualExclusion(s: State) {
    forall t, u :: 0 <= t < |s.threads| && 0 <= u < |s.threads| &&
      InCritical(s.threads[t].pc) && InCritical(s.threads[u].pc)
      ==> t == u
  }

  lemma InvExcludes(s: State)
    requires Inv(s)
    ensures MutualExclusion(s)
  {
    forall t, u | 0 <= t < |s.threads| && 0 <= u < |s.threads| &&
                  InCritical(s.threads[t].pc) && InCritical(s.threads[u].pc)
      ensures t == u
    {
      assert TicketOf(s, t) && TicketOf(s, u);
    }
  }

  /** At most one flag is set, none while the holder is between its two stores; and
      until the holder raises it, head is the holder's ticket. */
  lemma OneFlag(s: State, i: nat, j: nat)
    requires Inv(s) && i < |s.flags| && j < |s.flags|
    ensures s.flags[i] && s.flags[j] ==> i == j
    ensures (exists t :: 0 <= t < |s.threads| && s.threads[t].pc == SetFlag) ==> !s.flags[i]
    ensures forall t :: 0 <= t < |s.threads| && s.threads[t].pc == Critical ==> s.head == s.threads[t].ticket
  {
    forall t | 0 <= t < |s.threads| && s.threads[t].pc in {SetFlag, Critical}
      ensures s.holder == Some(t) && s.threads[t].ticket == s.served
    {
      assert TicketOf(s, t);
    }
  }

  /** The acquisition or release a step completes. */
  function Emit(s: State, a: Action): seq<M.Event>
    requires Enabled(s, a)
  {
    if s.threads[a.t].pc == SetFlag then [M.Release(a.t)]
    else if s.threads[a.t].pc in {TestFlag, SpinFlag} && s.flags[s.threads[a.t].ticket % |s.flags|]
    then [M.Acquire(a.t)]
    else []
  }

  function Trace(s: State, acts: seq<Action>): seq<M.Event>
    requires Runs(s, acts)
    decreases acts
  {
    if acts == [] then [] else Emit(s, acts[0]) + Trace(Next(s, acts[0]), acts[1..])
  }

  lemma StepRefines(s: State, a: Action)
    requires Inv(s) && Enabled(s, a)
    ensures M.Legal(s.holder, Emit(s, a))
    ensures M.HolderAfter(s.holder, Emit(s, a)) == Next(s, a).holder
  {
    if s.threads[a.t].pc in {TestFlag, SpinFlag} {
      FlagIsOwn(s, a.t);
    } else if s.threads[a.t].pc == SetFlag {
      assert TicketOf(s, a.t);
    }
  }

  lemma {:induction false} RunRefines(s: State, acts: seq<Action>)
    requires Inv(s) && Runs(s, acts)
    ensures M.Legal(s.holder, Trace(s, acts))
    ensures M.HolderAfter(s.holder, Trace(s, acts)) == Exec(s, acts).holder
    decreases acts
  {
    if acts != [] {
      StepInv(s, acts[0]);
      StepRefines(s, acts[0]);
      RunRefines(Next(s, acts[0]), acts[1..]);
      M.LegalConcat(s.holder, Emit(s, acts[0]), Trace(Next(s, acts[0]), acts[1..]));
    }
  }

  lemma StepRecords(s: State, a: Action)
    requires Enabled(s, a)
    ensures Next(s, a).entered == s.entered + M.Acquirers(Emit(s, a))
  {
  }

  lemma {:induction false} EnteredRecords(s: State, acts: seq<Action>)
    requires Runs(s, acts)
    ensures Exec(s, acts).entered == s.entered + M.Acquirers(Trace(s, acts))
    decreases acts
  {
    if acts != [] {
      var s', rest := Next(s, acts[0]), acts[1..];
      var now, later := Emit(s, acts[0]), Trace(s', rest);
      StepRecords(s, acts[0]);
      EnteredRecords(s', rest);
      M.AcquirersConcat(now, later);
      M.Regroup(s.entered, M.Acquirers(now), M.Acquirers(later));
    }
  }

  /** The threads that drew a slot, in that order. */
  function Arrivals(acts: seq<Action>): seq<nat> {
    if acts == [] then [] else (if acts[0].Arrive? then [acts[0].t] else []) + Arrivals(acts[1..])
  }

  lemma {:induction false} TakersRecord(s: State, acts: seq<Action>)
    requires Runs(s, acts)
    ensures Exec(s, acts).takers == s.takers + Arrivals(acts)
    decreases acts
  {
    if acts != [] {
      TakersRecord(Next(s, acts[0]), acts[1..]);
    }
  }

  /** The lock is acquired exactly in the order of the fetch_adds on tail. */
  lemma Fifo(slots: nat, threads: nat, acts: seq<Action>)
    requires 0 < slots && threads <= slots && Runs(Init(slots, threads), acts)
    ensures M.Acquirers(Trace(Init(slots, threads), acts)) <= Arrivals(acts)
  {
    var s := Init(slots, threads);
    InitInv(slots, threads);
    RunInv(s, acts);
    EnteredRecords(s, acts);
    TakersRecord(s, acts);
    assert s.entered + M.Acquirers(Trace(s, acts)) == M.Acquirers(Trace(s, acts));
    assert s.takers + Arrivals(acts) == Arrivals(acts);
  }

  // ----- the bound on the number of threads is exact -----------------------------------

  /** The first n threads have drawn their slots and done nothing else. */
  ghost predicate Queued(s: State, slots: nat, threads: nat, n: nat) {
    && n <= |s.threads| == threads && s.tail == n
    && s.flags == Init(slots, threads).flags
    && (forall t :: 0 <= t < n ==> s.threads[t].pc == TestFlag && s.threads[t].ticket == t)
    && (forall t :: n <= t < threads ==> s.threads[t].pc == Idle)
  }

  lemma {:induction false} QueueRun(slots: nat, threads: nat, n: nat) returns (acts: seq<Action>)
    requires 0 < slots && n <= threads
    ensures Runs(Init(slots, threads), acts) && Queued(Exec(Init(slots, threads), acts), slots, threads, n)
  {
    acts := [];
    if n > 0 {
      acts := QueueRun(slots, threads, n - 1);
      RunsAppend(Init(slots, threads), acts, Arrive(n - 1));
      acts := acts + [Arrive(n - 1)];
    }
  }

  /** With one thread more than slots, the first and the last queued thread share a
      slot, and both enter. */
  lemma TooManyThreads(slots: nat, threads: nat) returns (acts: seq<Action>)
    requires 0 < slots < threads
    ensures Runs(Init(slots, threads), acts) && !MutualExclusion(Exec(Init(slots, threads), acts))
  {
    var s := Init(slots, threads);
    acts := QueueRun(slots, threads, slots + 1);
    RunsAppend(s, acts, Step(0));
    acts := acts + [Step(0)];
    MultipleMod(1, 0, slots);
    RunsAppend(s, acts, Step(slots));
    acts := acts + [Step(slots)];
    assert Exec(s, acts).threads[0].pc == Critical && Exec(s, acts).threads[slots].pc == Critical;
  }

  /** Mutual exclusion holds of all runs if and only if there are no more threads
      than slots: I_AEPFL_MAX_THREADS cannot be exceeded by one. */
  lemma ExactThreadBound(slots: nat, threads: nat)
    requires 0 < slots
    ensures (forall acts :: Runs(Init(slots, threads), acts) ==> MutualExclusion(Exec(Init(slots, threads), acts)))
            <==> threads <= slots
  {
    if threads <= slots {
      forall acts | Runs(Init(slots, threads), acts)
        ensures MutualExclusion(Exec(Init(slots, threads), acts))
      {
        InitInv(slots, threads);
        RunInv(Init(slots, threads), acts);
        InvExcludes(Exec(Init(slots, threads), acts));
      }
    } else {
      var acts := TooManyThreads(slots, threads);
    }
  }

  // ----- no deadlock ---------------------------------------------------------------------

  predicate CanMove(s: State, t: nat)
    requires |s.flags| > 0
  {
    t < |s.threads| && s.threads[t].pc != Idle && Next(s, Step(t)) != s
  }

  /** Whenever a thread uses the lock, one that does moves. */
  lemma NoDeadlock(s: State, t: nat) returns (u: nat)
    requires Inv(s) && t < |s.threads| && s.threads[t].pc != Idle
    ensures CanMove(s, u)
  {
    assert TicketOf(s, t);
    if s.holder.Some? {
      u := s.holder.value;
    } else {
      u := s.takers[s.served];
      assert Takes(s, u, s.served) && TicketOf(s, u);
      FlagIsOwn(s, u);
    }
    assert Next(s, Step(u)).threads[u].pc != s.threads[u].pc;
  }
}
