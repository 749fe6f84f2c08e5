/** The array lock's trylock. It loads tail for both of the values it compares, so it never
    looks at head: it takes a ticket whether or not the lock is free, and counts as the
    owner at once. */
module ArrayTry {
  import opened Basics
  import L = ArraySpec
  import T = ArrayTheorems

  /** Where a thread is in trylock. */
  datatype Try =
    | Out
    | Second(curTail: nat)   // load tail into cur_head, compare
    | Cas(curTail: nat)      // compare_exchange tail, which may fail without a reason

  datatype State = State(lock: L.State, tries: seq<Try>)

  datatype Action =
    | Use(a: L.Action)       // an access of lock or unlock
    | TryLock(t: nat)        // load tail into cur_tail
    | Step(t: nat)
    | CasFails(t: nat)

  function Init(slots: nat, threads: nat): State {
    State(L.Init(slots, threads), seq(threads, _ => Out))
  }

  predicate Enabled(s: State, a: Action) {
    match a
    case Use(b) => L.Enabled(s.lock, b) && b.t < |s.tries| && s.tries[b.t].Out?
    case TryLock(t) => t < |s.tries| == |s.lock.threads| && s.tries[t].Out? && s.lock.threads[t].pc == L.Idle
    case Step(t) => t < |s.tries| == |s.lock.threads| && !s.tries[t].Out?
    case CasFails(t) => t < |s.tries| && s.tries[t].Cas?
  }

  /** trylock returns success: the thread goes on as the owner of the ticket it took. */
  function Acquired(s: L.State, t: nat): L.State
    requires t < |s.threads|
  {
    L.Put(s, t, s.threads[t].(pc := L.Critical, ticket := s.tail))
    .(tail := s.tail + 1, takers := s.takers + [t], holder := Some(t), entered := s.entered + [t])
  }

  /** The compare_exchange of this step succeeds. */
  predicate Succeeds(s: State, a: Action) {
    a.Step? && a.t < |s.tries| && s.tries[a.t].Cas? && s.tries[a.t].curTail == s.lock.tail
  }

  function Next(s: State, a: Action): State
    requires Enabled(s, a)
  {
    match a
    case Use(b) => s.(lock := L.Next(s.lock, b))
    case TryLock(t) => s.(tries := s.tries[t := Second(s.lock.tail)])
    case CasFails(t) => s.(tries := s.tries[t := Out])
    case Step(t) =>
      match s.tries[t]
      case Second(x) => s.(tries := s.tries[t := if s.lock.tail == x then Cas(x) else Out])
      case Cas(x) =>
        State(if s.lock.tail == x then Acquired(s.lock, t) else s.lock, s.tries[t := Out])
      case Out => s
  }

  predicate Runs(s: State, acts: seq<Action>)
    decreases acts
  {
    acts == [] || (Enabled(s, acts[0]) && Runs(Next(s, acts[0]), acts[1..]))
  }

  function Exec(s: State, acts: seq<Action>): State
    requires Runs(s, acts)
    decreases acts
  {
    if acts == [] then s else Exec(Next(s, acts[0]), acts[1..])
  }

  // ----- when a success is right ----------------------------------------------------------

  /** A success keeps the lock's invariant exactly if no ticket is out when it happens. */
  lemma RightExactlyWhenFree(s: L.State, t: nat)
    requires L.Inv(s) && t < |s.threads| && s.threads[t].pc == L.Idle
    ensures L.Inv(Acquired(s, t)) <==> s.tail == s.served
  {
    var s' := Acquired(s, t);
    if L.Inv(s') {
      assert L.TicketOf(s', t);
    }
    if s.tail == s.served {
      NobodyInside(s);
    }
  }

  lemma NobodyInside(s: L.State)
    requires L.Inv(s) && s.tail == s.served
    ensures s.holder == None && forall t :: 0 <= t < |s.threads| ==> s.threads[t].pc == L.Idle
  {
    forall t | 0 <= t < |s.threads|
      ensures s.threads[t].pc == L.Idle
    {
      assert s.threads[t].pc != L.Idle ==> L.TicketOf(s, t);
    }
  }

  /** The lock's invariant, and no thread in trylock is anywhere else. */
  ghost predicate Inv(s: State) {
    && L.Inv(s.lock) && |s.tries| == |s.lock.threads|
    && forall t :: 0 <= t < |s.tries| && !s.tries[t].Out? ==> s.lock.threads[t].pc == L.Idle
  }

  /** Every success of the run happens while no ticket is out. */
  predicate OnlyWhenFree(s: State, acts: seq<Action>)
    requires Runs(s, acts)
    decreases acts
  {
    acts == [] ||
    ((Succeeds(s, acts[0]) ==> s.lock.tail == s.lock.served) && OnlyWhenFree(Next(s, acts[0]), acts[1..]))
  }

  lemma UseInv(s: State, b: L.Action)
    requires Inv(s) && Enabled(s, Use(b))
    ensures Inv(Next(s, Use(b)))
  {
    L.StepInv(s.lock, b);
    OthersPlace(s.lock, b);
  }

  lemma OthersPlace(s: L.State, b: L.Action)
    requires L.Enabled(s, b)
    ensures |L.Next(s, b).threads| == |s.threads|
    ensures forall t :: 0 <= t < |s.threads| && t != b.t ==> L.Next(s, b).threads[t] == s.threads[t]
  {
  }

  lemma StepInv(s: State, a: Action)
    requires Inv(s) && Enabled(s, a) && (Succeeds(s, a) ==> s.lock.tail == s.lock.served)
    ensures Inv(Next(s, a))
  {
    if a.Use? {
      UseInv(s, a.a);
    } else if Succeeds(s, a) {
      RightExactlyWhenFree(s.lock, a.t);
    }
  }

  /** In such runs lock, trylock and unlock exclude each other. */
  lemma {:induction false} RunExcludes(s: State, acts: seq<Action>)
    requires Inv(s) && Runs(s, acts) && OnlyWhenFree(s, acts)
    ensures Inv(Exec(s, acts)) && T.MutualExclusion(Exec(s, acts).lock)
    decreases acts
  {
    if acts == [] {
      T.InvExcludes(s.lock);
    } else {
      StepInv(s, acts[0]);
      RunExcludes(Next(s, acts[0]), acts[1..]);
    }
  }

  lemma FreeSuccessesExclude(slots: nat, threads: nat, acts: seq<Action>)
    requires 0 < slots && threads <= slots
    requires Runs(Init(slots, threads), acts) && OnlyWhenFree(Init(slots, threads), acts)
    ensures T.MutualExclusion(Exec(Init(slots, threads), acts).lock)
  {
    L.InitInv(slots, threads);
    RunExcludes(Init(slots, threads), acts);
  }

  // ----- and when it is not -----------------------------------------------------------------

  /** Thread 0 holds the lock, and the trylock of thread 1 succeeds: both are inside. */
  lemma BothInside(slots: nat, threads: nat) returns (acts: seq<Action>)
    requires 2 <= threads && 0 < slots
    ensures Runs(Init(slots, threads), acts) && !T.MutualExclusion(Exec(Init(slots, threads), acts).lock)
  {
    acts := [Use(L.Arrive(0)), Use(L.Step(0)), TryLock(1), Step(1), Step(1)];
    var s0 := Init(slots, threads);
    var s1 := Next(s0, acts[0]);
    var s2 := Next(s1, acts[1]);
    assert s2.lock.threads[0].pc == L.Critical && s2.lock.tail == 1;
    var s3 := Next(s2, acts[2]);
    var s4 := Next(s3, acts[3]);
    var s5 := Next(s4, acts[4]);
    assert s5.lock.threads[0].pc == L.Critical && s5.lock.threads[1].pc == L.Critical;
    assert Runs(s5, []) && Runs(s4, [acts[4]]) && Exec(s4, [acts[4]]) == s5;
    RunsCons(s3, acts[3], [acts[4]]);
    RunsCons(s2, acts[2], [acts[3], acts[4]]);
    RunsCons(s1, acts[1], [acts[2], acts[3], acts[4]]);
    RunsCons(s0, acts[0], [acts[1], acts[2], acts[3], acts[4]]);
    assert acts == [acts[0]] + [acts[1], acts[2], acts[3], acts[4]];
  }

  lemma RunsCons(s: State, a: Action, acts: seq<Action>)
    requires Enabled(s, a) && Runs(Next(s, a), acts)
    ensures Runs(s, [a] + acts) && Exec(s, [a] + acts) == Exec(Next(s, a), acts)
  {
    assert ([a] + acts)[1..] == acts;
  }

  /** With trylock in use the array lock excludes in all runs exactly if there is no second
      thread, however many slots there are. */
  lemma ExcludesOnlyAlone(slots: nat, threads: nat)
    requires 0 < slots
    ensures (forall acts :: Runs(Init(slots, threads), acts) ==>
               T.MutualExclusion(Exec(Init(slots, threads), acts).lock)) <==> threads < 2
  {
    if threads < 2 {
      forall acts | Runs(Init(slots, threads), acts)
        ensures T.MutualExclusion(Exec(Init(slots, threads), acts).lock)
      {
        SizesKept(Init(slots, threads), acts);
      }
    } else {
      var acts := BothInside(slots, threads);
    }
  }

  lemma {:induction false} SizesKept(s: State, acts: seq<Action>)
    requires Runs(s, acts)
    ensures |Exec(s, acts).lock.threads| == |s.lock.threads|
    decreases acts
  {
    if acts != [] {
      SizesKept(Next(s, acts[0]), acts[1..]);
    }
  }
}
