/** The ticket lock with counters of m values: it behaves as with unbounded ones as long
    as fewer than m tickets are drawn while a trylock is between its first load and its
    compare_exchange, and otherwise two threads may enter. */
module TicketWrap {
  import opened Basics
  import opened TicketSpec
  import opened TicketTheorems

  // ----- runs in which no trylock is delayed too long ----------------------------------

  /** w is s with counters of m values. */
  ghost predicate Wraps(w: State, s: State, m: nat)
    requires 0 < m
  {
    && w.modulus == m && s.modulus == 0 && |w.threads| == |s.threads|
    && w.next == s.next % m && w.cur == s.cur % m
    && w.takers == s.takers && w.holder == s.holder && w.entered == s.entered
    && forall t :: 0 <= t < |s.threads| ==> WrapsThread(w.threads[t], s.threads[t], m)
  }

  predicate WrapsThread(x: Thread, y: Thread, m: nat)
    requires 0 < m
  {
    x.pc == y.pc && x.ticket == y.ticket % m && x.cur == y.cur % m
  }

  /** The step is not one of a trylock during which m tickets have been drawn: the first
      load put the number of tickets drawn by then into ticket. */
  predicate FewDraws(s: State, a: Action, m: nat)
    requires Enabled(s, a)
  {
    s.threads[a.t].pc in {TryCur, TryCas} ==> s.next - s.threads[a.t].ticket < m
  }

  /** A run of the unbounded machine without such a step. */
  predicate Timely(s: State, acts: seq<Action>, m: nat)
    decreases acts
  {
    acts == [] || (Enabled(s, acts[0]) && FewDraws(s, acts[0], m) && Timely(Next(s, acts[0]), acts[1..], m))
  }

  /** The comparisons of a step give the same answer on wrapped counters. */
  lemma ComparesExact(s: State, t: nat, m: nat)
    requires Inv(s) && t < |s.threads| < m
    ensures s.threads[t].pc == WaitCur ==> (s.cur % m == s.threads[t].ticket % m <==> s.cur == s.threads[t].ticket)
    ensures s.threads[t].pc == TryCur && s.next - s.threads[t].ticket < m ==>
              (s.cur % m == s.threads[t].ticket % m <==> s.cur == s.threads[t].ticket)
    ensures s.threads[t].pc == TryCas && s.next - s.threads[t].ticket < m ==>
              (s.next % m == s.threads[t].ticket % m <==> s.next == s.threads[t].ticket)
  {
    var k := s.threads[t].ticket;
    assert ThreadOf(s, t);
    TicketsBound(s);
    if s.cur <= k < s.cur + m {
      WrapExact(s.cur, k, m);
    }
    if k <= s.cur < k + m {
      WrapExact(k, s.cur, m);
    }
    if k <= s.next < k + m {
      WrapExact(k, s.next, m);
    }
  }

  lemma WrapsDraw(w: State, s: State, m: nat, t: nat)
    requires 0 < m && Wraps(w, s, m)
    ensures Wraps(Draw(w, t), Draw(s, t), m)
  {
    WrapSucc(s.next, m);
  }

  lemma WrapsPut(w: State, s: State, m: nat, t: nat, x: Thread, y: Thread)
    requires 0 < m && Wraps(w, s, m) && t < |s.threads| && WrapsThread(x, y, m)
    ensures Wraps(Put(w, t, x), Put(s, t, y), m)
  {
  }

  lemma WrapsOwnStep(w: State, s: State, m: nat, t: nat)
    requires t < |s.threads| < m && Inv(s) && Wraps(w, s, m)
    requires s.threads[t].pc in {TryCur, TryCas} ==> s.next - s.threads[t].ticket < m
    ensures Wraps(NextStep(w, t), NextStep(s, t), m)
  {
    var x, y := w.threads[t], s.threads[t];
    assert WrapsThread(x, y, m);
    ComparesExact(s, t, m);
    match y.pc
    case Idle =>
    case WaitCur => WrapsPut(w, s, m, t, x.(pc := Critical), y.(pc := Critical));
    case TryNext => WrapsPut(w, s, m, t, x.(pc := TryCur, ticket := w.next), y.(pc := TryCur, ticket := s.next));
    case TryCur =>
      var pc := if y.ticket == s.cur then TryCas else Idle;
      WrapsPut(w, s, m, t, x.(pc := pc), y.(pc := pc));
    case TryCas =>
      var pc := if s.next == y.ticket then Critical else Idle;
      WrapsPut(w, s, m, t, x.(pc := pc), y.(pc := pc));
      WrapsDraw(Put(w, t, x.(pc := pc)), Put(s, t, y.(pc := pc)), m, t);
    case Critical => WrapsPut(w, s, m, t, x.(pc := StoreCur, cur := w.cur), y.(pc := StoreCur, cur := s.cur));
    case StoreCur =>
      WrapSucc(y.cur, m);
      WrapsPut(w, s, m, t, x.(pc := Idle), y.(pc := Idle));
  }

  lemma WrapsStep(w: State, s: State, m: nat, a: Action)
    requires |s.threads| < m && Inv(s) && Wraps(w, s, m) && Enabled(s, a) && FewDraws(s, a, m)
    ensures Enabled(w, a) && Wraps(Next(w, a), Next(s, a), m)
  {
    var x, y := w.threads[a.t], s.threads[a.t];
    assert WrapsThread(x, y, m);
    match a
    case Lock(t) =>
      WrapsPut(w, s, m, t, x.(pc := WaitCur, ticket := w.next), y.(pc := WaitCur, ticket := s.next));
      WrapsDraw(Next(w, a).(next := w.next, takers := w.takers), Next(s, a).(next := s.next, takers := s.takers), m, t);
    case TryLock(t) => WrapsPut(w, s, m, t, x.(pc := TryNext), y.(pc := TryNext));
    case Step(t) => WrapsOwnStep(w, s, m, t);
    case CasFails(t) => WrapsPut(w, s, m, t, x.(pc := Idle), y.(pc := Idle));
  }

  lemma {:induction false} WrapsRun(w: State, s: State, m: nat, acts: seq<Action>)
    requires |s.threads| < m && Inv(s) && Wraps(w, s, m) && Timely(s, acts, m)
    ensures Runs(s, acts) && Runs(w, acts) && Inv(Exec(s, acts)) && Wraps(Exec(w, acts), Exec(s, acts), m)
    ensures |Exec(s, acts).threads| == |s.threads|
    decreases acts
  {
    if acts != [] {
      WrapsStep(w, s, m, acts[0]);
      StepInv(s, acts[0]);
      WrapsRun(Next(w, acts[0]), Next(s, acts[0]), m, acts[1..]);
    }
  }

  /** In a timely run of fewer than m threads counters of m values are as good as unbounded
      ones: one thread at most is inside. */
  lemma TimelyRunsExclude(m: nat, threads: nat, acts: seq<Action>)
    requires threads < m && Timely(Init(0, threads), acts, m)
    ensures Runs(Init(m, threads), acts) && MutualExclusion(Exec(Init(m, threads), acts))
  {
    var w0, s0 := Init(m, threads), Init(0, threads);
    InitInv(threads);
    MultipleMod(0, 0, m);
    WrapsRun(w0, s0, m, acts);
    RunMutualExclusion(threads, acts);
    var w, s := Exec(w0, acts), Exec(s0, acts);
    forall t, u | 0 <= t < |w.threads| && 0 <= u < |w.threads| &&
                  InCritical(w.threads[t].pc) && InCritical(w.threads[u].pc)
      ensures t == u
    {
      assert WrapsThread(w.threads[t], s.threads[t], m) && WrapsThread(w.threads[u], s.threads[u], m);
    }
  }

  /** And a trylock whose compare_exchange succeeds, before m tickets have been drawn since
      its first load, takes the ticket being served while nobody holds the lock. */
  lemma TimelyCasTakesServed(m: nat, threads: nat, acts: seq<Action>, t: nat)
    requires threads < m && Timely(Init(0, threads), acts, m) && t < threads
    ensures Runs(Init(m, threads), acts) && Runs(Init(0, threads), acts)
    ensures var w, s := Exec(Init(m, threads), acts), Exec(Init(0, threads), acts);
            && t < |w.threads| == |s.threads|
            && w.threads[t].pc == s.threads[t].pc
            && ((w.threads[t].pc == TryCas && s.next - s.threads[t].ticket < m && w.next == w.threads[t].ticket)
                ==> w.threads[t].ticket == w.cur && w.holder == None)
  {
    InitInv(threads);
    MultipleMod(0, 0, m);
    WrapsRun(Init(m, threads), Init(0, threads), m, acts);
    var w, s := Exec(Init(m, threads), acts), Exec(Init(0, threads), acts);
    assert WrapsThread(w.threads[t], s.threads[t], m);
    ComparesExact(s, t, m);
    if s.threads[t].pc == TryCas && s.next == s.threads[t].ticket {
      CasTakesServedTicket(s, t);
    }
  }

  // ----- a trylock delayed too long ------------------------------------------------------

  /** Thread 0 stands between its loads, both of which read zero, and its
      compare_exchange; k tickets have been drawn and served since. */
  ghost predicate Racing(s: State, m: nat, k: nat) {
    && s.modulus == m && |s.threads| >= 2 && s.next == s.cur == k && s.holder == None
    && s.threads[0] == Thread(TryCas, 0, 0) && s.threads[1].pc == Idle
  }

  lemma Go(s0: State, acts: seq<Action>, s: State, a: Action) returns (more: seq<Action>, s': State)
    requires Reaches(s0, acts, s) && Enabled(s, a)
    ensures s' == Next(s, a) && Reaches(s0, more, s')
  {
    more, s' := acts + [a], Next(s, a);
    ReachesStep(s0, acts, s, a);
  }

  lemma RacingStart(m: nat, threads: nat) returns (acts: seq<Action>, s: State)
    requires 2 <= threads
    ensures Reaches(Init(m, threads), acts, s) && Racing(s, m, 0)
  {
    acts, s := [], Init(m, threads);
    acts, s := Go(Init(m, threads), acts, s, TryLock(0));
    acts, s := Go(Init(m, threads), acts, s, Step(0));
    acts, s := Go(Init(m, threads), acts, s, Step(0));
  }

  /** Thread 1 acquires and releases the lock. */
  lemma Cycle(s0: State, acts: seq<Action>, s: State, m: nat, k: nat) returns (more: seq<Action>, s': State)
    requires Reaches(s0, acts, s) && Racing(s, m, k) && k + 1 < m
    ensures Reaches(s0, more, s') && Racing(s', m, k + 1)
  {
    MultipleMod(0, k + 1, m);
    more, s' := Go(s0, acts, s, Lock(1));
    more, s' := Go(s0, more, s', Step(1));
    assert s'.threads[1].pc == Critical && s'.next == k + 1 && s'.cur == k;
    more, s' := Go(s0, more, s', Step(1));
    more, s' := Go(s0, more, s', Step(1));
  }

  lemma {:induction false} CycleRun(m: nat, threads: nat, k: nat) returns (acts: seq<Action>, s: State)
    requires k < m && 2 <= threads
    ensures Reaches(Init(m, threads), acts, s) && Racing(s, m, k)
  {
    if k == 0 {
      acts, s := RacingStart(m, threads);
    } else {
      acts, s := CycleRun(m, threads, k - 1);
      acts, s := Cycle(Init(m, threads), acts, s, m, k - 1);
    }
  }

  /** m tickets drawn by another thread between the loads and the compare_exchange of a
      trylock bring next_count back to the value loaded, and both threads enter. */
  lemma WrappedTrylockFails(m: nat, threads: nat) returns (acts: seq<Action>)
    requires 0 < m && 2 <= threads
    ensures Runs(Init(m, threads), acts) && !MutualExclusion(Exec(Init(m, threads), acts))
  {
    var s;
    acts, s := CycleRun(m, threads, m - 1);
    MultipleMod(1, 0, m);
    acts, s := Go(Init(m, threads), acts, s, Lock(1));
    acts, s := Go(Init(m, threads), acts, s, Step(1));
    acts, s := Go(Init(m, threads), acts, s, Step(0));
    assert InCritical(s.threads[0].pc) && InCritical(s.threads[1].pc);
    ReachesRun(Init(m, threads), acts, s);
  }

  /** lock, trylock and unlock exclude each other in all runs exactly if the counters never
      wrap or there is no second thread. */
  lemma ExactCounters(m: nat, threads: nat)
    ensures (forall acts :: Runs(Init(m, threads), acts) ==> MutualExclusion(Exec(Init(m, threads), acts)))
            <==> m == 0 || threads < 2
  {
    if m == 0 || threads < 2 {
      forall acts | Runs(Init(m, threads), acts)
        ensures MutualExclusion(Exec(Init(m, threads), acts))
      {
        if m == 0 {
          RunMutualExclusion(threads, acts);
        } else {
          ThreadsKept(Init(m, threads), acts);
        }
      }
    } else {
      var acts := WrappedTrylockFails(m, threads);
    }
  }
}
