/** The benchmark kernel in which every thread does outer_iter * cs_iter increments of
    the shared counter, over any lock that implements Mutex. An increment is a load
    and a store; the scheduler may run other threads in between. */
module BenchPerThread {
  import opened Basics
  import M = Mutex

  datatype Pc = Outside | Inside | Loaded

  /** Iterations still to do: of the outer loop and of the critical section. */
  datatype Thread = Thread(pc: Pc, outer: nat, cs: nat, tmp: nat)

  datatype State = State(counter: nat, threads: seq<Thread>)

  datatype Action = Lock(t: nat) | Load(t: nat) | Store(t: nat) | Unlock(t: nat)

  function Init(threads: nat, outer: nat): State {
    State(0, seq(threads, _ => Thread(Outside, outer, 0, 0)))
  }

  predicate Enabled(s: State, a: Action) {
    && a.t < |s.threads|
    && var th := s.threads[a.t];
       match a
       case Lock(_) => th.pc == Outside && th.outer > 0
       case Load(_) => th.pc == Inside && th.cs > 0
       case Store(_) => th.pc == Loaded && th.cs > 0
       case Unlock(_) => th.pc == Inside && th.cs == 0 && th.outer > 0
  }

  function Next(csIter: nat, s: State, a: Action): State
    requires Enabled(s, a)
  {
    var th := s.threads[a.t];
    match a
    case Lock(t) => s.(threads := s.threads[t := th.(pc := Inside, cs := csIter)])
    case Load(t) => s.(threads := s.threads[t := th.(pc := Loaded, tmp := s.counter)])
    case Store(t) =>
      State((th.tmp + 1) % U64, s.threads[t := th.(pc := Inside, cs := th.cs - 1)])
    case Unlock(t) => s.(threads := s.threads[t := th.(pc := Outside, outer := th.outer - 1)])
  }

  function Emit(a: Action): seq<M.Event> {
    match a
    case Lock(t) => [M.Acquire(t)]
    case Unlock(t) => [M.Release(t)]
    case _ => []
  }

  /** What the run asks of the lock. */
  function Trace(acts: seq<Action>): seq<M.Event> {
    if acts == [] then [] else Emit(acts[0]) + Trace(acts[1..])
  }

  predicate Runs(csIter: nat, s: State, acts: seq<Action>)
    decreases acts
  {
    acts == [] || (Enabled(s, acts[0]) && Runs(csIter, Next(csIter, s, acts[0]), acts[1..]))
  }

  function Exec(csIter: nat, s: State, acts: seq<Action>): State
    requires Runs(csIter, s, acts)
    decreases acts
  {
    if acts == [] then s else Exec(csIter, Next(csIter, s, acts[0]), acts[1..])
  }

  // ----- no update is lost ------------------------------------------------------------

  /** Increments a thread has completed. */
  function Done(outerIter: nat, csIter: nat, th: Thread): int {
    (outerIter - th.outer) * csIter + if th.pc == Outside then 0 else csIter - th.cs
  }

  function TotalDone(outerIter: nat, csIter: nat, threads: seq<Thread>): int {
    if threads == [] then 0
    else Done(outerIter, csIter, threads[0]) + TotalDone(outerIter, csIter, threads[1..])
  }

  lemma {:induction false} TotalUpdate(outerIter: nat, csIter: nat, threads: seq<Thread>, t: nat, th: Thread)
    requires t < |threads|
    ensures TotalDone(outerIter, csIter, threads[t := th]) ==
            TotalDone(outerIter, csIter, threads) - Done(outerIter, csIter, threads[t]) + Done(outerIter, csIter, th)
    decreases threads
  {
    if t == 0 {
      assert threads[t := th][1..] == threads[1..];
    } else {
      assert threads[t := th][1..] == threads[1..][t - 1 := th];
      TotalUpdate(outerIter, csIter, threads[1..], t - 1, th);
    }
  }

  /** holder is the thread the lock says is inside. */
  ghost predicate Inv(outerIter: nat, csIter: nat, s: State, holder: Option<nat>) {
    && (forall t :: 0 <= t < |s.threads| ==> ThreadInv(outerIter, csIter, s, holder, t))
    && TotalDone(outerIter, csIter, s.threads) >= 0
    && s.counter == TotalDone(outerIter, csIter, s.threads) % U64
  }

  ghost predicate ThreadInv(outerIter: nat, csIter: nat, s: State, holder: Option<nat>, t: nat)
    requires t < |s.threads|
  {
    var th := s.threads[t];
    && (th.pc != Outside <==> holder == Some(t))
    && (th.pc == Loaded ==> th.tmp == s.counter && th.cs > 0)
    && th.outer <= outerIter && (th.pc != Outside ==> th.cs <= csIter && th.outer > 0)
  }

  lemma {:induction false} InitTotal(outerIter: nat, csIter: nat, threads: nat)
    ensures TotalDone(outerIter, csIter, Init(threads, outerIter).threads) == 0
  {
    if threads > 0 {
      InitTotal(outerIter, csIter, threads - 1);
      assert Init(threads, outerIter).threads[1..] == Init(threads - 1, outerIter).threads;
    }
  }

  lemma DoneStep(outerIter: nat, csIter: nat, s: State, a: Action)
    requires Enabled(s, a)
    ensures Done(outerIter, csIter, Next(csIter, s, a).threads[a.t]) ==
            Done(outerIter, csIter, s.threads[a.t]) + (if a.Store? then 1 else 0)
  {
    if a.Unlock? {
      var k := outerIter - s.threads[a.t].outer;
      assert (k + 1) * csIter == k * csIter + csIter;
    }
  }

  /** A step taken with the lock's permission keeps the books. */
  lemma StepInv(outerIter: nat, csIter: nat, s: State, holder: Option<nat>, a: Action)
    requires Inv(outerIter, csIter, s, holder) && Enabled(s, a) && M.Legal(holder, Emit(a))
    ensures Inv(outerIter, csIter, Next(csIter, s, a), M.HolderAfter(holder, Emit(a)))
  {
    var s', holder' := Next(csIter, s, a), M.HolderAfter(holder, Emit(a));
    assert ThreadInv(outerIter, csIter, s, holder, a.t);
    TotalUpdate(outerIter, csIter, s.threads, a.t, s'.threads[a.t]);
    DoneStep(outerIter, csIter, s, a);
    WrapSucc(TotalDone(outerIter, csIter, s.threads), U64);
    forall t | 0 <= t < |s'.threads|
      ensures ThreadInv(outerIter, csIter, s', holder', t)
    {
      assert ThreadInv(outerIter, csIter, s, holder, t);
    }
  }

  lemma {:induction false} RunInv(outerIter: nat, csIter: nat, s: State, holder: Option<nat>, acts: seq<Action>)
    requires Inv(outerIter, csIter, s, holder) && Runs(csIter, s, acts) && M.Legal(holder, Trace(acts))
    ensures Inv(outerIter, csIter, Exec(csIter, s, acts), M.HolderAfter(holder, Trace(acts)))
    decreases acts
  {
    if acts != [] {
      M.LegalSplit(holder, Emit(acts[0]), Trace(acts[1..]));
      StepInv(outerIter, csIter, s, holder, acts[0]);
      RunInv(outerIter, csIter, Next(csIter, s, acts[0]), M.HolderAfter(holder, Emit(acts[0])), acts[1..]);
      M.LegalConcat(holder, Emit(acts[0]), Trace(acts[1..]));
    }
  }

  ghost predicate Finished(s: State) {
    forall t :: 0 <= t < |s.threads| ==> s.threads[t].pc == Outside && s.threads[t].outer == 0
  }

  lemma {:induction false} FinishedTotal(outerIter: nat, csIter: nat, threads: seq<Thread>)
    requires forall t :: 0 <= t < |threads| ==> threads[t].pc == Outside && threads[t].outer == 0
    ensures TotalDone(outerIter, csIter, threads) == |threads| * (outerIter * csIter)
  {
    if threads != [] {
      FinishedTotal(outerIter, csIter, threads[1..]);
      var n, w := |threads| - 1, outerIter * csIter;
      assert (n + 1) * w == n * w + w;
    }
  }

  lemma {:induction false} ThreadsKept(csIter: nat, s: State, acts: seq<Action>)
    requires Runs(csIter, s, acts)
    ensures |Exec(csIter, s, acts).threads| == |s.threads|
    decreases acts
  {
    if acts != [] {
      ThreadsKept(csIter, Next(csIter, s, acts[0]), acts[1..]);
    }
  }

  /** get_expected_count of this benchmark: 64-bit products. */
  function ExpectedCount(threads: nat, outerIter: nat, csIter: nat): nat {
    threads * outerIter % U64 * csIter % U64
  }

  lemma ExpectedCountIsProduct(threads: nat, outerIter: nat, csIter: nat)
    ensures ExpectedCount(threads, outerIter, csIter) == threads * (outerIter * csIter) % U64
  {
    var p := threads * outerIter;
    var q, r := p / U64, p % U64;
    assert p == q * U64 + r;
    var x := r * csIter;
    var k, e := x / U64, x % U64;
    assert x == k * U64 + e;
    assert p * csIter == (q * csIter) * U64 + r * csIter;
    assert threads * (outerIter * csIter) == p * csIter == (q * csIter + k) * U64 + e;
    MultipleMod(q * csIter + k, e, U64);
  }

  /** Over any lock with the histories of a mutex the counter ends at the count the
      runner expects, although an increment is not atomic. */
  lemma NoLostUpdate(threads: nat, outerIter: nat, csIter: nat, acts: seq<Action>)
    requires Runs(csIter, Init(threads, outerIter), acts) && M.Legal(None, Trace(acts))
    requires Finished(Exec(csIter, Init(threads, outerIter), acts))
    ensures Exec(csIter, Init(threads, outerIter), acts).counter == ExpectedCount(threads, outerIter, csIter)
  {
    var s := Init(threads, outerIter);
    InitTotal(outerIter, csIter, threads);
    RunInv(outerIter, csIter, s, None, acts);
    ThreadsKept(csIter, s, acts);
    FinishedTotal(outerIter, csIter, Exec(csIter, s, acts).threads);
    ExpectedCountIsProduct(threads, outerIter, csIter);
  }

  // ----- the benchmark ends ------------------------------------------------------------

  /** Steps a thread has still to do: one for lock, one for unlock and two for each increment. */
  function Left(csIter: nat, th: Thread): int {
    match th.pc
    case Outside => th.outer * (2 * csIter + 2)
    case Inside => (th.outer - 1) * (2 * csIter + 2) + 2 * th.cs + 1
    case Loaded => (th.outer - 1) * (2 * csIter + 2) + 2 * th.cs
  }

  function TotalLeft(csIter: nat, threads: seq<Thread>): int {
    if threads == [] then 0 else Left(csIter, threads[0]) + TotalLeft(csIter, threads[1..])
  }

  lemma {:induction false} LeftUpdate(csIter: nat, threads: seq<Thread>, t: nat, th: Thread)
    requires t < |threads|
    ensures TotalLeft(csIter, threads[t := th]) ==
            TotalLeft(csIter, threads) - Left(csIter, threads[t]) + Left(csIter, th)
    decreases threads
  {
    if t == 0 {
      assert threads[t := th][1..] == threads[1..];
    } else {
      assert threads[t := th][1..] == threads[1..][t - 1 := th];
      LeftUpdate(csIter, threads[1..], t - 1, th);
    }
  }

  lemma OneLess(k: int, w: int)
    ensures k * w == (k - 1) * w + w
  {
  }

  lemma LeftStep(csIter: nat, s: State, a: Action)
    requires Enabled(s, a)
    ensures TotalLeft(csIter, Next(csIter, s, a).threads) == TotalLeft(csIter, s.threads) - 1
  {
    var th := s.threads[a.t];
    LeftUpdate(csIter, s.threads, a.t, Next(csIter, s, a).threads[a.t]);
    OneLess(th.outer, 2 * csIter + 2);
  }

  lemma {:induction false} LeftAfterRun(csIter: nat, s: State, acts: seq<Action>)
    requires Runs(csIter, s, acts)
    ensures |acts| + TotalLeft(csIter, Exec(csIter, s, acts).threads) == TotalLeft(csIter, s.threads)
    decreases acts
  {
    if acts != [] {
      LeftStep(csIter, s, acts[0]);
      LeftAfterRun(csIter, Next(csIter, s, acts[0]), acts[1..]);
    }
  }

  lemma {:induction false} LeftAtOuter(csIter: nat, threads: seq<Thread>, outer: nat)
    requires forall t :: 0 <= t < |threads| ==> threads[t].pc == Outside && threads[t].outer == outer
    ensures TotalLeft(csIter, threads) == |threads| * (outer * (2 * csIter + 2))
  {
    if threads != [] {
      LeftAtOuter(csIter, threads[1..], outer);
      OneLess(|threads|, outer * (2 * csIter + 2));
    }
  }

  lemma {:induction false} NotNegative(k: nat, w: nat)
    ensures k * w >= 0
  {
    if k > 0 {
      NotNegative(k - 1, w);
      OneLess(k, w);
    }
  }

  lemma ThreadLeft(csIter: nat, th: Thread)
    requires th.pc != Outside ==> th.outer > 0
    ensures Left(csIter, th) >= 0
  {
    var w := 2 * csIter + 2;
    NotNegative(th.outer, w);
    if th.outer > 0 {
      NotNegative(th.outer - 1, w);
    }
  }

  lemma {:induction false} LeftNotNegative(csIter: nat, threads: seq<Thread>)
    requires forall t :: 0 <= t < |threads| && threads[t].pc != Outside ==> threads[t].outer > 0
    ensures TotalLeft(csIter, threads) >= 0
  {
    if threads != [] {
      ThreadLeft(csIter, threads[0]);
      LeftNotNegative(csIter, threads[1..]);
    }
  }

  /** Every run that a mutex allows has at most threads * outer_iter * (2 * cs_iter + 2)
      steps, and a finished one has exactly as many. */
  lemma RunLength(threads: nat, outerIter: nat, csIter: nat, acts: seq<Action>)
    requires Runs(csIter, Init(threads, outerIter), acts) && M.Legal(None, Trace(acts))
    ensures |acts| <= threads * (outerIter * (2 * csIter + 2))
    ensures Finished(Exec(csIter, Init(threads, outerIter), acts)) ==>
              |acts| == threads * (outerIter * (2 * csIter + 2))
  {
    var s := Init(threads, outerIter);
    LeftAtOuter(csIter, s.threads, outerIter);
    LeftAfterRun(csIter, s, acts);
    InitTotal(outerIter, csIter, threads);
    RunInv(outerIter, csIter, s, None, acts);
    ThreadsKept(csIter, s, acts);
    var s' := Exec(csIter, s, acts);
    forall t | 0 <= t < |s'.threads| && s'.threads[t].pc != Outside
      ensures s'.threads[t].outer > 0
    {
      assert ThreadInv(outerIter, csIter, s', M.HolderAfter(None, Trace(acts)), t);
    }
    LeftNotNegative(csIter, s'.threads);
    if Finished(s') {
      LeftAtOuter(csIter, s'.threads, 0);
    }
  }

  lemma CanGoOn(outerIter: nat, csIter: nat, s: State, holder: Option<nat>) returns (a: Action)
    requires Inv(outerIter, csIter, s, holder) && !Finished(s) && (holder.Some? ==> holder.value < |s.threads|)
    ensures Enabled(s, a) && M.Legal(holder, Emit(a))
  {
    if holder.Some? {
      var t := holder.value;
      var th := s.threads[t];
      assert ThreadInv(outerIter, csIter, s, holder, t);
      a := if th.pc == Loaded then Store(t) else if th.cs > 0 then Load(t) else Unlock(t);
    } else {
      var t :| 0 <= t < |s.threads| && !(s.threads[t].pc == Outside && s.threads[t].outer == 0);
      assert ThreadInv(outerIter, csIter, s, holder, t);
      a := Lock(t);
    }
  }

  /** An acquisition is made by one of the threads. */
  lemma {:induction false} HolderIsThread(csIter: nat, s: State, holder: Option<nat>, acts: seq<Action>)
    requires Runs(csIter, s, acts) && (holder.Some? ==> holder.value < |s.threads|)
    ensures M.HolderAfter(holder, Trace(acts)).Some? ==> M.HolderAfter(holder, Trace(acts)).value < |s.threads|
    decreases acts
  {
    if acts != [] {
      var now, later := Emit(acts[0]), Trace(acts[1..]);
      HolderIsThread(csIter, Next(csIter, s, acts[0]), M.HolderAfter(holder, now), acts[1..]);
      assert later == [] ==> Trace(acts) == now;
    }
  }

  lemma RunOfOne(csIter: nat, s: State, a: Action)
    requires Enabled(s, a)
    ensures Runs(csIter, s, [a]) && Trace([a]) == Emit(a)
  {
    assert [a][1..] == [];
    assert Trace([a]) == Emit(a) + Trace([]);
  }

  lemma {:induction false} TraceConcat(xs: seq<Action>, ys: seq<Action>)
    ensures Trace(xs + ys) == Trace(xs) + Trace(ys)
    decreases xs
  {
    if xs == [] {
      assert xs + ys == ys;
    } else {
      assert (xs + ys)[1..] == xs[1..] + ys;
      TraceConcat(xs[1..], ys);
      assert Emit(xs[0]) + (Trace(xs[1..]) + Trace(ys)) == (Emit(xs[0]) + Trace(xs[1..])) + Trace(ys);
    }
  }

  /** An unfinished run that a mutex allows can be continued: with the bound on its
      length, every schedule ends, and ends with the expected count. */
  lemma UnfinishedGoesOn(threads: nat, outerIter: nat, csIter: nat, acts: seq<Action>) returns (a: Action)
    requires Runs(csIter, Init(threads, outerIter), acts) && M.Legal(None, Trace(acts))
    requires !Finished(Exec(csIter, Init(threads, outerIter), acts))
    ensures Runs(csIter, Init(threads, outerIter), acts + [a]) && M.Legal(None, Trace(acts + [a]))
  {
    var s := Init(threads, outerIter);
    InitTotal(outerIter, csIter, threads);
    RunInv(outerIter, csIter, s, None, acts);
    ThreadsKept(csIter, s, acts);
    HolderIsThread(csIter, s, None, acts);
    a := CanGoOn(outerIter, csIter, Exec(csIter, s, acts), M.HolderAfter(None, Trace(acts)));
    RunOfOne(csIter, Exec(csIter, s, acts), a);
    RunsAppend(csIter, s, acts, [a]);
    TraceConcat(acts, [a]);
    M.LegalConcat(None, Trace(acts), Emit(a));
  }

  // ----- without a lock ------------------------------------------------------------------

  lemma {:induction false} RunsAppend(csIter: nat, s: State, xs: seq<Action>, ys: seq<Action>)
    requires Runs(csIter, s, xs) && Runs(csIter, Exec(csIter, s, xs), ys)
    ensures Runs(csIter, s, xs + ys)
    ensures Exec(csIter, s, xs + ys) == Exec(csIter, Exec(csIter, s, xs), ys)
    decreases xs
  {
    if xs == [] {
      assert xs + ys == ys;
    } else {
      assert (xs + ys)[1..] == xs[1..] + ys;
      RunsAppend(csIter, Next(csIter, s, xs[0]), xs[1..], ys);
    }
  }

  lemma RunOfTwo(csIter: nat, s: State, a: Action, b: Action, s': State) returns (acts: seq<Action>)
    requires Enabled(s, a) && Enabled(Next(csIter, s, a), b) && s' == Next(csIter, Next(csIter, s, a), b)
    ensures acts == [a, b] && Runs(csIter, s, acts) && Exec(csIter, s, acts) == s'
  {
    acts := [a, b];
    var mid := Next(csIter, s, a);
    assert acts[1..] == [b] && [b][1..] == [];
    assert Exec(csIter, mid, [b]) == Exec(csIter, Next(csIter, mid, b), []);
  }

  lemma AppendTwo(csIter: nat, s: State, acts: seq<Action>, a: Action, b: Action, s': State) returns (more: seq<Action>)
    requires Runs(csIter, s, acts)
    requires var mid := Exec(csIter, s, acts);
             Enabled(mid, a) && Enabled(Next(csIter, mid, a), b) && s' == Next(csIter, Next(csIter, mid, a), b)
    ensures more == acts + [a, b] && Runs(csIter, s, more) && Exec(csIter, s, more) == s'
  {
    var two := RunOfTwo(csIter, Exec(csIter, s, acts), a, b, s');
    RunsAppend(csIter, s, acts, two);
    more := acts + two;
  }

  /** Without the lock an update is lost: two threads, one increment each. */
  lemma UnlockedUpdateLost() returns (acts: seq<Action>)
    ensures Runs(1, Init(2, 1), acts) && Finished(Exec(1, Init(2, 1), acts))
    ensures Exec(1, Init(2, 1), acts).counter == 1 != ExpectedCount(2, 1, 1)
  {
    var s := Init(2, 1);
    var s1 := State(0, [Thread(Inside, 1, 1, 0), Thread(Inside, 1, 1, 0)]);
    var s2 := State(0, [Thread(Loaded, 1, 1, 0), Thread(Loaded, 1, 1, 0)]);
    var s3 := State(1, [Thread(Inside, 1, 0, 0), Thread(Inside, 1, 0, 0)]);
    acts := RunOfTwo(1, s, Lock(0), Lock(1), s1);
    acts := AppendTwo(1, s, acts, Load(0), Load(1), s2);
    acts := AppendTwo(1, s, acts, Store(0), Store(1), s3);
    acts := AppendTwo(1, s, acts, Unlock(0), Unlock(1), State(1, [Thread(Outside, 0, 0, 0), Thread(Outside, 0, 0, 0)]));
  }

  // ----- the loop of the critical section ---------------------------------------------

  /** The shared counter, a uint64_t. */
  class Counter {
    var count: nat

    /** The loop over cs_iter. Run by the holder it is the run of loads and stores of
        the machine above, and adds cs_iter modulo 2^64. */
    method Work(csIter: u32, t: nat, ghost s: State) returns (ghost acts: seq<Action>)
      requires count < U64 && s.counter == count
      requires t < |s.threads| && s.threads[t].pc == Inside && s.threads[t].cs == csIter
      modifies this
      ensures count == (old(count) + csIter) % U64
      ensures Runs(csIter, s, acts) && Trace(acts) == []
      ensures Exec(csIter, s, acts).counter == count
      ensures Enabled(Exec(csIter, s, acts), Unlock(t)) <==> s.threads[t].outer > 0
    {
      var i := csIter;
      acts := [];
      ghost var now := s;
      MultipleMod(0, count, U64);
      while i != 0
        invariant 0 <= i <= csIter
        invariant count < U64 && count == (old(count) + (csIter - i)) % U64
        invariant Runs(csIter, s, acts) && Exec(csIter, s, acts) == now && Trace(acts) == []
        invariant now.counter == count && |now.threads| == |s.threads|
        invariant now.threads[t].pc == Inside && now.threads[t].cs == i && now.threads[t].outer == s.threads[t].outer
      {
        ghost var mid := Next(csIter, now, Load(t));
        ghost var after := Next(csIter, mid, Store(t));
        WrapSucc(old(count) + (csIter - i), U64);
        SilentPair(acts, Load(t), Store(t));
        acts := AppendTwo(csIter, s, acts, Load(t), Store(t), after);
        count := (count + 1) % U64;
        now := after;
        i := i - 1;
      }
    }
  }

  lemma {:induction false} SilentPair(acts: seq<Action>, a: Action, b: Action)
    requires Trace(acts) == [] && Emit(a) == [] && Emit(b) == []
    ensures Trace(acts + [a, b]) == []
    decreases acts
  {
    if acts == [] {
      assert acts + [a, b] == [a, b] && [a, b][1..] == [b] && [b][1..] == [];
      assert Trace([b]) == Emit(b) + Trace([]);
    } else {
      assert (acts + [a, b])[1..] == acts[1..] + [a, b];
      SilentPair(acts[1..], a, b);
    }
  }
}
