/** The benchmark kernel in which the threads share total_iter increments of the counter
    and each takes cs_iter of them whenever it holds the lock, over any lock that
    implements Mutex. A thread leaves when it finds the counter equal to total_iter. */
module BenchTotal {
  import opened Basics
  import M = Mutex

  datatype Pc = Outside | Check | Inside | Loaded | Leaving | Done

  /** cs counts the increments still to do in this critical section. */
  datatype Thread = Thread(pc: Pc, cs: nat, tmp: nat)

  datatype State = State(counter: nat, threads: seq<Thread>)

  datatype Work = Work(total: nat, csIter: nat)

  datatype Action = Lock(t: nat) | Look(t: nat) | Load(t: nat) | Store(t: nat) | Unlock(t: nat)

  function Init(threads: nat): State {
    State(0, seq(threads, _ => Thread(Outside, 0, 0)))
  }

  predicate Enabled(s: State, a: Action) {
    && a.t < |s.threads|
    && var th := s.threads[a.t];
       match a
       case Lock(_) => th.pc == Outside
       case Look(_) => th.pc == Check
       case Load(_) => th.pc == Inside && th.cs > 0
       case Store(_) => th.pc == Loaded && th.cs > 0
       case Unlock(_) => th.pc == Leaving || (th.pc == Inside && th.cs == 0)
  }

  function Step(w: Work, counter: nat, th: Thread, a: Action): (th': Thread)
    requires a.Store? ==> th.cs > 0
  {
    match a
    case Lock(_) => th.(pc := Check)
    case Look(_) => if counter == w.total then th.(pc := Leaving) else th.(pc := Inside, cs := w.csIter)
    case Load(_) => th.(pc := Loaded, tmp := counter)
    case Store(_) => th.(pc := Inside, cs := th.cs - 1)
    case Unlock(_) => th.(pc := if th.pc == Leaving then Done else Outside)
  }

  function Next(w: Work, s: State, a: Action): State
    requires Enabled(s, a)
  {
    var th := s.threads[a.t];
    State(if a.Store? then (th.tmp + 1) % U64 else s.counter, s.threads[a.t := Step(w, s.counter, th, a)])
  }

  function Emit(a: Action): seq<M.Event> {
    match a
    case Lock(t) => [M.Acquire(t)]
    case Unlock(t) => [M.Release(t)]
    case _ => []
  }

  /** What the run asks of the lock. */
  function Trace(acts: seq<Action>): seq<M.Event> {
    if acts == [] then [] else Emit(acts[0]) + Trace(acts[1..])
  }

  predicate Runs(w: Work, s: State, acts: seq<Action>)
    decreases acts
  {
    acts == [] || (Enabled(s, acts[0]) && Runs(w, Next(w, s, acts[0]), acts[1..]))
  }

  function Exec(w: Work, s: State, acts: seq<Action>): State
    requires Runs(w, s, acts)
    decreases acts
  {
    if acts == [] then s else Exec(w, Next(w, s, acts[0]), acts[1..])
  }

  /** A run of n threads that a lock with the histories of a mutex allows. */
  predicate Allowed(w: Work, threads: nat, acts: seq<Action>) {
    Runs(w, Init(threads), acts) && M.Legal(None, Trace(acts))
  }

  // ----- the books ------------------------------------------------------------------

  predicate Multiple(x: nat, of: nat) {
    if of == 0 then x == 0 else x % of == 0
  }

  /** The counter can meet the total at a lock boundary. */
  predicate Fits(w: Work) {
    Multiple(w.total, w.csIter)
  }

  predicate Working(pc: Pc) {
    pc in {Inside, Loaded}
  }

  predicate Holds(pc: Pc) {
    pc in {Check, Inside, Loaded, Leaving}
  }

  predicate Exits(pc: Pc) {
    pc in {Leaving, Done}
  }

  /** What the counter will be at the next lock boundary. */
  function Target(s: State, holder: Option<nat>): nat {
    if holder.Some? && holder.value < |s.threads| && Working(s.threads[holder.value].pc)
    then s.counter + s.threads[holder.value].cs
    else s.counter
  }

  ghost predicate ThreadInv(w: Work, s: State, holder: Option<nat>, t: nat)
    requires t < |s.threads|
  {
    var th := s.threads[t];
    && (Holds(th.pc) <==> holder == Some(t))
    && (Working(th.pc) ==> th.cs <= w.csIter && 0 < w.csIter + w.total)
    && (th.pc == Loaded ==> th.tmp == s.counter && th.cs > 0)
    && (Exits(th.pc) ==> Fits(w) && s.counter == w.total)
  }

  ghost predicate Inv(w: Work, s: State, holder: Option<nat>) {
    && (forall t :: 0 <= t < |s.threads| ==> ThreadInv(w, s, holder, t))
    && Multiple(Target(s, holder), w.csIter)
    && (Fits(w) ==> Target(s, holder) <= w.total)
  }

  lemma InitInv(w: Work, threads: nat)
    ensures Inv(w, Init(threads), None)
  {
  }

  /** One more critical section's work keeps a multiple a multiple, and below a larger
      multiple it does not pass it. */
  lemma NextMultiple(x: nat, total: nat, cs: nat)
    requires Multiple(x, cs)
    ensures Multiple(x + cs, cs)
    ensures Multiple(total, cs) && x < total ==> x + cs <= total
  {
    if cs > 0 {
      var i := x / cs;
      assert x == i * cs + 0;
      assert x + cs == (i + 1) * cs + 0;
      MultipleMod(i + 1, 0, cs);
      if total % cs == 0 && x < total {
        var j := total / cs;
        assert total == j * cs && (j - i) * cs == j * cs - i * cs;
        MultipleGrows(j - i, cs);
      }
    }
  }

  lemma LookInv(w: Work, s: State, holder: Option<nat>, t: nat)
    requires Inv(w, s, holder) && Enabled(s, Look(t))
    ensures Inv(w, Next(w, s, Look(t)), holder)
  {
    assert ThreadInv(w, s, holder, t);
    NextMultiple(s.counter, w.total, w.csIter);
    forall u | 0 <= u < |s.threads|
      ensures ThreadInv(w, Next(w, s, Look(t)), holder, u)
    {
      assert ThreadInv(w, s, holder, u);
    }
  }

  lemma StoreInv(w: Work, s: State, holder: Option<nat>, t: nat)
    requires Inv(w, s, holder) && Enabled(s, Store(t)) && s.counter + 1 < U64
    ensures Inv(w, Next(w, s, Store(t)), holder)
    ensures Next(w, s, Store(t)).counter == s.counter + 1
  {
    assert ThreadInv(w, s, holder, t);
    MultipleMod(0, s.counter + 1, U64);
    forall u | 0 <= u < |s.threads|
      ensures ThreadInv(w, Next(w, s, Store(t)), holder, u)
    {
      assert ThreadInv(w, s, holder, u);
    }
  }

  /** The counter is not about to wrap: because it stays below the total, or because
      the run is short. */
  predicate NoWrap(w: Work, s: State, steps: nat) {
    w.total < U64 && (Fits(w) || s.counter + steps < U64)
  }

  lemma StepInv(w: Work, s: State, holder: Option<nat>, a: Action, steps: nat)
    requires Inv(w, s, holder) && Enabled(s, a) && M.Legal(holder, Emit(a)) && NoWrap(w, s, steps + 1)
    ensures Inv(w, Next(w, s, a), M.HolderAfter(holder, Emit(a)))
    ensures Next(w, s, a).counter == s.counter + (if a.Store? then 1 else 0)
    ensures NoWrap(w, Next(w, s, a), steps)
  {
    var s', holder' := Next(w, s, a), M.HolderAfter(holder, Emit(a));
    assert ThreadInv(w, s, holder, a.t);
    if a.Store? {
      StoreInv(w, s, holder, a.t);
    } else if a.Look? {
      LookInv(w, s, holder, a.t);
    } else {
      forall t | 0 <= t < |s'.threads|
        ensures ThreadInv(w, s', holder', t)
      {
        assert ThreadInv(w, s, holder, t);
      }
    }
  }

  lemma {:induction false} RunInv(w: Work, s: State, holder: Option<nat>, acts: seq<Action>)
    requires Inv(w, s, holder) && Runs(w, s, acts) && M.Legal(holder, Trace(acts)) && NoWrap(w, s, |acts|)
    ensures Inv(w, Exec(w, s, acts), M.HolderAfter(holder, Trace(acts)))
    ensures |Exec(w, s, acts).threads| == |s.threads|
    decreases acts
  {
    if acts != [] {
      M.LegalSplit(holder, Emit(acts[0]), Trace(acts[1..]));
      StepInv(w, s, holder, acts[0], |acts| - 1);
      RunInv(w, Next(w, s, acts[0]), M.HolderAfter(holder, Emit(acts[0])), acts[1..]);
      M.LegalConcat(holder, Emit(acts[0]), Trace(acts[1..]));
    }
  }

  /** At every lock boundary the counter is a multiple of cs_iter and at most the total,
      and a thread that has left did so at the total. */
  lemma BoundaryCount(w: Work, threads: nat, acts: seq<Action>)
    requires Fits(w) && w.total < U32 && Allowed(w, threads, acts)
    ensures var s := Exec(w, Init(threads), acts);
            && (M.HolderAfter(None, Trace(acts)) == None ==> Multiple(s.counter, w.csIter))
            && s.counter <= w.total
            && forall t :: 0 <= t < |s.threads| && Exits(s.threads[t].pc) ==> s.counter == w.total
  {
    InitInv(w, threads);
    RunInv(w, Init(threads), None, acts);
    var s, holder := Exec(w, Init(threads), acts), M.HolderAfter(None, Trace(acts));
    forall t | 0 <= t < |s.threads| && Exits(s.threads[t].pc)
      ensures s.counter == w.total
    {
      assert ThreadInv(w, s, holder, t);
    }
  }

  // ----- the benchmark ends ------------------------------------------------------------

  /** Steps a thread has still to pay for by itself; an increment pays for five. */
  function Weight(w: Work, th: Thread): nat {
    match th.pc
    case Outside => 3
    case Check => 2
    case Inside => if th.cs < w.csIter then 4 else 1
    case Loaded => if th.cs < w.csIter then 3 else 0
    case Leaving => 1
    case Done => 0
  }

  function Weights(w: Work, threads: seq<Thread>): nat {
    if threads == [] then 0 else Weight(w, threads[0]) + Weights(w, threads[1..])
  }

  lemma {:induction false} WeightsUpdate(w: Work, threads: seq<Thread>, t: nat, th: Thread)
    requires t < |threads|
    ensures Weights(w, threads[t := th]) == Weights(w, threads) - Weight(w, threads[t]) + Weight(w, th)
    decreases threads
  {
    if t == 0 {
      assert threads[t := th][1..] == threads[1..];
    } else {
      assert threads[t := th][1..] == threads[1..][t - 1 := th];
      WeightsUpdate(w, threads[1..], t - 1, th);
    }
  }

  lemma {:induction false} InitWeights(w: Work, threads: nat)
    ensures Weights(w, Init(threads).threads) == 3 * threads
  {
    if threads > 0 {
      InitWeights(w, threads - 1);
      assert Init(threads).threads[1..] == Init(threads - 1).threads;
    }
  }

  function Potential(w: Work, s: State): int {
    5 * (w.total - s.counter) + Weights(w, s.threads)
  }

  lemma PotentialFalls(w: Work, s: State, holder: Option<nat>, a: Action)
    requires Fits(w) && Inv(w, s, holder) && Enabled(s, a) && M.Legal(holder, Emit(a)) && w.total < U64
    ensures Potential(w, Next(w, s, a)) < Potential(w, s)
  {
    assert ThreadInv(w, s, holder, a.t);
    StepInv(w, s, holder, a, 0);
    WeightsUpdate(w, s.threads, a.t, Next(w, s, a).threads[a.t]);
  }

  lemma {:induction false} RunPotential(w: Work, s: State, holder: Option<nat>, acts: seq<Action>)
    requires Fits(w) && Inv(w, s, holder) && Runs(w, s, acts) && M.Legal(holder, Trace(acts)) && w.total < U64
    ensures |acts| + Potential(w, Exec(w, s, acts)) <= Potential(w, s)
    decreases acts
  {
    if acts != [] {
      M.LegalSplit(holder, Emit(acts[0]), Trace(acts[1..]));
      StepInv(w, s, holder, acts[0], 0);
      PotentialFalls(w, s, holder, acts[0]);
      RunPotential(w, Next(w, s, acts[0]), M.HolderAfter(holder, Emit(acts[0])), acts[1..]);
    }
  }

  /** No schedule takes more than 5 * total + 3 * threads steps. */
  lemma RunsAreBounded(w: Work, threads: nat, acts: seq<Action>)
    requires Fits(w) && w.total < U32 && Allowed(w, threads, acts)
    ensures |acts| <= 5 * w.total + 3 * threads
  {
    InitInv(w, threads);
    InitWeights(w, threads);
    RunInv(w, Init(threads), None, acts);
    RunPotential(w, Init(threads), None, acts);
  }

  predicate Finished(s: State) {
    forall t :: 0 <= t < |s.threads| ==> s.threads[t].pc == Done
  }

  lemma {:induction false} AppendStep(w: Work, s: State, holder: Option<nat>, acts: seq<Action>, a: Action)
    requires Runs(w, s, acts) && Enabled(Exec(w, s, acts), a)
    requires M.Legal(holder, Trace(acts)) && M.Legal(M.HolderAfter(holder, Trace(acts)), Emit(a))
    ensures Runs(w, s, acts + [a]) && Exec(w, s, acts + [a]) == Next(w, Exec(w, s, acts), a)
    ensures M.Legal(holder, Trace(acts + [a]))
    decreases acts
  {
    if acts == [] {
      assert acts + [a] == [a] && [a][1..] == [];
      assert Trace([a]) == Emit(a);
    } else {
      assert (acts + [a])[1..] == acts[1..] + [a];
      M.LegalSplit(holder, Emit(acts[0]), Trace(acts[1..]));
      M.LegalConcat(holder, Emit(acts[0]), Trace(acts[1..]));
      AppendStep(w, Next(w, s, acts[0]), M.HolderAfter(holder, Emit(acts[0])), acts[1..], a);
      M.LegalConcat(holder, Emit(acts[0]), Trace(acts[1..] + [a]));
    }
  }

  /** While a thread has not left, the lock's holder or any waiting thread can step. */
  lemma CanGoOn(w: Work, s: State, holder: Option<nat>) returns (a: Action)
    requires Inv(w, s, holder) && !Finished(s)
    requires holder.Some? ==> holder.value < |s.threads|
    ensures Enabled(s, a) && M.Legal(holder, Emit(a))
  {
    if holder.Some? {
      var t := holder.value;
      var th := s.threads[t];
      assert ThreadInv(w, s, holder, t);
      a := if th.pc == Check then Look(t) else if th.pc == Loaded then Store(t)
           else if th.pc == Inside && th.cs > 0 then Load(t) else Unlock(t);
    } else {
      var t :| 0 <= t < |s.threads| && s.threads[t].pc != Done;
      assert ThreadInv(w, s, holder, t);
      a := Lock(t);
    }
  }

  /** An acquisition is made by one of the threads. */
  lemma {:induction false} HolderIsThread(w: Work, s: State, holder: Option<nat>, acts: seq<Action>)
    requires Runs(w, s, acts) && (holder.Some? ==> holder.value < |s.threads|)
    ensures M.HolderAfter(holder, Trace(acts)).Some? ==> M.HolderAfter(holder, Trace(acts)).value < |s.threads|
    decreases acts
  {
    if acts != [] {
      var now, later := Emit(acts[0]), Trace(acts[1..]);
      HolderIsThread(w, Next(w, s, acts[0]), M.HolderAfter(holder, now), acts[1..]);
      assert later == [] ==> Trace(acts) == now;
    }
  }

  /** Every unfinished run can be continued, and one that cannot is finished with the
      counter at the total: whatever the schedule, the benchmark ends with the expected
      count. */
  lemma TotalWorkCompletes(w: Work, threads: nat, acts: seq<Action>)
    requires Fits(w) && w.total < U32 && Allowed(w, threads, acts)
    ensures !Finished(Exec(w, Init(threads), acts)) ==> exists a :: Allowed(w, threads, acts + [a])
    ensures Finished(Exec(w, Init(threads), acts)) && threads > 0 ==>
              Exec(w, Init(threads), acts).counter == w.total
  {
    InitInv(w, threads);
    RunInv(w, Init(threads), None, acts);
    HolderIsThread(w, Init(threads), None, acts);
    var s, holder := Exec(w, Init(threads), acts), M.HolderAfter(None, Trace(acts));
    if !Finished(s) {
      var a := CanGoOn(w, s, holder);
      AppendStep(w, Init(threads), None, acts, a);
      assert Allowed(w, threads, acts + [a]);
    } else if threads > 0 {
      assert ThreadInv(w, s, holder, 0);
    }
  }

  /** If cs_iter does not divide the total the counter steps over it and no thread leaves,
      in any run too short to wrap the 64-bit counter. */
  lemma NobodyLeaves(w: Work, threads: nat, acts: seq<Action>, t: nat)
    requires !Fits(w) && w.total < U32 && Allowed(w, threads, acts) && |acts| < U64 && t < threads
    ensures |Exec(w, Init(threads), acts).threads| == threads
    ensures !Exits(Exec(w, Init(threads), acts).threads[t].pc)
  {
    InitInv(w, threads);
    RunInv(w, Init(threads), None, acts);
    assert ThreadInv(w, Exec(w, Init(threads), acts), M.HolderAfter(None, Trace(acts)), t);
  }

  /** A finished run that continues the given one. */
  lemma {:induction false} Complete(w: Work, threads: nat, acts: seq<Action>) returns (all: seq<Action>)
    requires Fits(w) && w.total < U32 && Allowed(w, threads, acts)
    ensures Allowed(w, threads, all) && Finished(Exec(w, Init(threads), all))
    decreases 5 * w.total + 3 * threads - |acts|
  {
    RunsAreBounded(w, threads, acts);
    TotalWorkCompletes(w, threads, acts);
    if Finished(Exec(w, Init(threads), acts)) {
      all := acts;
    } else {
      var a :| Allowed(w, threads, acts + [a]);
      RunsAreBounded(w, threads, acts + [a]);
      all := Complete(w, threads, acts + [a]);
    }
  }

  /** The benchmark can finish exactly when cs_iter divides the total. */
  lemma FinishesExactlyWhenItFits(w: Work, threads: nat)
    requires w.total < U32 && 0 < threads < U32
    ensures (exists acts :: Allowed(w, threads, acts) && |acts| < U64 && Finished(Exec(w, Init(threads), acts)))
            <==> Fits(w)
  {
    if Fits(w) {
      var acts := Complete(w, threads, []);
      RunsAreBounded(w, threads, acts);
    } else {
      forall acts | Allowed(w, threads, acts) && |acts| < U64
        ensures !Finished(Exec(w, Init(threads), acts))
      {
        NobodyLeaves(w, threads, acts, 0);
      }
    }
  }
}
