/** The total-work benchmark without a limit on the length of a run: the 64-bit counter
    may wrap, and meets the total at a lock boundary exactly if the power of two in
    cs_iter divides the total. */
module BenchWrap {
  import opened Basics
  import M = Mutex
  import opened BenchTotal

  // ----- powers of two ---------------------------------------------------------------

  function Pow2(n: nat): (p: nat)
    ensures p > 0
  {
    if n == 0 then 1 else 2 * Pow2(n - 1)
  }

  /** How often c can be halved. */
  function Twos(c: nat): nat
    requires 0 < c
  {
    if c % 2 == 1 then 0 else 1 + Twos(c / 2)
  }

  /** The greatest power of two that divides c. */
  function TwoPart(c: nat): nat
    requires 0 < c
  {
    Pow2(Twos(c))
  }

  lemma Doubled(x: nat, y: nat)
    ensures 2 * (x * y) == (2 * x) * y
  {
  }

  lemma {:induction false} OddPart(c: nat) returns (odd: nat)
    requires 0 < c
    ensures odd % 2 == 1 && c == TwoPart(c) * odd
  {
    if c % 2 == 1 {
      odd := c;
    } else {
      odd := OddPart(c / 2);
      assert c == 2 * (c / 2);
      Doubled(Pow2(Twos(c / 2)), odd);
    }
  }

  lemma {:induction false} Pow2Split(a: nat, b: nat)
    ensures Pow2(a + b) == Pow2(a) * Pow2(b)
  {
    if a > 0 {
      Pow2Split(a - 1, b);
      Doubled(Pow2(a - 1), Pow2(b));
      assert Pow2(a + b) == 2 * Pow2(a - 1 + b);
    }
  }

  lemma Pow2Double(n: nat, p: nat)
    requires p == Pow2(n)
    ensures Pow2(n + n) == p * p
  {
    Pow2Split(n, n);
  }

  /** 2^64, in steps small enough to compute. */
  lemma Pow2Of64()
    ensures Pow2(64) == U64
  {
    var n := 1;
    Pow2Double(n, 2);
    Pow2Double(n + n, 4);
    n := 4;
    Pow2Double(n, 16);
    Pow2Double(n + n, 256);
    n := 16;
    Pow2Double(n, 65536);
    Pow2Double(n + n, U32);
  }

  lemma {:induction false} TwosBelow(c: nat, n: nat)
    requires 0 < c < Pow2(n)
    ensures Twos(c) < n
  {
    if c % 2 == 0 {
      assert c / 2 < Pow2(n - 1);
      TwosBelow(c / 2, n - 1);
    }
  }

  lemma TwoPartDividesU64(c: nat) returns (k: nat)
    requires 0 < c < U64
    ensures U64 == k * TwoPart(c)
  {
    Pow2Of64();
    TwosBelow(c, 64);
    Pow2Split(64 - Twos(c), Twos(c));
    k := Pow2(64 - Twos(c));
  }

  lemma Halves(h: nat, p: nat)
    ensures h * (2 * p) == (2 * h) * p
  {
  }

  lemma Shifted(odd: nat, x: nat, p: nat, q: nat)
    requires odd * x == 1 + q * p
    ensures odd * (x + p) == 1 + (q + odd) * p
  {
    assert odd * (x + p) == odd * x + odd * p;
    assert (q + odd) * p == q * p + odd * p;
  }

  /** An odd number has an inverse modulo every power of two. */
  lemma {:induction false} OddInverse(odd: nat, n: nat) returns (x: nat, q: nat)
    requires odd % 2 == 1
    ensures odd * x == 1 + q * Pow2(n)
  {
    if n == 0 {
      x, q := 1, odd - 1;
      assert odd * 1 == 1 + (odd - 1) * 1;
    } else {
      var y, r := OddInverse(odd, n - 1);
      x, q := EvenInverse(odd, y, r, Pow2(n - 1));
    }
  }

  lemma EvenInverse(odd: nat, y: nat, r: nat, p: nat) returns (x: nat, q: nat)
    requires odd % 2 == 1 && odd * y == 1 + r * p
    ensures odd * x == 1 + q * (2 * p)
  {
    if r % 2 == 1 {
      Shifted(odd, y, p, r);
      x, q := y + p, (r + odd) / 2;
      assert 2 * q == r + odd;
    } else {
      x, q := y, r / 2;
      assert 2 * q == r;
    }
    Halves(q, p);
  }

  lemma Reorder(x: nat, v: nat, p: nat, odd: nat, q: nat, m: nat)
    requires odd * x == 1 + q * m
    ensures (x * v) * (p * odd) == (v * p * q) * m + p * v
  {
    calc {
      (x * v) * (p * odd);
      (v * p) * (odd * x);
      (v * p) * (1 + q * m);
      v * p + (v * p) * (q * m);
      (v * p * q) * m + p * v;
    }
  }

  lemma DivideExactly(x: nat, g: nat)
    requires 0 < g && x % g == 0
    ensures x == g * (x / g)
  {
  }

  /** If the power of two in cs divides the total, some multiple of cs is the total
      modulo 2^64. */
  lemma MultipleMeets(cs: nat, total: nat) returns (n: nat)
    requires 0 < cs && total < U64 && total % TwoPart(cs) == 0
    ensures n * cs % U64 == total
  {
    Pow2Of64();
    n := MultipleOf(cs, total, 64, TwoPart(cs), total / TwoPart(cs));
  }

  lemma MultipleOf(cs: nat, total: nat, k: nat, p: nat, v: nat) returns (n: nat)
    requires 0 < cs && p == TwoPart(cs) && total < Pow2(k) && total % p == 0 && v == total / p
    ensures n * cs % Pow2(k) == total
  {
    var odd := OddPart(cs);
    var m := Pow2(k);
    var x, q := OddInverse(odd, k);
    n := x * v;
    DivideExactly(total, p);
    Reorder(x, v, p, odd, q, m);
    MultipleMod(v * p * q, total, m);
  }

  // ----- if the total is met, the power of two divides it ------------------------------

  /** The step by which the counter moves at lock boundaries, as far as its residue counts. */
  function Grain(w: Work): nat {
    if w.csIter == 0 then 0 else TwoPart(w.csIter)
  }

  predicate Meets(w: Work) {
    Multiple(w.total, Grain(w))
  }

  ghost predicate GrainThread(w: Work, s: State, holder: Option<nat>, t: nat)
    requires t < |s.threads|
  {
    var th := s.threads[t];
    && (Holds(th.pc) <==> holder == Some(t))
    && (th.pc == Loaded ==> th.tmp == s.counter && th.cs > 0)
    && (Exits(th.pc) ==> Meets(w))
  }

  ghost predicate GrainInv(w: Work, s: State, holder: Option<nat>) {
    && (forall t :: 0 <= t < |s.threads| ==> GrainThread(w, s, holder, t))
    && s.counter < U64 && Multiple(Target(s, holder), Grain(w))
  }

  lemma DivideSum(x: int, y: int, g: nat)
    requires 0 < g && x % g == 0 && y % g == 0
    ensures (x + y) % g == 0 && (x - y) % g == 0
  {
    assert x == (x / g) * g && y == (y / g) * g;
    var a, b := x / g, y / g;
    assert x + y == (a + b) * g && x - y == (a - b) * g;
    DividesProduct(a + b, g);
    DividesProduct(a - b, g);
  }

  lemma DividesProduct(k: int, g: nat)
    requires 0 < g
    ensures (k * g) % g == 0
  {
    var r := (k * g) % g;
    var q := (k * g) / g;
    assert k * g == q * g + r;
    assert (k - q) * g == k * g - q * g;
    MultipleGrows(k - q, g);
  }

  /** One critical section more, and one wrap less, keep the grain. */
  lemma GrainKept(w: Work, x: nat)
    requires Multiple(x, Grain(w)) && w.csIter < U64
    ensures Multiple(x + w.csIter, Grain(w))
    ensures w.csIter > 0 && x >= U64 ==> Multiple(x - U64, Grain(w))
  {
    if w.csIter > 0 {
      var g := Grain(w);
      var odd := OddPart(w.csIter);
      var k := TwoPartDividesU64(w.csIter);
      assert w.csIter == odd * g;
      DividesProduct(odd, g);
      DividesProduct(k, g);
      DivideSum(x, w.csIter, g);
      DivideSum(x, U64, g);
    }
  }

  lemma GrainLook(w: Work, s: State, holder: Option<nat>, t: nat)
    requires GrainInv(w, s, holder) && Enabled(s, Look(t)) && w.csIter < U64
    ensures GrainInv(w, Next(w, s, Look(t)), holder)
  {
    assert GrainThread(w, s, holder, t);
    GrainKept(w, s.counter);
    forall u | 0 <= u < |s.threads|
      ensures GrainThread(w, Next(w, s, Look(t)), holder, u)
    {
      assert GrainThread(w, s, holder, u);
    }
  }

  lemma CounterUp(x: nat)
    requires x < U64
    ensures (x + 1) % U64 == if x + 1 < U64 then x + 1 else 0
  {
  }

  lemma GrainStore(w: Work, s: State, holder: Option<nat>, t: nat)
    requires GrainInv(w, s, holder) && Enabled(s, Store(t)) && w.csIter < U64
    ensures GrainInv(w, Next(w, s, Store(t)), holder)
  {
    assert GrainThread(w, s, holder, t);
    CounterUp(s.counter);
    GrainKept(w, Target(s, holder));
    forall u | 0 <= u < |s.threads|
      ensures GrainThread(w, Next(w, s, Store(t)), holder, u)
    {
      assert GrainThread(w, s, holder, u);
    }
  }

  lemma GrainStep(w: Work, s: State, holder: Option<nat>, a: Action)
    requires GrainInv(w, s, holder) && Enabled(s, a) && M.Legal(holder, Emit(a)) && w.csIter < U64
    ensures GrainInv(w, Next(w, s, a), M.HolderAfter(holder, Emit(a)))
  {
    var s', holder' := Next(w, s, a), M.HolderAfter(holder, Emit(a));
    assert GrainThread(w, s, holder, a.t);
    if a.Store? {
      GrainStore(w, s, holder, a.t);
    } else if a.Look? {
      GrainLook(w, s, holder, a.t);
    } else {
      forall t | 0 <= t < |s'.threads|
        ensures GrainThread(w, s', holder', t)
      {
        assert GrainThread(w, s, holder, t);
      }
    }
  }

  lemma {:induction false} GrainRun(w: Work, s: State, holder: Option<nat>, acts: seq<Action>)
    requires GrainInv(w, s, holder) && Runs(w, s, acts) && M.Legal(holder, Trace(acts)) && w.csIter < U64
    ensures GrainInv(w, Exec(w, s, acts), M.HolderAfter(holder, Trace(acts)))
    ensures |Exec(w, s, acts).threads| == |s.threads|
    decreases acts
  {
    if acts != [] {
      M.LegalSplit(holder, Emit(acts[0]), Trace(acts[1..]));
      GrainStep(w, s, holder, acts[0]);
      GrainRun(w, Next(w, s, acts[0]), M.HolderAfter(holder, Emit(acts[0])), acts[1..]);
      M.LegalConcat(holder, Emit(acts[0]), Trace(acts[1..]));
    }
  }

  /** A thread that leaves, in a run of any length, proves that the total is met. */
  lemma LeavingMeets(w: Work, threads: nat, acts: seq<Action>, t: nat)
    requires w.csIter < U32 && Allowed(w, threads, acts) && t < threads
    ensures |Exec(w, Init(threads), acts).threads| == threads
    ensures Exits(Exec(w, Init(threads), acts).threads[t].pc) ==> Meets(w)
  {
    assert Multiple(0, Grain(w));
    GrainRun(w, Init(threads), None, acts);
    assert GrainThread(w, Exec(w, Init(threads), acts), M.HolderAfter(None, Trace(acts)), t);
  }

  // ----- if the power of two divides the total, a run meets it --------------------------

  /** acts are an allowed run that ends in s with the lock held by holder. Stated through the
      length of acts, so that a proof that only passes the fact on does not unroll the run. */
  ghost predicate Leads(w: Work, threads: nat, acts: seq<Action>, s: State, holder: Option<nat>) {
    forall n :: IsLength(acts, n) ==>
      && Allowed(w, threads, acts) && Exec(w, Init(threads), acts) == s
      && M.HolderAfter(None, Trace(acts)) == holder
  }

  lemma Go(w: Work, threads: nat, acts: seq<Action>, s: State, holder: Option<nat>, a: Action)
    returns (more: seq<Action>, s': State, holder': Option<nat>)
    requires Leads(w, threads, acts, s, holder) && Enabled(s, a) && M.Legal(holder, Emit(a))
    ensures s' == Next(w, s, a) && holder' == M.HolderAfter(holder, Emit(a))
    ensures Leads(w, threads, more, s', holder')
  {
    more, s', holder' := acts + [a], Next(w, s, a), M.HolderAfter(holder, Emit(a));
    assert IsLength(acts, |acts|);
    AppendStep(w, Init(threads), None, acts, a);
    TraceAppend(acts, a);
    M.LegalConcat(None, Trace(acts), Emit(a));
  }

  lemma {:induction false} TraceAppend(acts: seq<Action>, a: Action)
    ensures Trace(acts + [a]) == Trace(acts) + Emit(a)
  {
    if acts == [] {
      assert acts + [a] == [a] && [a][1..] == [];
      assert Trace([a]) == Emit(a) + Trace([]);
    } else {
      assert (acts + [a])[1..] == acts[1..] + [a];
      TraceAppend(acts[1..], a);
      assert Emit(acts[0]) + (Trace(acts[1..]) + Emit(a)) == (Emit(acts[0]) + Trace(acts[1..])) + Emit(a);
    }
  }

  /** The first n threads have left, the others wait outside, and the counter is c. */
  ghost predicate AtRest(s: State, threads: nat, n: nat, c: nat) {
    && |s.threads| == threads && s.counter == c
    && forall t :: 0 <= t < threads ==> s.threads[t].pc == if t < n then Done else Outside
  }

  /** Thread 0 has r increments to do, the others wait outside. */
  ghost predicate AtWork(s: State, threads: nat, r: nat, c: nat) {
    && |s.threads| == threads > 0 && s.counter == c
    && s.threads[0].pc == Inside && s.threads[0].cs == r
    && forall t :: 0 < t < threads ==> s.threads[t].pc == Outside
  }

  lemma {:induction false} WorkRun(w: Work, threads: nat, acts: seq<Action>, s: State, r: nat, c: nat)
    returns (more: seq<Action>, s': State)
    requires Leads(w, threads, acts, s, Some(0)) && AtWork(s, threads, r, c) && c < U64
    ensures Leads(w, threads, more, s', Some(0)) && AtWork(s', threads, 0, (c + r) % U64)
    decreases r
  {
    more, s' := acts, s;
    if r == 0 {
      MultipleMod(0, c, U64);
    } else {
      var holder;
      more, s', holder := Go(w, threads, more, s', Some(0), Load(0));
      more, s', holder := Go(w, threads, more, s', Some(0), Store(0));
      WrapSum(c, r);
      more, s' := WorkRun(w, threads, more, s', r - 1, (c + 1) % U64);
    }
  }

  lemma WrapSum(c: nat, r: nat)
    requires 0 < r
    ensures ((c + 1) % U64 + (r - 1)) % U64 == (c + r) % U64
  {
    var q, b := (c + 1) / U64, (c + 1) % U64;
    var k, e := (b + (r - 1)) / U64, (b + (r - 1)) % U64;
    assert c + 1 == q * U64 + b && b + (r - 1) == k * U64 + e;
    assert c + r == (q + k) * U64 + e;
    MultipleMod(q + k, e, U64);
  }

  /** Thread 0 passes through the loop once. */
  lemma RoundRun(w: Work, threads: nat, acts: seq<Action>, s: State, c: nat) returns (more: seq<Action>, s': State)
    requires Leads(w, threads, acts, s, None) && AtRest(s, threads, 0, c) && 0 < threads && c < U64 && c != w.total
    ensures Leads(w, threads, more, s', None) && AtRest(s', threads, 0, (c + w.csIter) % U64)
  {
    var holder;
    more, s', holder := Go(w, threads, acts, s, None, Lock(0));
    more, s', holder := Go(w, threads, more, s', Some(0), Look(0));
    more, s' := WorkRun(w, threads, more, s', w.csIter, c);
    more, s', holder := Go(w, threads, more, s', Some(0), Unlock(0));
  }

  lemma NextRound(k: nat, cs: nat)
    ensures (k * cs % U64 + cs) % U64 == (k + 1) * cs % U64
  {
    var x := k * cs;
    var q, b := x / U64, x % U64;
    var j, e := (b + cs) / U64, (b + cs) % U64;
    assert x == q * U64 + b && b + cs == j * U64 + e;
    assert (k + 1) * cs == x + cs == (q + j) * U64 + e;
    MultipleMod(q + j, e, U64);
  }

  /** The first round in which the counter meets the total. */
  lemma {:induction false} FirstMeeting(w: Work, n: nat) returns (k: nat)
    requires n * w.csIter % U64 == w.total
    ensures k * w.csIter % U64 == w.total
    ensures forall j: nat :: j < k ==> j * w.csIter % U64 != w.total
    decreases n
  {
    if j: nat :| j < n && j * w.csIter % U64 == w.total {
      k := FirstMeeting(w, j);
    } else {
      k := n;
    }
  }

  lemma {:induction false} RoundsRun(w: Work, threads: nat, k: nat) returns (acts: seq<Action>, s: State)
    requires 0 < threads && forall j: nat :: j < k ==> j * w.csIter % U64 != w.total
    ensures Leads(w, threads, acts, s, None) && AtRest(s, threads, 0, k * w.csIter % U64)
  {
    if k == 0 {
      acts, s := [], Init(threads);
    } else {
      acts, s := RoundsRun(w, threads, k - 1);
      NextRound(k - 1, w.csIter);
      acts, s := RoundRun(w, threads, acts, s, (k - 1) * w.csIter % U64);
    }
  }

  /** Once the counter is at the total, every thread leaves. */
  lemma {:induction false} LeaveRun(w: Work, threads: nat, acts: seq<Action>, s: State, n: nat)
    returns (more: seq<Action>, s': State)
    requires Leads(w, threads, acts, s, None) && n <= threads && AtRest(s, threads, n, w.total)
    ensures Leads(w, threads, more, s', None) && AtRest(s', threads, threads, w.total)
    decreases threads - n
  {
    more, s' := acts, s;
    if n < threads {
      var holder;
      more, s', holder := Go(w, threads, more, s', None, Lock(n));
      more, s', holder := Go(w, threads, more, s', Some(n), Look(n));
      more, s', holder := Go(w, threads, more, s', Some(n), Unlock(n));
      more, s' := LeaveRun(w, threads, more, s', n + 1);
    }
  }

  lemma MeetingRun(w: Work, threads: nat, n: nat) returns (acts: seq<Action>)
    requires 0 < threads && n * w.csIter % U64 == w.total
    ensures Allowed(w, threads, acts) && Finished(Exec(w, Init(threads), acts))
  {
    var k := FirstMeeting(w, n);
    var s;
    acts, s := RoundsRun(w, threads, k);
    acts, s := LeaveRun(w, threads, acts, s, 0);
    assert IsLength(acts, |acts|);
  }

  // ----- the exact condition ---------------------------------------------------------------

  /** Some run of the benchmark, however long, finishes exactly if the power of two in
      cs_iter divides the total; or the total is zero if cs_iter is. */
  lemma CanFinishExactly(w: Work, threads: nat)
    requires w.total < U32 && w.csIter < U32 && 0 < threads
    ensures (exists acts :: Allowed(w, threads, acts) && Finished(Exec(w, Init(threads), acts))) <==>
            if w.csIter == 0 then w.total == 0 else w.total % TwoPart(w.csIter) == 0
  {
    if Meets(w) {
      var n := 0;
      if w.csIter > 0 {
        n := MultipleMeets(w.csIter, w.total);
      }
      var acts := MeetingRun(w, threads, n);
    } else {
      forall acts | Allowed(w, threads, acts)
        ensures !Finished(Exec(w, Init(threads), acts))
      {
        LeavingMeets(w, threads, acts, 0);
      }
    }
  }

  /** A total of two in critical sections of three is met after the counter has wrapped. */
  lemma MeetsAfterWrap(threads: nat) returns (acts: seq<Action>)
    requires 0 < threads
    ensures !Fits(Work(2, 3))
    ensures Allowed(Work(2, 3), threads, acts) && Finished(Exec(Work(2, 3), Init(threads), acts))
  {
    assert Twos(3) == 0 && TwoPart(3) == 1;
    var n := MultipleMeets(3, 2);
    acts := MeetingRun(Work(2, 3), threads, n);
  }
}
