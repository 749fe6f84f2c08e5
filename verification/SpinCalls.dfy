/** What tells trylock from lock, and how often lock tries before it waits otherwise. */
module SpinCalls {
  import opened Basics
  import opened SpinSpec
  import opened SpinInv
  import opened SpinTheorems

  // ----- calls ---------------------------------------------------------------------------

  /** A trylock that has not returned is at its load or at its exchange. */
  predicate CallOf(th: Thread) {
    th.tryOnly && Contends(th.pc) ==> th.phase == First && th.pc in {LoadMem, Exchange}
  }

  ghost predicate CallInv(s: State) {
    forall t :: 0 <= t < |s.threads| ==> CallOf(s.threads[t])
  }

  predicate InTrylock(s: State, t: nat) {
    t < |s.threads| && s.threads[t].tryOnly && s.threads[t].pc in {LoadMem, Exchange}
  }

  /** The answer of the next access of a trylock: if the word is locked the call is over and
      nothing but the thread's place has changed; if it is free, the load goes on to the
      exchange and the exchange acquires the lock. */
  ghost predicate Answers(c: Config, s: State, t: nat)
    requires t < |s.threads|
  {
    var th, s' := s.threads[t], NextStep(c, s, t);
    if s.mem == c.locked then s' == s.(threads := s.threads[t := th.(pc := Idle)])
    else if th.pc == LoadMem then s' == s.(threads := s.threads[t := th.(pc := Exchange)])
    else s' == State(c.locked, s.waiters, s.threads[t := th.(pc := Critical)], Some(t))
  }

  lemma TrylockAnswers(c: Config, s: State, t: nat)
    requires Build(c) && InTrylock(s, t) && CallOf(s.threads[t])
    ensures Answers(c, s, t)
  {
  }

  lemma TryingKeepsKind(c: Config, s: State, t: nat)
    requires t < |s.threads| && s.threads[t].pc in {LoadMem, Exchange, Arm}
    ensures NextStep(c, s, t).threads[t].tryOnly == s.threads[t].tryOnly
  {
  }

  lemma OthersKeepKind(c: Config, s: State, t: nat)
    requires t < |s.threads| && s.threads[t].pc !in {LoadMem, Exchange, Arm}
    ensures NextStep(c, s, t).threads[t].tryOnly == s.threads[t].tryOnly
  {
  }

  lemma KindKept(c: Config, s: State, t: nat)
    requires t < |s.threads|
    ensures NextStep(c, s, t).threads[t].tryOnly == s.threads[t].tryOnly
  {
    if s.threads[t].pc in {LoadMem, Exchange, Arm} {
      TryingKeepsKind(c, s, t);
    } else {
      OthersKeepKind(c, s, t);
    }
  }

  lemma UnlockStays(c: Config, s: State, t: nat)
    requires t < |s.threads| && !Contends(s.threads[t].pc)
    ensures !Contends(NextStep(c, s, t).threads[t].pc)
  {
  }

  lemma OwnStepCall(c: Config, s: State, t: nat)
    requires Build(c) && t < |s.threads| && CallOf(s.threads[t])
    ensures CallOf(NextStep(c, s, t).threads[t])
  {
    KindKept(c, s, t);
    if InTrylock(s, t) {
      TrylockAnswers(c, s, t);
    } else if s.threads[t].tryOnly {
      UnlockStays(c, s, t);
    }
  }

  lemma StepCalls(c: Config, s: State, a: Action)
    requires Build(c) && CallInv(s) && Enabled(s, a)
    ensures CallInv(Next(c, s, a))
  {
    assert CallOf(s.threads[a.t]);
    if a.Step? {
      OthersKept(c, s, a.t);
      OwnStepCall(c, s, a.t);
    } else if a.WakeOne? {
      assert CallOf(s.threads[a.sleeper]);
    }
  }

  lemma {:induction false} RunCalls(c: Config, s: State, acts: seq<Action>)
    requires Build(c) && CallInv(s) && Runs(c, s, acts)
    ensures CallInv(Exec(c, s, acts))
    decreases acts
  {
    if acts != [] {
      StepCalls(c, s, acts[0]);
      RunCalls(c, Next(c, s, acts[0]), acts[1..]);
    }
  }

  // ----- trylock --------------------------------------------------------------------------

  /** How many of the actions are t's own. */
  function OwnSteps(acts: seq<Action>, t: nat): nat {
    if acts == [] then 0 else (if acts[0].t == t then 1 else 0) + OwnSteps(acts[1..], t)
  }

  predicate CallsAgain(acts: seq<Action>, t: nat) {
    Action.Lock(t) in acts || TryLock(t) in acts
  }

  /** Where a trylock can be after n accesses of its own. */
  ghost predicate TrylockAt(c: Config, s: State, t: nat, n: nat) {
    && t < |s.threads| && s.threads[t].tryOnly
    && (n == 0 ==> s.threads[t].pc == LoadMem && Answers(c, s, t))
    && (n == 1 ==> s.threads[t].pc == Idle || (s.threads[t].pc == Exchange && Answers(c, s, t)))
    && (n == 2 ==> s.threads[t].pc == Idle || (s.threads[t].pc == Critical && s.owner == Some(t)))
  }

  lemma OthersKeepTrylock(c: Config, s: State, a: Action, t: nat, n: nat)
    requires Build(c) && Inv(c, s) && CallInv(s) && Enabled(s, a) && a.t != t && TrylockAt(c, s, t, n) && n <= 2
    ensures TrylockAt(c, Next(c, s, a), t, n)
  {
    var s' := Next(c, s, a);
    assert s'.threads[t] == s.threads[t];
    StepInv(c, s, a);
    StepCalls(c, s, a);
    if InTrylock(s', t) {
      TrylockAnswers(c, s', t);
    }
  }

  lemma TrylockMoves(c: Config, s: State, a: Action, t: nat, n: nat)
    requires Build(c) && Inv(c, s) && CallInv(s) && Enabled(s, a) && a.t == t && !CallsAgain([a], t)
    requires TrylockAt(c, s, t, n) && n < 2
    ensures TrylockAt(c, Next(c, s, a), t, n + 1)
  {
    var s' := Next(c, s, a);
    assert a == Step(t) by {
      assert a in [a];
    }
    StepCalls(c, s, a);
    if InTrylock(s', t) {
      TrylockAnswers(c, s', t);
    }
  }

  lemma {:induction false} TrylockGoesOn(c: Config, s: State, acts: seq<Action>, t: nat, n: nat)
    requires Build(c) && Inv(c, s) && CallInv(s) && Runs(c, s, acts) && !CallsAgain(acts, t)
    requires TrylockAt(c, s, t, n) && n + OwnSteps(acts, t) <= 2
    ensures TrylockAt(c, Exec(c, s, acts), t, n + OwnSteps(acts, t))
    decreases acts
  {
    if acts != [] {
      var a, s' := acts[0], Next(c, s, acts[0]);
      StepInv(c, s, a);
      StepCalls(c, s, a);
      if a.t == t {
        assert !CallsAgain([a], t);
        TrylockMoves(c, s, a, t, n);
        TrylockGoesOn(c, s', acts[1..], t, n + 1);
      } else {
        OthersKeepTrylock(c, s, a, t, n);
        TrylockGoesOn(c, s', acts[1..], t, n);
      }
    }
  }

  lemma InitCalls(c: Config, threads: nat)
    ensures CallInv(Init(c, threads))
  {
  }

  lemma CallTrylock(c: Config, s: State, t: nat)
    requires Build(c) && Inv(c, s) && CallInv(s) && Enabled(s, TryLock(t))
    ensures TrylockAt(c, Next(c, s, TryLock(t)), t, 0)
    ensures Inv(c, Next(c, s, TryLock(t))) && CallInv(Next(c, s, TryLock(t)))
  {
    StepInv(c, s, TryLock(t));
    StepCalls(c, s, TryLock(t));
    TrylockAnswers(c, Next(c, s, TryLock(t)), t);
  }

  /** Over every run: a trylock ends within two accesses of its own, whatever the others do in
      between, and with the word locked it ends at once. */
  lemma TrylockEnds(c: Config, threads: nat, before: seq<Action>, t: nat, acts: seq<Action>)
    requires Build(c) && threads < U32 && Runs(c, Init(c, threads), before)
    requires Enabled(Exec(c, Init(c, threads), before), TryLock(t))
    requires Runs(c, Next(c, Exec(c, Init(c, threads), before), TryLock(t)), acts)
    requires !CallsAgain(acts, t) && OwnSteps(acts, t) <= 2
    ensures var s := Exec(c, Next(c, Exec(c, Init(c, threads), before), TryLock(t)), acts);
            && t < |s.threads|
            && var pc := s.threads[t].pc;
               && (OwnSteps(acts, t) == 0 ==> pc == LoadMem && Answers(c, s, t))
               && (OwnSteps(acts, t) == 1 ==> pc == Idle || (pc == Exchange && Answers(c, s, t)))
               && (OwnSteps(acts, t) == 2 ==> pc == Idle || (pc == Critical && s.owner == Some(t)))
  {
    InitInv(c, threads);
    InitCalls(c, threads);
    RunInv(c, Init(c, threads), before);
    RunCalls(c, Init(c, threads), before);
    var s := Exec(c, Init(c, threads), before);
    CallTrylock(c, s, t);
    TrylockGoesOn(c, Next(c, s, TryLock(t)), acts, t, 0);
  }

  // ----- lock -------------------------------------------------------------------------------

  /** In lock: a thread that will not give up. */
  predicate InLock(s: State, t: nat) {
    t < |s.threads| && !s.threads[t].tryOnly && Contends(s.threads[t].pc)
  }

  /** Whether a run leads t into its critical section, be it for one state only. */
  predicate Acquires(c: Config, s: State, acts: seq<Action>, t: nat)
    requires Runs(c, s, acts)
    decreases acts
  {
    || (t < |s.threads| && s.threads[t].pc == Critical)
    || (acts != [] && Acquires(c, Next(c, s, acts[0]), acts[1..], t))
  }

  lemma LockStays(c: Config, s: State, t: nat)
    requires InLock(s, t)
    ensures InLock(NextStep(c, s, t), t) || NextStep(c, s, t).threads[t].pc == Critical
  {
  }

  lemma StaysInLock(c: Config, s: State, a: Action, t: nat)
    requires Enabled(s, a) && InLock(s, t)
    ensures InLock(Next(c, s, a), t) || (t < |Next(c, s, a).threads| && Next(c, s, a).threads[t].pc == Critical)
  {
    if a == Step(t) {
      LockStays(c, s, t);
    } else if a.Step? {
      OthersKept(c, s, a.t);
    }
  }

  /** Over every run: lock does not return without the lock. */
  lemma {:induction false} LockNeverFails(c: Config, s: State, acts: seq<Action>, t: nat)
    requires Runs(c, s, acts) && InLock(s, t) && !Acquires(c, s, acts, t)
    ensures InLock(Exec(c, s, acts), t)
    decreases acts
  {
    if acts != [] {
      StaysInLock(c, s, acts[0], t);
      assert !Acquires(c, Next(c, s, acts[0]), acts[1..], t);
      LockNeverFails(c, Next(c, s, acts[0]), acts[1..], t);
    }
  }

  /** So a thread that has called lock is idle again only after its critical section. */
  lemma LockReturnsLocked(c: Config, s: State, t: nat, acts: seq<Action>)
    requires Enabled(s, Action.Lock(t)) && Runs(c, Next(c, s, Action.Lock(t)), acts)
    requires t < |Exec(c, Next(c, s, Action.Lock(t)), acts).threads|
    requires Exec(c, Next(c, s, Action.Lock(t)), acts).threads[t].pc == Idle
    ensures Acquires(c, Next(c, s, Action.Lock(t)), acts, t)
  {
    if !Acquires(c, Next(c, s, Action.Lock(t)), acts, t) {
      LockNeverFails(c, Next(c, s, Action.Lock(t)), acts, t);
    }
  }

  // ----- rounds -------------------------------------------------------------------------------

  /** The access that ends a failed round of the raw or the yield loop: the load or the
      exchange finds the word locked, and with the kernel watch the record is armed again. */
  predicate EndsRound(c: Config, s: State, t: nat) {
    && t < |s.threads| && s.threads[t].phase != First
    && (s.threads[t].pc == Arm || (!c.auto && s.threads[t].pc in {LoadMem, Exchange} && s.mem == c.locked))
  }

  predicate At(th: Thread, pc: Pc, phase: Phase, tries: nat) {
    th.pc == pc && th.phase == phase && th.tries == tries
  }

  /** internal/lock-base.h: iter counts down from 0, is decremented after every failed round,
      and the loop is left when it is below -128, or -4 in the yield loop. Nothing is counted
      if no other way to wait is built in. */
  lemma InternalRounds(auto: bool, yieldLoop: bool, futex: bool, s: State, t: nat, iter: int)
    requires var c := Internal(auto, yieldLoop, futex); EndsRound(c, s, t)
    requires iter == -1 - s.threads[t].tries
    ensures var c, th := Internal(auto, yieldLoop, futex), s.threads[t];
            var th' := NextStep(c, s, t).threads[t];
            && c.locked == 0 && c.unlocked == 1
            && (th.phase == Raw ==>
                  if (yieldLoop || futex) && iter < -128
                  then if yieldLoop then At(th', LoadMem, Yielding, 0) else At(th', AddWaiter, Raw, th.tries)
                  else At(th', LoadMem, Raw, th.tries + 1))
            && (th.phase == Yielding ==>
                  if futex && iter < -4 then At(th', AddWaiter, Yielding, th.tries)
                  else At(th', LoadMem, Yielding, th.tries + 1))
  {
  }

  /** lock_ops: the count is incremented after every failed round and compared with the
      limit, if there is one; after the last loop lock sleeps on the futex or starts over with
      the plain trylock. */
  lemma TemplateRounds(raw: nat, yieldTries: nat, yieldLoop: bool, futex: bool, s: State, t: nat, count: nat)
    requires EndsRound(Template(raw, yieldTries, yieldLoop, futex), s, t) && count == s.threads[t].tries + 1
    ensures var c, th := Template(raw, yieldTries, yieldLoop, futex), s.threads[t];
            var th' := NextStep(c, s, t).threads[t];
            && c.locked == 0 && c.unlocked == 1
            && var limit := if th.phase == Raw then raw else yieldTries;
               if limit == 0 || count < limit then At(th', LoadMem, th.phase, count)
               else if th.phase == Raw && yieldLoop then At(th', LoadMem, Yielding, 0)
               else if futex then At(th', AddWaiter, th.phase, th.tries)
               else At(th', LoadMem, First, 0)
  {
  }

  /** After the futex: the internal locks go back to their raw loop, lock_ops to its plain
      trylock. */
  lemma AfterTheFutex(s: State, t: nat, auto: bool, raw: nat, yieldTries: nat, yieldLoop: bool)
    requires t < |s.threads| && s.threads[t].pc == SubWaiter
    ensures At(NextStep(Internal(auto, yieldLoop, true), s, t).threads[t], LoadMem, Raw, 0)
    ensures At(NextStep(Template(raw, yieldTries, yieldLoop, true), s, t).threads[t], LoadMem, First, 0)
  {
  }
}
