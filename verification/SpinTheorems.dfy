/** What the spin lock family promises over every run, and what becomes of it when
    the two orders its comments insist on are given up. */
module SpinTheorems {
  import opened Basics
  import M = Mutex
  import opened SpinSpec
  import opened SpinInv

  /** acts lead from s0 to s. Stated through the length of acts, so that a proof that only
      passes the fact on does not unroll the run. */
  ghost predicate Reaches(c: Config, s0: State, acts: seq<Action>, s: State) {
    forall n :: IsLength(acts, n) ==> Runs(c, s0, acts) && Exec(c, s0, acts) == s
  }

  lemma ReachesRun(c: Config, s0: State, acts: seq<Action>, s: State)
    requires Reaches(c, s0, acts, s)
    ensures Runs(c, s0, acts) && Exec(c, s0, acts) == s
  {
    assert IsLength(acts, |acts|);
  }

  lemma ReachesStep(c: Config, s0: State, acts: seq<Action>, s: State, a: Action)
    requires Reaches(c, s0, acts, s) && Enabled(s, a)
    ensures Reaches(c, s0, acts + [a], Next(c, s, a))
  {
    ReachesRun(c, s0, acts, s);
    RunsAppend(c, s0, acts, a);
  }

  lemma {:induction false} RunInv(c: Config, s: State, acts: seq<Action>)
    requires Build(c) && Inv(c, s) && Runs(c, s, acts)
    ensures Inv(c, Exec(c, s, acts))
    decreases acts
  {
    if acts != [] {
      StepInv(c, s, acts[0]);
      RunInv(c, Next(c, s, acts[0]), acts[1..]);
    }
  }

  // ----- mutual exclusion and refinement of the abstract lock ---------------------

  ghost predicate MutualExclusion(s: State) {
    forall t, u :: 0 <= t < |s.threads| && 0 <= u < |s.threads| &&
      s.threads[t].pc == Critical && s.threads[u].pc == Critical
      ==> t == u
  }

  lemma RunMutualExclusion(c: Config, threads: nat, acts: seq<Action>)
    requires Build(c) && threads < U32 && Runs(c, Init(c, threads), acts)
    ensures MutualExclusion(Exec(c, Init(c, threads), acts))
  {
    InitInv(c, threads);
    RunInv(c, Init(c, threads), acts);
  }

  /** The acquisition or release a step completes. */
  function Emit(c: Config, s: State, a: Action): seq<M.Event>
    requires Enabled(s, a)
  {
    if !a.Step? then []
    else if s.threads[a.t].pc == Critical then [M.Release(a.t)]
    else if s.threads[a.t].pc == Exchange && s.mem != c.locked then [M.Acquire(a.t)]
    else []
  }

  function Trace(c: Config, s: State, acts: seq<Action>): seq<M.Event>
    requires Runs(c, s, acts)
    decreases acts
  {
    if acts == [] then [] else Emit(c, s, acts[0]) + Trace(c, Next(c, s, acts[0]), acts[1..])
  }

  lemma StepRefines(c: Config, s: State, a: Action)
    requires Build(c) && Inv(c, s) && Enabled(s, a)
    ensures M.Legal(s.owner, Emit(c, s, a))
    ensures M.HolderAfter(s.owner, Emit(c, s, a)) == Next(c, s, a).owner
  {
    assert WatchOf(c, s.threads[a.t]);
    if a.Step? {
      WordStep(c, s, a.t);
    }
  }

  lemma {:induction false} RunRefines(c: Config, s: State, acts: seq<Action>)
    requires Build(c) && Inv(c, s) && Runs(c, s, acts)
    ensures M.Legal(s.owner, Trace(c, s, acts))
    ensures M.HolderAfter(s.owner, Trace(c, s, acts)) == Exec(c, s, acts).owner
    decreases acts
  {
    if acts != [] {
      StepInv(c, s, acts[0]);
      StepRefines(c, s, acts[0]);
      RunRefines(c, Next(c, s, acts[0]), acts[1..]);
      M.LegalConcat(s.owner, Emit(c, s, acts[0]), Trace(c, Next(c, s, acts[0]), acts[1..]));
    }
  }

  // ----- waiting ------------------------------------------------------------------

  function Sleepers(s: State): set<nat> {
    set t | 0 <= t < |s.threads| && s.threads[t].pc == Asleep
  }

  /** No lost wakeup: the counter covers the sleepers, and while one sleeps the lock
      is owned or some thread in lock or unlock is awake; an unlocker among them has
      not loaded a zero. */
  lemma NoLostWakeup(c: Config, s: State, sleeper: nat)
    requires Build(c) && Inv(c, s) && Sleeps(s, sleeper)
    ensures |Sleepers(s)| <= s.waiters
    ensures s.owner.Some? || exists t :: 0 <= t < |s.threads| && Awake(s, t)
    ensures forall t :: 0 <= t < |s.threads| && s.threads[t].pc == LoadWaiters ==>
              NextStep(c, s, t).threads[t].pc == Wake
  {
    SubsetSize(Sleepers(s), AnnouncedSet(s));
    SleeperAnnounced(c, s, sleeper);
    if s.owner == None {
      var t :| Awake(s, t);
    }
  }

  /** The owner is never armed, so the kernel may always run it. */
  lemma OwnerCanRun(c: Config, s: State)
    requires Build(c) && Inv(c, s) && s.owner.Some?
    ensures CanRun(s, s.owner.value)
  {
    assert WatchOf(c, s.threads[s.owner.value]);
  }

  /** Once the word is unlocked every awake thread may run, armed or not. */
  lemma UnlockedAllRun(c: Config, s: State, t: nat)
    requires Build(c) && Inv(c, s) && s.owner == None && Awake(s, t)
    ensures CanRun(s, t)
  {
    assert WatchOf(c, s.threads[t]);
  }

  /** Wants the word: between the call and the exchange that wins. */
  predicate Contends(pc: Pc) {
    pc in {LoadMem, Disarm, Exchange, Arm, SetFor, SetNeq, AddWaiter, FutexWait, Asleep, SubWaiter}
  }

  /** The kernel may run the thread, and the thread does more than find the word locked
      and wait: it releases, wakes, or contends for a word that is free. */
  predicate Progresses(c: Config, s: State, t: nat) {
    && CanRun(s, t) && (Contends(s.threads[t].pc) ==> s.mem != c.locked)
    && NextStep(c, s, t).threads[t].pc != s.threads[t].pc
  }

  lemma AwakeMoves(c: Config, s: State, t: nat)
    requires t < |s.threads| && WatchOf(c, s.threads[t]) && Awake(s, t)
    requires Contends(s.threads[t].pc) ==> s.mem != c.locked
    ensures NextStep(c, s, t).threads[t].pc != s.threads[t].pc
  {
  }

  /** Deadlock freedom: whenever a thread is inside lock, trylock, the critical section
      or unlock, the owner can go on, or if there is none, a thread that finds the word free
      or is still in unlock. */
  lemma NoDeadlock(c: Config, s: State, t: nat) returns (u: nat)
    requires Build(c) && Inv(c, s) && t < |s.threads| && s.threads[t].pc != Idle
    ensures Progresses(c, s, u)
    ensures s.owner.Some? ==> u == s.owner.value
  {
    if s.owner.Some? {
      u := s.owner.value;
      OwnerCanRun(c, s);
    } else {
      u := t;
      if s.threads[t].pc == Asleep {
        assert Sleeps(s, t);
        u :| Awake(s, u);
      }
      UnlockedAllRun(c, s, u);
    }
    assert WatchOf(c, s.threads[u]);
    AwakeMoves(c, s, u);
  }

  /** Accesses that separate an awake contender from its exchange while the word is free. */
  function Distance(pc: Pc): nat {
    match pc
    case Exchange => 1
    case Disarm => 2
    case LoadMem => 3
    case SubWaiter => 4
    case SetNeq => 4
    case FutexWait => 5
    case SetFor => 5
    case AddWaiter => 6
    case Arm => 7
    case _ => 8
  }

  /** While the word is free an awake contender comes nearer to its exchange with every
      step of its own, does not fall asleep, and wins the word with the exchange. */
  lemma FreeWordIsWon(c: Config, s: State, t: nat)
    requires Build(c) && t < |s.threads| && WatchOf(c, s.threads[t]) && Awake(s, t)
    requires Contends(s.threads[t].pc) && s.mem != c.locked
    ensures var pc, s' := s.threads[t].pc, NextStep(c, s, t);
            if pc == Exchange then s'.threads[t].pc == Critical && s'.owner == Some(t)
            else Contends(s'.threads[t].pc) && Distance(s'.threads[t].pc) < Distance(pc) && s'.mem == s.mem
  {
    match s.threads[t].pc
    case LoadMem =>
    case Disarm =>
    case Exchange =>
    case Arm =>
    case SetFor =>
    case SetNeq =>
    case AddWaiter =>
    case FutexWait =>
    case SubWaiter =>
  }

  // ----- why watch_mem is cleared before the exchange --------------------------------

  /** The lock is in use and nobody can go on: all its users sleep, are kept off the
      processor, or find the word locked. */
  ghost predicate Stuck(c: Config, s: State) {
    && (exists t :: 0 <= t < |s.threads| && s.threads[t].pc != Idle)
    && forall t :: 0 <= t < |s.threads| ==> !Progresses(c, s, t)
  }

  lemma NeverStuck(c: Config, threads: nat, acts: seq<Action>)
    requires Build(c) && threads < U32 && Runs(c, Init(c, threads), acts)
    ensures !Stuck(c, Exec(c, Init(c, threads), acts))
  {
    InitInv(c, threads);
    RunInv(c, Init(c, threads), acts);
    var s := Exec(c, Init(c, threads), acts);
    if Stuck(c, s) {
      var t :| 0 <= t < |s.threads| && s.threads[t].pc != Idle;
      var _ := NoDeadlock(c, s, t);
    }
  }

  /** One more step of a run of two threads. */
  lemma Go(c: Config, acts: seq<Action>, s: State, a: Action) returns (more: seq<Action>, s': State)
    requires Reaches(c, Init(c, 2), acts, s) && Enabled(s, a)
    ensures s' == Next(c, s, a) && Reaches(c, Init(c, 2), more, s')
  {
    more, s' := acts + [a], Next(c, s, a);
    ReachesStep(c, Init(c, 2), acts, s, a);
  }

  function Idler(): Thread {
    Thread(Idle, First, 0, false, false, Watch(false, 0, 0))
  }

  /** Thread 0 acquires the lock with its first try. */
  lemma FirstTryRun(c: Config) returns (acts: seq<Action>, s: State)
    requires c.locked == 0 && c.unlocked == 1
    ensures Reaches(c, Init(c, 2), acts, s) && s == State(0, 0, [Idler().(pc := Critical), Idler()], Some(0))
  {
    acts, s := [], Init(c, 2);
    assert s == State(1, 0, [Idler(), Idler()], None);
    acts, s := Go(c, acts, s, Lock(0));
    acts, s := Go(c, acts, s, Step(0));
    acts, s := Go(c, acts, s, Step(0));
  }

  /** Thread 1 with its record armed. */
  function ArmedAt(pc: Pc): Thread {
    Thread(pc, Raw, 1, false, false, Watch(true, 1, 0))
  }

  /** Thread 1 then fails twice and arms its record. */
  lemma ArmedRun(c: Config) returns (acts: seq<Action>, s: State)
    requires c.locked == 0 && c.unlocked == 1 && c.auto && (c.rawTries == 0 || c.rawTries > 1)
    ensures Reaches(c, Init(c, 2), acts, s)
    ensures s == State(0, 0, [Idler().(pc := Critical), ArmedAt(LoadMem)], Some(0))
  {
    acts, s := FirstTryRun(c);
    acts, s := Go(c, acts, s, Lock(1));
    acts, s := Go(c, acts, s, Step(1));
    acts, s := Go(c, acts, s, Step(1));
    acts, s := Go(c, acts, s, Step(1));
    assert s.threads[1] == Thread(LoadMem, Raw, 0, false, false, Watch(false, 1, 0));
    acts, s := Go(c, acts, s, Step(1));
    acts, s := Go(c, acts, s, Step(1));
  }

  /** Thread 0 releases, and thread 1 takes the word with its record still armed. */
  lemma ArmedOwnerRun(c: Config) returns (acts: seq<Action>, s: State)
    requires c.locked == 0 && c.unlocked == 1 && c.auto && (c.rawTries == 0 || c.rawTries > 1)
    requires !c.disarms && c.storesFirst
    ensures Reaches(c, Init(c, 2), acts, s)
    ensures s == State(0, 0, [Idler(), ArmedAt(Critical)], Some(1))
  {
    acts, s := ArmedRun(c);
    acts, s := Go(c, acts, s, Step(0));
    if c.futex {
      acts, s := Go(c, acts, s, Step(0));
    }
    assert s == State(1, 0, [Idler(), ArmedAt(LoadMem)], None);
    acts, s := Go(c, acts, s, Step(1));
    acts, s := Go(c, acts, s, Step(1));
  }

  /** The deadlock of the comment in trylock_maybe_sched: a thread that keeps watch_mem
      armed over its exchange wins the lock and is never scheduled again. */
  lemma ArmedOwnerHangs(yieldLoop: bool, futex: bool)
    ensures var c := Internal(true, yieldLoop, futex).(disarms := false);
            exists acts :: Runs(c, Init(c, 2), acts) && Stuck(c, Exec(c, Init(c, 2), acts))
  {
    var c := Internal(true, yieldLoop, futex).(disarms := false);
    var acts, s := ArmedOwnerRun(c);
    ReachesRun(c, Init(c, 2), acts, s);
    assert s.threads[1].pc == Critical;
    assert Stuck(c, s);
  }

  // ----- why unlock stores mem before it loads waiters --------------------------------

  /** Thread 1 in round i of the raw loop. */
  function InRound(i: nat, pc: Pc): Thread {
    Thread(pc, Raw, i, false, false, Watch(false, 0, 0))
  }

  /** The last n rounds of the raw loop while thread 0 owns the lock. */
  lemma {:induction false} RawLoopRun(c: Config, acts: seq<Action>, s: State, n: nat)
    returns (more: seq<Action>, s': State)
    requires c.locked == 0 && !c.auto && !c.yieldLoop && c.futex && 0 < n <= c.rawTries
    requires Reaches(c, Init(c, 2), acts, s)
    requires s == State(0, 0, [Idler().(pc := Critical), InRound(c.rawTries - n, LoadMem)], Some(0))
    ensures Reaches(c, Init(c, 2), more, s')
    ensures s' == State(0, 0, [Idler().(pc := Critical), InRound(c.rawTries - 1, AddWaiter)], Some(0))
    decreases n
  {
    more, s' := Go(c, acts, s, Step(1));
    if n > 1 {
      more, s' := RawLoopRun(c, more, s', n - 1);
    }
  }

  lemma LateStoreRun(c: Config) returns (acts: seq<Action>, s: State)
    requires c == Template(c.rawTries, c.yieldTries, false, true).(storesFirst := false) && 0 < c.rawTries
    ensures Reaches(c, Init(c, 2), acts, s)
    ensures s == State(1, 1, [Idler(), InRound(c.rawTries - 1, Asleep)], None)
  {
    acts, s := FirstTryRun(c);
    acts, s := Go(c, acts, s, Lock(1));
    acts, s := Go(c, acts, s, Step(1));
    acts, s := RawLoopRun(c, acts, s, c.rawTries);
    acts, s := Go(c, acts, s, Step(0));
    acts, s := Go(c, acts, s, Step(1));
    assert s == State(0, 1, [Idler().(pc := EarlyWaiters), InRound(c.rawTries - 1, FutexWait)], Some(0));
    acts, s := Go(c, acts, s, Step(1));
    acts, s := Go(c, acts, s, Step(0));
  }

  /** An unlock that loads waiters first lets a waiter fall asleep on a word that is
      then unlocked, with nobody left to wake it. */
  lemma LateStoreLosesWakeup(raw: nat, yieldTries: nat)
    requires 0 < raw
    ensures var c := Template(raw, yieldTries, false, true).(storesFirst := false);
            exists acts :: Runs(c, Init(c, 2), acts) && Stuck(c, Exec(c, Init(c, 2), acts)) &&
                           Exec(c, Init(c, 2), acts).mem == c.unlocked
  {
    var c := Template(raw, yieldTries, false, true).(storesFirst := false);
    var acts, s := LateStoreRun(c);
    ReachesRun(c, Init(c, 2), acts, s);
    assert s.threads[1].pc == Asleep;
    assert Stuck(c, s);
  }
}
