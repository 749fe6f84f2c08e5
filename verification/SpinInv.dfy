/** The invariant of the spin lock family. */
module SpinInv {
  import opened Basics
  import opened SpinSpec

  /** The word is locked exactly while one thread owns the lock. */
  ghost predicate OwnerInv(c: Config, s: State) {
    && s.mem == (if s.owner.Some? then c.locked else c.unlocked)
    && (s.owner.Some? ==> s.owner.value < |s.threads| && s.threads[s.owner.value].pc == Critical)
    && forall t :: 0 <= t < |s.threads| && s.threads[t].pc == Critical ==> s.owner == Some(t)
  }

  /** Announced as a futex waiter. */
  predicate Announced(pc: Pc) {
    pc in {FutexWait, Asleep, SubWaiter}
  }

  function AnnouncedSet(s: State): set<nat> {
    set t | 0 <= t < |s.threads| && Announced(s.threads[t].pc)
  }

  /** waiters counts the announced threads and never wraps. */
  ghost predicate WaitersInv(s: State) {
    |s.threads| < U32 && s.waiters == |AnnouncedSet(s)|
  }

  /** An armed thread waits for the word to be unlocked; it is not armed where it may own it. */
  ghost predicate WatchOf(c: Config, th: Thread) {
    && (th.watch.armed ==> c.auto && th.watch.value == c.unlocked && th.watch.neq == 0)
    && (th.pc in {Idle, SetFor, SetNeq, Exchange, Critical, LoadWaiters, Wake} || th.phase == First ==> !th.watch.armed)
    && (c.auto && th.pc == SetNeq ==> th.watch.value == c.unlocked)
    && (c.auto && th.phase != First &&
        th.pc in {LoadMem, Disarm, Exchange, Arm, AddWaiter, FutexWait, Asleep, SubWaiter} ==>
          th.watch.value == c.unlocked && th.watch.neq == 0)
    && (th.pc in {SetFor, SetNeq} ==> c.auto && th.phase == First)
    && (th.pc in {Disarm, Arm} ==> c.auto && th.phase != First)
    && (Announced(th.pc) || th.pc == AddWaiter ==> c.futex && th.phase != First)
    && (th.pc in {LoadWaiters, Wake} ==> c.futex)
    && th.pc != EarlyWaiters
  }

  ghost predicate WatchInv(c: Config, s: State) {
    forall t :: 0 <= t < |s.threads| ==> WatchOf(c, s.threads[t])
  }

  predicate Awake(s: State, t: nat) {
    t < |s.threads| && s.threads[t].pc !in {Idle, Asleep}
  }

  /** No sleeper is forgotten: while the word is unlocked some thread is awake. */
  ghost predicate WakeInv(c: Config, s: State) {
    SomeSleeps(s) && s.mem != c.locked ==> exists t :: Awake(s, t)
  }

  ghost predicate Inv(c: Config, s: State) {
    OwnerInv(c, s) && WaitersInv(s) && WatchInv(c, s) && WakeInv(c, s)
  }

  lemma InitInv(c: Config, threads: nat)
    requires Build(c) && threads < U32
    ensures Inv(c, Init(c, threads))
  {
    assert AnnouncedSet(Init(c, threads)) == {};
  }

  // ----- the registers of the stepping thread --------------------------------------

  lemma CountedWatch(c: Config, th: Thread)
    requires Build(c) && WatchOf(c, th) && th.phase != First && th.pc in {LoadMem, Exchange, Arm}
    requires th.watch.armed ==> c.auto && th.watch.value == c.unlocked && th.watch.neq == 0
    ensures WatchOf(c, Counted(c, th.(watch := th.watch.(armed := c.auto))))
    ensures !c.auto ==> WatchOf(c, Counted(c, th))
  {
  }

  lemma FailedWatch(c: Config, th: Thread)
    requires Build(c) && WatchOf(c, th) && th.pc in {LoadMem, Exchange}
    ensures WatchOf(c, Failed(c, th))
  {
    if th.phase != First {
      CountedWatch(c, th);
    }
  }

  /** Only the stepping thread changes. */
  lemma OthersKept(c: Config, s: State, t: nat)
    requires t < |s.threads|
    ensures |NextStep(c, s, t).threads| == |s.threads|
    ensures forall u :: 0 <= u < |s.threads| && u != t ==> NextStep(c, s, t).threads[u] == s.threads[u]
  {
  }

  lemma TryingStepWatch(c: Config, s: State, t: nat)
    requires Build(c) && t < |s.threads| && WatchOf(c, s.threads[t]) && s.threads[t].pc in {LoadMem, Exchange, Arm}
    ensures WatchOf(c, NextStep(c, s, t).threads[t])
  {
    var th := s.threads[t];
    if th.pc == Arm {
      CountedWatch(c, th);
    } else {
      FailedWatch(c, th);
    }
  }

  lemma OtherStepWatch(c: Config, s: State, t: nat)
    requires Build(c) && t < |s.threads| && WatchOf(c, s.threads[t])
    requires s.threads[t].pc !in {LoadMem, Exchange, Arm}
    ensures WatchOf(c, NextStep(c, s, t).threads[t])
  {
    match s.threads[t].pc
    case Idle =>
    case Disarm =>
    case SetFor =>
    case SetNeq =>
    case AddWaiter =>
    case FutexWait =>
    case Asleep =>
    case SubWaiter =>
    case Critical =>
    case LoadWaiters =>
    case Wake =>
    case EarlyWaiters =>
  }

  lemma OwnStepWatch(c: Config, s: State, t: nat)
    requires Build(c) && t < |s.threads| && WatchOf(c, s.threads[t])
    ensures WatchOf(c, NextStep(c, s, t).threads[t])
  {
    if s.threads[t].pc in {LoadMem, Exchange, Arm} {
      TryingStepWatch(c, s, t);
    } else {
      OtherStepWatch(c, s, t);
    }
  }

  lemma StepWatch(c: Config, s: State, a: Action)
    requires Build(c) && WatchInv(c, s) && Enabled(s, a)
    ensures WatchInv(c, Next(c, s, a))
  {
    assert WatchOf(c, s.threads[a.t]);
    if a.Step? {
      OthersKept(c, s, a.t);
      OwnStepWatch(c, s, a.t);
    } else if a.WakeOne? {
      assert WatchOf(c, s.threads[a.sleeper]);
    }
  }

  // ----- ownership -----------------------------------------------------------------

  /** What a step of a thread does to the word and its owner. */
  lemma WordStep(c: Config, s: State, t: nat)
    requires Build(c) && t < |s.threads| && WatchOf(c, s.threads[t])
    requires s.mem == (if s.owner.Some? then c.locked else c.unlocked)
    ensures var s' := NextStep(c, s, t);
            var pc, pc' := s.threads[t].pc, s'.threads[t].pc;
            if pc == Critical then s'.owner == None && s'.mem == c.unlocked && pc' != Critical
            else if pc' == Critical then s.owner == None && s'.owner == Some(t) && s'.mem == c.locked
            else s'.owner == s.owner && s'.mem == s.mem
  {
  }

  lemma StepOwner(c: Config, s: State, a: Action)
    requires Build(c) && OwnerInv(c, s) && WatchInv(c, s) && Enabled(s, a)
    ensures OwnerInv(c, Next(c, s, a))
  {
    assert WatchOf(c, s.threads[a.t]);
    if a.Step? {
      OthersKept(c, s, a.t);
      WordStep(c, s, a.t);
    }
  }

  // ----- the waiters counter --------------------------------------------------------

  lemma {:induction false} BoundedSet(x: set<nat>, n: nat)
    requires forall t :: t in x ==> t < n
    ensures |x| <= n
  {
    if n > 0 {
      BoundedSet(x - {n - 1}, n - 1);
    } else {
      assert x == {};
    }
  }

  /** From s to s' thread t announces itself, withdraws, or does neither, and the
      counter follows. */
  ghost predicate Counts(s: State, s': State, t: nat) {
    && |s'.threads| == |s.threads| && t < |s.threads|
    && (forall u :: 0 <= u < |s.threads| && u != t ==> s'.threads[u] == s.threads[u])
    && var before, after := Announced(s.threads[t].pc), Announced(s'.threads[t].pc);
       s'.waiters == if after && !before then (s.waiters + 1) % U32
                     else if before && !after then (s.waiters + U32 - 1) % U32 else s.waiters
  }

  lemma FailureNotAnnounced(c: Config, s: State, t: nat)
    requires t < |s.threads| && s.threads[t].pc in {LoadMem, Exchange, Arm}
    ensures Counts(s, NextStep(c, s, t), t)
  {
    assert !Announced(NextStep(c, s, t).threads[t].pc);
  }

  lemma WaiterCounted(c: Config, s: State, t: nat)
    requires t < |s.threads| && s.threads[t].pc in {AddWaiter, FutexWait, SubWaiter}
    ensures Counts(s, NextStep(c, s, t), t)
  {
  }

  lemma CounterStep(c: Config, s: State, t: nat)
    requires t < |s.threads|
    ensures Counts(s, NextStep(c, s, t), t)
  {
    if s.threads[t].pc in {AddWaiter, FutexWait, SubWaiter} {
      WaiterCounted(c, s, t);
    } else if s.threads[t].pc in {LoadMem, Exchange, Arm} {
      FailureNotAnnounced(c, s, t);
    }
  }

  lemma AnnouncedStep(s: State, s': State, t: nat)
    requires Counts(s, s', t)
    ensures AnnouncedSet(s') ==
            if Announced(s'.threads[t].pc) then AnnouncedSet(s) + {t} else AnnouncedSet(s) - {t}
  {
  }

  lemma SetJoined(x: set<nat>, t: nat)
    ensures |x + {t}| == if t in x then |x| else |x| + 1
  {
    assert t in x ==> x + {t} == x;
  }

  lemma SetLeft(x: set<nat>, t: nat)
    ensures |x - {t}| == if t in x then |x| - 1 else |x|
  {
    assert t !in x ==> x - {t} == x;
  }

  /** A counter below 2^32 goes up and down by one without wrapping. */
  lemma NoWrap(w: nat)
    ensures w + 1 < U32 ==> (w + 1) % U32 == w + 1
    ensures 0 < w < U32 ==> (w + U32 - 1) % U32 == w - 1
  {
  }

  /** A counter that was the size of x and follows t into x or out of it is the size
      of the new set. */
  lemma CounterFollows(x: set<nat>, t: nat, after: bool, w: nat, w': nat)
    requires w == |x| && |x + {t}| < U32
    requires w' == if after && t !in x then (w + 1) % U32 else if t in x && !after then (w + U32 - 1) % U32 else w
    ensures w' == |if after then x + {t} else x - {t}|
  {
    SetJoined(x, t);
    SetLeft(x, t);
    NoWrap(w);
  }

  lemma AnnouncedBound(s: State, t: nat)
    requires t < |s.threads|
    ensures t in AnnouncedSet(s) <==> Announced(s.threads[t].pc)
    ensures |AnnouncedSet(s) + {t}| <= |s.threads|
  {
    BoundedSet(AnnouncedSet(s) + {t}, |s.threads|);
  }

  lemma CounterKept(s: State, s': State, t: nat)
    requires WaitersInv(s) && Counts(s, s', t)
    ensures WaitersInv(s')
  {
    AnnouncedBound(s, t);
    AnnouncedStep(s, s', t);
    CounterFollows(AnnouncedSet(s), t, Announced(s'.threads[t].pc), s.waiters, s'.waiters);
  }

  lemma StepWaiters(c: Config, s: State, a: Action)
    requires Build(c) && WaitersInv(s) && Enabled(s, a)
    ensures WaitersInv(Next(c, s, a))
  {
    if a.Step? {
      CounterStep(c, s, a.t);
      CounterKept(s, NextStep(c, s, a.t), a.t);
    } else {
      assert AnnouncedSet(Next(c, s, a)) == AnnouncedSet(s);
    }
  }

  // ----- no forgotten sleeper --------------------------------------------------------

  lemma SleeperAnnounced(c: Config, s: State, u: nat)
    requires WatchInv(c, s) && WaitersInv(s) && Sleeps(s, u)
    ensures s.waiters > 0 && c.futex
  {
    assert WatchOf(c, s.threads[u]) && u in AnnouncedSet(s);
  }

  /** A thread stays awake unless it finds the word locked, or nobody announced, or
      there is no futex. */
  lemma LeavingStep(c: Config, s: State, t: nat)
    requires Build(c) && t < |s.threads| && WatchOf(c, s.threads[t]) && Awake(s, t)
    ensures Awake(NextStep(c, s, t), t) || NextStep(c, s, t).mem == c.locked ||
            s.waiters == 0 || !c.futex || s.threads[t].pc == Wake
    ensures Sleeps(NextStep(c, s, t), t) ==> NextStep(c, s, t).mem == c.locked
  {
  }

  /** With a sleeper left behind and the word unlocked the stepping thread is awake. */
  lemma StaysAwake(c: Config, s: State, t: nat)
    requires Build(c) && WatchInv(c, s) && WaitersInv(s) && Enabled(s, Step(t))
    requires SomeSleeps(NextStep(c, s, t)) && NextStep(c, s, t).mem != c.locked
    ensures Awake(NextStep(c, s, t), t)
  {
    assert WatchOf(c, s.threads[t]);
    LeavingStep(c, s, t);
    OthersKept(c, s, t);
    var u :| 0 <= u < |s.threads| && Sleeps(NextStep(c, s, t), u);
    assert Sleeps(s, u);
    SleeperAnnounced(c, s, u);
  }

  lemma StepWake(c: Config, s: State, a: Action)
    requires Build(c) && Inv(c, s) && Enabled(s, a)
    ensures WakeInv(c, Next(c, s, a))
  {
    var s' := Next(c, s, a);
    if SomeSleeps(s') && s'.mem != c.locked {
      if a.WakeOne? {
        assert Awake(s', a.sleeper);
      } else {
        if a.Step? {
          StaysAwake(c, s, a.t);
        }
        assert Awake(s', a.t);
      }
    }
  }

  lemma StepInv(c: Config, s: State, a: Action)
    requires Build(c) && Inv(c, s) && Enabled(s, a)
    ensures Inv(c, Next(c, s, a))
  {
    StepOwner(c, s, a);
    StepWatch(c, s, a);
    StepWaiters(c, s, a);
    StepWake(c, s, a);
  }
}
