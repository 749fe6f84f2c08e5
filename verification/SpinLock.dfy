/** The words of a spin, yield or futex lock and the kernel records of its threads,
    with one method per access or system call, each taking one step of SpinSpec. */
module SpinLock {
  import opened Basics
  import opened SpinSpec
  import opened SpinInv
  import opened SpinTheorems
  import C = SpinCalls

  class Lock {
    var mem: nat
    var waiters: u32
    const records: array<Watch>     // k_autolock_mem of every thread
    const config: Config
    ghost const threads: nat
    ghost var history: seq<Action>
    ghost var spec: State

    ghost predicate Valid()
      reads this, records
    {
      && Reached() && mem == spec.mem && waiters == spec.waiters
      && records.Length == |spec.threads|
      && forall t :: 0 <= t < records.Length ==> records[t] == spec.threads[t].watch
    }

    /** spec is the state of a run of the machine. */
    ghost predicate Reached()
      reads this
    {
      Build(config) && threads < U32 && Reaches(config, Init(config, threads), history, spec)
    }

    ghost method Take(a: Action)
      requires Reached() && Enabled(spec, a)
      modifies this`spec, this`history
      ensures Reached() && spec == Next(config, old(spec), a) && history == old(history) + [a]
    {
      ReachesStep(config, Init(config, threads), history, spec, a);
      history := history + [a];
      spec := Next(config, spec, a);
    }

    lemma ReachedInv()
      requires Reached()
      ensures Inv(config, spec)
    {
      InitInv(config, threads);
      ReachesRun(config, Init(config, threads), history, spec);
      RunInv(config, Init(config, threads), history);
    }

    /** A trylock that has not returned is still in its first try. */
    lemma CallsKnown(t: nat)
      requires Reached() && t < |spec.threads|
      ensures C.CallOf(spec.threads[t])
    {
      C.InitCalls(config, threads);
      ReachesRun(config, Init(config, threads), history, spec);
      C.RunCalls(config, Init(config, threads), history);
    }

    ghost predicate At(t: nat, pc: Pc)
      reads this
    {
      t < |spec.threads| && spec.threads[t].pc == pc
    }

    constructor (config: Config, threads: nat)
      requires Build(config) && threads < U32
      ensures Valid() && spec == Init(config, threads)
    {
      mem := config.unlocked;
      waiters := 0;
      records := new Watch[threads](_ => Watch(false, 0, 0));
      this.config, this.threads := config, threads;
      history, spec := [], Init(config, threads);
    }

    /** A call of lock, or of trylock. */
    ghost method Call(t: nat, tryOnly: bool)
      requires Valid() && At(t, Idle)
      modifies this`spec, this`history
      ensures Valid() && spec == Next(config, old(spec), if tryOnly then TryLock(t) else SpinSpec.Lock(t))
      ensures At(t, LoadMem) && spec.threads[t].tryOnly == tryOnly
    {
      Take(if tryOnly then TryLock(t) else SpinSpec.Lock(t));
    }

    method LoadWord(ghost t: nat) returns (locked: bool)
      requires Valid() && At(t, LoadMem)
      modifies this`spec, this`history
      ensures Valid() && spec == Next(config, old(spec), Step(t))
      ensures !locked <==> At(t, Disarm) || At(t, Exchange)
      ensures locked <==> spec.owner.Some?
      ensures locked <==> mem == config.locked
      ensures locked && old(spec.threads[t].tryOnly) ==> At(t, Idle)
      ensures locked && !old(spec.threads[t].tryOnly) ==> Contends(spec.threads[t].pc)
      ensures old(spec.threads[t].tryOnly) ==> OnlyPlaceChanges(old(spec), spec, t)
    {
      ReachedInv();
      CallsKnown(t);
      if spec.threads[t].tryOnly {
        C.TrylockAnswers(config, spec, t);
      } else {
        C.LockStays(config, spec, t);
      }
      locked := mem == config.locked;
      Take(Step(t));
    }

    method ExchangeWord(ghost t: nat) returns (won: bool)
      requires Valid() && At(t, Exchange)
      modifies this
      ensures Valid() && spec == Next(config, old(spec), Step(t))
      ensures won == At(t, Critical)
      ensures won ==> old(spec.owner) == None && spec.owner == Some(t) && !records[t].armed
      ensures won <==> old(mem) != config.locked
      ensures mem == config.locked && waiters == old(waiters)
      ensures !won ==> mem == old(mem) && spec.owner == old(spec.owner)
      ensures !won && old(spec.threads[t].tryOnly) ==> At(t, Idle) && OnlyPlaceChanges(old(spec), spec, t)
      ensures !won && !old(spec.threads[t].tryOnly) ==> Contends(spec.threads[t].pc)
    {
      ReachedInv();
      CallsKnown(t);
      if spec.threads[t].tryOnly {
        C.TrylockAnswers(config, spec, t);
      } else {
        C.LockStays(config, spec, t);
      }
      assert WatchOf(config, spec.threads[t]);
      won := mem != config.locked;
      mem := config.locked;
      Take(Step(t));
    }

    /** Arming and disarming: watch_mem is &lock->mem or NULL. */
    method SetWatchMem(t: nat, armed: bool)
      requires Valid() && At(t, if armed then Arm else Disarm)
      modifies this`spec, this`history, records
      ensures Valid() && spec == Next(config, old(spec), Step(t))
      ensures armed ==> records[t] == Watch(true, config.unlocked, 0)
      ensures !armed ==> Schedulable(spec, t)
    {
      ReachedInv();
      assert WatchOf(config, spec.threads[t]);
      records[t] := records[t].(armed := armed);
      CountedKeepsWatch(config, spec.threads[t].(watch := records[t]));
      Take(Step(t));
    }

    method SetWatchFor(t: nat)
      requires Valid() && At(t, SetFor)
      modifies this`spec, this`history, records
      ensures Valid() && spec == Next(config, old(spec), Step(t))
    {
      records[t] := records[t].(value := config.unlocked);
      Take(Step(t));
    }

    method SetWatchNeq(t: nat)
      requires Valid() && At(t, SetNeq)
      modifies this`spec, this`history, records
      ensures Valid() && spec == Next(config, old(spec), Step(t))
    {
      records[t] := records[t].(neq := 0);
      Take(Step(t));
    }

    method FetchAddWaiters(ghost t: nat)
      requires Valid() && At(t, AddWaiter)
      modifies this
      ensures Valid() && spec == Next(config, old(spec), Step(t))
      ensures waiters == old(waiters) + 1 == |AnnouncedSet(spec)|
    {
      ReachedInv();
      AnnouncedBound(spec, t);
      SetJoined(AnnouncedSet(spec), t);
      NoWrap(waiters);
      waiters := (waiters + 1) % U32;
      Take(Step(t));
      ReachedInv();
    }

    method FetchSubWaiters(ghost t: nat)
      requires Valid() && At(t, SubWaiter)
      modifies this
      ensures Valid() && spec == Next(config, old(spec), Step(t))
      ensures waiters + 1 == old(waiters)
    {
      ReachedInv();
      assert t in AnnouncedSet(spec);
      waiters := (waiters + U32 - 1) % U32;
      Take(Step(t));
    }

    /** futex_wait compares and sleeps in one step. */
    method FutexSleep(ghost t: nat) returns (sleeps: bool)
      requires Valid() && At(t, FutexWait)
      modifies this`spec, this`history
      ensures Valid() && spec == Next(config, old(spec), Step(t))
      ensures sleeps == At(t, Asleep)
      ensures sleeps <==> mem == config.locked
      ensures sleeps ==> spec.owner.Some? && waiters > 0
    {
      ReachedInv();
      sleeps := mem == config.locked;
      Take(Step(t));
      ReachedInv();
      if sleeps {
        SleeperAnnounced(config, spec, t);
      }
    }

    /** futex_wait returns although nobody woke the thread. */
    ghost method SpuriousWake(t: nat)
      requires Valid() && At(t, Asleep)
      modifies this`spec, this`history
      ensures Valid() && spec == Next(config, old(spec), Spurious(t))
    {
      Take(Spurious(t));
    }

    // unlock

    method StoreUnlocked(ghost t: nat)
      requires Valid() && At(t, Critical)
      modifies this
      ensures Valid() && spec == Next(config, old(spec), Step(t))
      ensures mem == config.unlocked && At(t, if config.futex then LoadWaiters else Idle)
      ensures old(spec.owner) == Some(t) && spec.owner == None
      ensures forall u :: 0 <= u < records.Length && Awake(spec, u) ==> CanRun(spec, u)
    {
      ReachedInv();
      mem := config.unlocked;
      Take(Step(t));
      ReachedInv();
      forall u | 0 <= u < records.Length && Awake(spec, u)
        ensures CanRun(spec, u)
      {
        UnlockedAllRun(config, spec, u);
      }
    }

    method LoadWaiterCount(ghost t: nat) returns (some: bool)
      requires Valid() && At(t, LoadWaiters)
      modifies this`spec, this`history
      ensures Valid() && spec == Next(config, old(spec), Step(t))
      ensures some == At(t, Wake)
      ensures some <==> waiters != 0
      ensures SomeSleeps(spec) ==> some
    {
      some := waiters != 0;
      Take(Step(t));
      ReachedInv();
      if SomeSleeps(spec) {
        ghost var u :| 0 <= u < |spec.threads| && Sleeps(spec, u);
        SleeperAnnounced(config, spec, u);
      }
    }

    /** futex_wake(1): the kernel picks a sleeper, if there is one. */
    ghost method FutexWakeOne(t: nat, sleeper: nat)
      requires Valid() && At(t, Wake) && (Sleeps(spec, sleeper) || !SomeSleeps(spec))
      modifies this`spec, this`history
      ensures Valid()
      ensures spec == Next(config, old(spec), if old(SomeSleeps(spec)) then WakeOne(t, sleeper) else Step(t))
    {
      Take(if SomeSleeps(spec) then WakeOne(t, sleeper) else Step(t));
    }
  }

  /** The step has changed t's place in the code and nothing else: not the word, the counter,
      the owner, a record or another thread. */
  ghost predicate OnlyPlaceChanges(s: State, s': State, t: nat) {
    && t < |s.threads| == |s'.threads|
    && s' == s.(threads := s.threads[t := s.threads[t].(pc := s'.threads[t].pc)])
  }

  lemma CountedKeepsWatch(c: Config, th: Thread)
    ensures Counted(c, th).watch == th.watch
  {
  }
}
