/** The spin, yield and futex locks with or without the kernel watch, as a state
    machine: one access to shared memory, or one system call, is one step. A Config
    selects the build; the two switches that no build has, `disarms` and
    `storesFirst` set to false, exist to show what the code's own comments claim:
    that without them the lock hangs. */
module SpinSpec {
  import opened Basics

  datatype Config = Config(
    locked: nat, unlocked: nat,   // the two values of mem
    auto: bool,                   // I_WITH_AUTOLOCK
    yieldLoop: bool, futex: bool,    // which waiting loops exist
    rawTries: nat,                // failures before the raw loop is left; 0: never
    yieldTries: nat,              // failures before the yield loop is left; 0: never
    retriesFirst: bool,           // whether the outer loop starts with the plain trylock
    disarms: bool,                // watch_mem = NULL before the exchange
    storesFirst: bool)            // unlock stores mem before it loads waiters

  /** internal/lock-base.h: PAUSE_ITERS is 128 and YIELD_ITERS 4, both counted past. */
  function Internal(auto: bool, yieldLoop: bool, futex: bool): (c: Config)
    ensures Build(c)
  {
    Config(0, 1, auto, yieldLoop, futex,
           if yieldLoop || futex then 129 else 0, if futex then 5 else 0, false, true, true)
  }

  /** lock_ops<max_raw_iter, max_yield_iter, _, with_yield, with_futex>. */
  function Template(raw: nat, yieldTries: nat, yieldLoop: bool, futex: bool): (c: Config)
    ensures Build(c)
  {
    Config(0, 1, false, yieldLoop, futex, raw, yieldTries, true, true, true)
  }

  /** What all builds have in common. */
  predicate Build(c: Config) {
    c.locked != c.unlocked && c.disarms && c.storesFirst && (c.retriesFirst ==> !c.auto)
  }

  datatype Pc =
    | Idle
      // lock and trylock
    | LoadMem        // load mem
    | Disarm         // store watch_mem = NULL
    | Exchange       // exchange mem with locked
    | Arm            // store watch_mem = &mem
    | SetFor         // store watch_for = unlocked
    | SetNeq         // store watch_neq = 0
    | AddWaiter      // fetch_add waiters
    | FutexWait      // futex_wait: sleep if mem is locked
    | Asleep
    | SubWaiter      // fetch_sub waiters
      // unlock
    | Critical       // store mem = unlocked
    | LoadWaiters    // load waiters
    | Wake           // futex_wake one
    | EarlyWaiters   // the forbidden order: mem is still to be stored

  /** Which loop of lock the thread is in. */
  datatype Phase = First | Raw | Yielding

  datatype Watch = Watch(armed: bool, value: nat, neq: nat)

  datatype Thread = Thread(pc: Pc, phase: Phase, tries: nat, tryOnly: bool, saw: bool, watch: Watch)

  /** `owner` is history. */
  datatype State = State(mem: nat, waiters: nat, threads: seq<Thread>, owner: Option<nat>)

  datatype Action =
    | Lock(t: nat)
    | TryLock(t: nat)
    | Step(t: nat)
    | WakeOne(t: nat, sleeper: nat)  // futex_wake finds a sleeper
    | Spurious(t: nat)               // futex_wait returns without a wake

  function Init(c: Config, threads: nat): State {
    State(c.unlocked, 0, seq(threads, _ => Thread(Idle, First, 0, false, false, Watch(false, 0, 0))), None)
  }

  predicate Sleeps(s: State, t: nat) {
    t < |s.threads| && s.threads[t].pc == Asleep
  }

  predicate SomeSleeps(s: State) {
    exists t :: 0 <= t < |s.threads| && Sleeps(s, t)
  }

  predicate Enabled(s: State, a: Action) {
    && a.t < |s.threads|
    && var pc := s.threads[a.t].pc;
       match a
       case Lock(_) => pc == Idle
       case TryLock(_) => pc == Idle
       case Step(_) => pc !in {Idle, Asleep} && (pc == Wake ==> !SomeSleeps(s))
       case WakeOne(_, w) => pc == Wake && Sleeps(s, w)
       case Spurious(_) => pc == Asleep
  }

  function Put(s: State, t: nat, th: Thread): State
    requires t < |s.threads|
  {
    s.(threads := s.threads[t := th])
  }

  /** Where a thread goes that starts over. */
  function Restart(c: Config, th: Thread): Thread {
    th.(pc := LoadMem, phase := if c.retriesFirst then First else Raw, tries := 0)
  }

  /** The end of a failed round of the raw or the yield loop. */
  function Counted(c: Config, th: Thread): (th': Thread)
    ensures th'.pc in {LoadMem, AddWaiter}
  {
    var limit := if th.phase == Raw then c.rawTries else c.yieldTries;
    if limit == 0 || th.tries + 1 < limit then th.(pc := LoadMem, tries := th.tries + 1)
    else if th.phase == Raw && c.yieldLoop then th.(pc := LoadMem, phase := Yielding, tries := 0)
    else if c.futex then th.(pc := AddWaiter)
    else Restart(c, th)
  }

  /** The word was locked: what the thread does next. */
  function Failed(c: Config, th: Thread): (th': Thread)
    ensures th'.pc in {Idle, LoadMem, Arm, SetFor, AddWaiter}
  {
    if th.phase == First then
      if th.tryOnly then th.(pc := Idle)
      else if c.auto then th.(pc := SetFor)
      else th.(pc := LoadMem, phase := Raw, tries := 0)
    else if c.auto then th.(pc := Arm)
    else Counted(c, th)
  }

  function NextStep(c: Config, s: State, t: nat): State
    requires t < |s.threads|
  {
    var th := s.threads[t];
    match th.pc
    case LoadMem =>
      Put(s, t, if s.mem == c.locked then Failed(c, th)
                else th.(pc := if c.auto && c.disarms && th.phase != First then Disarm else Exchange))
    case Disarm => Put(s, t, th.(pc := Exchange, watch := th.watch.(armed := false)))
    case Exchange =>
      if s.mem == c.locked then Put(s, t, Failed(c, th))
      else Put(s, t, th.(pc := Critical)).(mem := c.locked, owner := Some(t))
    case Arm => Put(s, t, Counted(c, th.(watch := th.watch.(armed := true))))
    case SetFor => Put(s, t, th.(pc := SetNeq, watch := th.watch.(value := c.unlocked)))
    case SetNeq => Put(s, t, th.(pc := LoadMem, phase := Raw, tries := 0, watch := th.watch.(neq := 0)))
    case AddWaiter => Put(s, t, th.(pc := FutexWait)).(waiters := (s.waiters + 1) % U32)
    case FutexWait => Put(s, t, th.(pc := if s.mem == c.locked then Asleep else SubWaiter))
    case SubWaiter => Put(s, t, Restart(c, th)).(waiters := (s.waiters + U32 - 1) % U32)
    case Critical =>
      if c.futex && !c.storesFirst then Put(s, t, th.(pc := EarlyWaiters, saw := s.waiters != 0))
      else Put(s, t, th.(pc := if c.futex then LoadWaiters else Idle)).(mem := c.unlocked, owner := None)
    case LoadWaiters => Put(s, t, th.(pc := if s.waiters != 0 then Wake else Idle))
    case Wake => Put(s, t, th.(pc := Idle))
    case EarlyWaiters =>
      Put(s, t, th.(pc := if th.saw then Wake else Idle)).(mem := c.unlocked, owner := None)
    case _ => s
  }

  function Next(c: Config, s: State, a: Action): State
    requires Enabled(s, a)
  {
    var th := s.threads[a.t];
    match a
    case Lock(t) => Put(s, t, th.(pc := LoadMem, phase := First, tries := 0, tryOnly := false))
    case TryLock(t) => Put(s, t, th.(pc := LoadMem, phase := First, tries := 0, tryOnly := true))
    case Step(t) => NextStep(c, s, t)
    case WakeOne(t, w) => Put(Put(s, t, th.(pc := Idle)), w, s.threads[w].(pc := SubWaiter))
    case Spurious(t) => Put(s, t, th.(pc := SubWaiter))
  }

  // ----- runs --------------------------------------------------------------------

  predicate Runs(c: Config, s: State, acts: seq<Action>)
    decreases acts
  {
    acts == [] || (Enabled(s, acts[0]) && Runs(c, Next(c, s, acts[0]), acts[1..]))
  }

  function Exec(c: Config, s: State, acts: seq<Action>): State
    requires Runs(c, s, acts)
    decreases acts
  {
    if acts == [] then s else Exec(c, Next(c, s, acts[0]), acts[1..])
  }

  lemma {:induction false} RunsAppend(c: Config, s: State, acts: seq<Action>, a: Action)
    requires Runs(c, s, acts) && Enabled(Exec(c, s, acts), a)
    ensures Runs(c, s, acts + [a]) && Exec(c, s, acts + [a]) == Next(c, Exec(c, s, acts), a)
    decreases acts
  {
    if acts != [] {
      assert (acts + [a])[1..] == acts[1..] + [a];
      RunsAppend(c, Next(c, s, acts[0]), acts[1..], a);
    }
  }

  // ----- the kernel ----------------------------------------------------------------

  /** The kernel may give the processor to a thread that is not armed, or whose
      watched word compares with the watched value as the record asks. */
  predicate Schedulable(s: State, t: nat)
    requires t < |s.threads|
  {
    var w := s.threads[t].watch;
    w.armed ==> ((s.mem == w.value) <==> (w.neq == 0))
  }

  /** A thread the kernel may run now, inside lock, trylock, the critical section or unlock. */
  predicate CanRun(s: State, t: nat) {
    t < |s.threads| && s.threads[t].pc !in {Idle, Asleep} && Schedulable(s, t)
  }
}
