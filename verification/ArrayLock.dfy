/** The words of the array lock: 128 flags and two 32-bit counters, with one method
    per access, each taking one step of ArraySpec. */
module ArrayLock {
  import opened Basics
  import opened ArraySpec
  import opened ArrayTheorems

  const UNLOCKED: u32 := 1
  const LOCKED: u32 := 0

  /** I_AEPFL_MAX_THREADS: the number of flags and of threads. */
  const MAX_THREADS: nat := 128

  /** Waiters this close to the head are not meant to yield. */
  const PAUSE_BOUND: nat := 2

  /** The slot of a wrapped counter is the slot of the ticket: 128 divides 2^32. */
  lemma SlotExact(ticket: nat)
    ensures (ticket % U32) % MAX_THREADS == ticket % MAX_THREADS
  {
    ModOfMod(ticket, MAX_THREADS, U32 / MAX_THREADS);
  }

  /** Applied to a ticket's slot: the slot of the next ticket. */
  function GetNextSlot(slot: u32): (next: u32)
    ensures next < 128
    ensures forall ticket: nat :: slot == ticket % 128 ==> next == (ticket + 1) % 128
  {
    (slot + 1) % MAX_THREADS
  }

  // ----- the waiting hint ------------------------------------------------------------

  /** slot -= head and its comparison, on 32 bits. */
  predicate Near(slot: u32, head: u32) {
    (slot + U32 - head) % U32 <= PAUSE_BOUND
  }

  /** The 32-bit difference is the queue distance d while the wrapped ticket is its own
      slot, and otherwise at least 128 more. */
  lemma HintValue(ticket: nat, head: nat)
    requires head <= ticket < head + MAX_THREADS
    ensures Near(ticket % U32 % MAX_THREADS, head % U32) <==>
              ticket % U32 < MAX_THREADS && ticket - head <= PAUSE_BOUND
  {
    var low, h, d := ticket % U32, head % U32, ticket - head;
    var q, slot := low / MAX_THREADS, low % MAX_THREADS;
    assert low == q * MAX_THREADS + slot;
    WrappedSum(head, d);
    if q == 0 {
      MultipleMod(1, d, U32);
      MultipleMod(0, d, U32);
    } else {
      assert low == h + d;
      MultipleMod(0, slot + U32 - h, U32);
    }
  }

  lemma WrappedSum(a: nat, d: nat)
    requires d < U32
    ensures (a + d) % U32 == if a % U32 + d < U32 then a % U32 + d else a % U32 + d - U32
  {
    var q, r := a / U32, a % U32;
    assert a == q * U32 + r;
    if r + d < U32 {
      MultipleMod(q, r + d, U32);
    } else {
      assert a + d == (q + 1) * U32 + (r + d - U32);
      MultipleMod(q + 1, r + d - U32, U32);
    }
  }

  /** A thread about to look at head is at most 127 tickets behind it. */
  lemma QueueDistance(s: State, t: nat)
    requires Inv(s) && |s.flags| == MAX_THREADS && t < |s.threads| && s.threads[t].pc == ArraySpec.LoadHead
    ensures s.head <= s.threads[t].ticket < s.head + MAX_THREADS
  {
    assert TicketOf(s, t);
    TicketsFit(s);
    if s.holder.Some? {
      assert TicketOf(s, s.holder.value);
    }
  }

  /** The hint tells who is within two tickets of head exactly if the wrapped ticket is
      below 128, as it is once in 2^32 tickets, or the thread is not that near. */
  lemma HintRightExactly(s: State, t: nat)
    requires Inv(s) && |s.flags| == MAX_THREADS && t < |s.threads| && s.threads[t].pc == ArraySpec.LoadHead
    ensures var ticket := s.threads[t].ticket;
            (Near(ticket % U32 % 128, s.head % U32) <==> ticket - s.head <= 2) <==>
            (ticket % U32 < 128 || ticket - s.head > 2)
  {
    QueueDistance(s, t);
    HintValue(s.threads[t].ticket, s.head);
  }

  /** k tickets have been served and nobody uses the lock. */
  ghost predicate Quiet(s: State, k: nat) {
    && Inv(s) && |s.flags| == MAX_THREADS && |s.threads| == 2
    && s.threads[0].pc == Idle && s.threads[1].pc == Idle
    && s.tail == s.served == s.head == k
  }

  /** Thread 0 draws a ticket and enters. */
  lemma EnterRun(s0: State, acts: seq<Action>, s: State, k: nat) returns (more: seq<Action>, s': State)
    requires Reaches(s0, acts, s) && Quiet(s, k)
    ensures Reaches(s0, more, s') && Inv(s') && |s'.flags| == MAX_THREADS && |s'.threads| == 2
    ensures s'.threads[0].pc == Critical && s'.threads[1].pc == Idle && s'.head == s'.served == k && s'.tail == k + 1
  {
    var s1 := Next(s, Arrive(0));
    ReachesStep(s0, acts, s, Arrive(0));
    StepInv(s, Arrive(0));
    FlagIsOwn(s1, 0);
    s' := Next(s1, Step(0));
    ReachesStep(s0, acts + [Arrive(0)], s1, Step(0));
    StepInv(s1, Step(0));
    more := acts + [Arrive(0)] + [Step(0)];
  }

  lemma LeaveRun(s0: State, acts: seq<Action>, s: State, k: nat) returns (more: seq<Action>, s': State)
    requires Reaches(s0, acts, s) && Inv(s) && |s.flags| == MAX_THREADS && |s.threads| == 2
    requires s.threads[0].pc == Critical && s.threads[1].pc == Idle && s.head == s.served == k && s.tail == k + 1
    ensures Reaches(s0, more, s') && Quiet(s', k + 1)
  {
    var s1 := Next(s, Step(0));
    StepInv(s, Step(0));
    ReachesStep(s0, acts, s, Step(0));
    var s2 := Next(s1, Step(0));
    StepInv(s1, Step(0));
    ReachesStep(s0, acts + [Step(0)], s1, Step(0));
    s' := Next(s2, Step(0));
    StepInv(s2, Step(0));
    ReachesStep(s0, acts + [Step(0)] + [Step(0)], s2, Step(0));
    more := acts + [Step(0)] + [Step(0)] + [Step(0)];
  }

  lemma {:induction false} QuietRun(k: nat) returns (acts: seq<Action>, s: State)
    ensures Reaches(Init(MAX_THREADS, 2), acts, s) && Quiet(s, k)
  {
    acts, s := [], Init(MAX_THREADS, 2);
    if k == 0 {
      InitInv(MAX_THREADS, 2);
    } else {
      acts, s := QuietRun(k - 1);
      acts, s := EnterRun(Init(MAX_THREADS, 2), acts, s, k - 1);
      acts, s := LeaveRun(Init(MAX_THREADS, 2), acts, s, k - 1);
    }
  }

  /** The hint fails for every ticket that is not below 128 when wrapped, and first for
      ticket 128: its thread is next in the queue and is told that it is not. */
  lemma HintFails(k: nat) returns (acts: seq<Action>, s: State)
    requires 128 <= (k + 1) % U32
    ensures Reaches(Init(MAX_THREADS, 2), acts, s) && |s.threads| == 2 && s.threads[1].pc == ArraySpec.LoadHead
    ensures s.threads[1].ticket == s.head + 1 == k + 1
    ensures !Near(s.threads[1].ticket % U32 % 128, s.head % U32)
  {
    acts, s := QuietRun(k);
    acts, s := EnterRun(Init(MAX_THREADS, 2), acts, s, k);
    ReachesStep(Init(MAX_THREADS, 2), acts, s, Arrive(1));
    StepInv(s, Arrive(1));
    acts, s := acts + [Arrive(1)], Next(s, Arrive(1));
    FlagIsOwn(s, 1);
    ReachesStep(Init(MAX_THREADS, 2), acts, s, Step(1));
    acts, s := acts + [Step(1)], Next(s, Step(1));
    HintValue(k + 1, k);
  }

  class Lock {
    var tail: u32
    var head: u32
    const flags: array<u32>
    ghost const threads: nat
    ghost var history: seq<Action>
    ghost var spec: State

    ghost predicate Valid()
      reads this, flags
    {
      && Reached() && tail == spec.tail % U32 && head == spec.head % U32
      && flags.Length == |spec.flags| == MAX_THREADS
      && forall i :: 0 <= i < flags.Length ==> flags[i] == if spec.flags[i] then UNLOCKED else LOCKED
    }

    /** spec is the state of a run of the unbounded machine. */
    ghost predicate Reached()
      reads this
    {
      threads <= MAX_THREADS && Reaches(Init(MAX_THREADS, threads), history, spec)
    }

    ghost method Take(a: Action)
      requires Reached() && Enabled(spec, a)
      modifies this`spec, this`history
      ensures Reached() && spec == Next(old(spec), a) && history == old(history) + [a]
    {
      ReachesStep(Init(MAX_THREADS, threads), history, spec, a);
      history := history + [a];
      spec := Next(spec, a);
    }

    lemma ReachedInv()
      requires Reached()
      ensures Inv(spec)
    {
      InitInv(MAX_THREADS, threads);
      ReachesRun(Init(MAX_THREADS, threads), history, spec);
      RunInv(Init(MAX_THREADS, threads), history);
    }

    ghost predicate At(t: nat, pc: Pc)
      reads this
    {
      t < |spec.threads| && spec.threads[t].pc == pc
    }

    constructor (ghost threads: nat)
      requires threads <= MAX_THREADS
      ensures Valid() && spec == Init(128, threads) && flags.Length == 128
    {
      tail, head := 0, 0;
      flags := new u32[MAX_THREADS](i => if i == 0 then UNLOCKED else LOCKED);
      this.threads := threads;
      history, spec := [], Init(MAX_THREADS, threads);
    }

    // lock

    method FetchAddTail(ghost t: nat) returns (slot: u32)
      requires Valid() && At(t, Idle)
      modifies this
      ensures Valid() && spec == Next(old(spec), Arrive(t))
      ensures slot == spec.threads[t].ticket % MAX_THREADS
    {
      slot := tail % MAX_THREADS;
      SlotExact(spec.tail);
      WrapSucc(spec.tail, U32);
      tail := (tail + 1) % U32;
      Take(Arrive(t));
    }

    method LoadFlag(ghost t: nat, slot: u32) returns (unlocked: bool)
      requires Valid() && (At(t, TestFlag) || At(t, SpinFlag))
      requires slot == spec.threads[t].ticket % MAX_THREADS
      modifies this`spec, this`history
      ensures Valid() && spec == Next(old(spec), Step(t))
      ensures unlocked == At(t, Critical)
      ensures unlocked <==> flags[slot] != LOCKED
      ensures unlocked <==> old(spec.threads[t].ticket == spec.served && spec.holder == None)
    {
      unlocked := flags[slot] != LOCKED;
      ReachedInv();
      FlagIsOwn(spec, t);
      Take(Step(t));
    }

    /** How the thread waits. head is not reduced to a slot, so the hint is right for the
        wrapped tickets below 128 only: see HintRightExactly. */
    method IsNear(ghost t: nat, slot: u32) returns (near: bool)
      requires Valid() && At(t, ArraySpec.LoadHead) && slot == spec.threads[t].ticket % MAX_THREADS
      modifies this`spec, this`history
      ensures Valid() && spec == Next(old(spec), Step(t))
      ensures At(t, SpinFlag)
      ensures near <==> spec.threads[t].ticket % U32 < 128 && spec.threads[t].ticket - spec.head <= 2
    {
      near := (slot + U32 - head) % U32 <= PAUSE_BOUND;
      ReachedInv();
      QueueDistance(spec, t);
      SlotExact(spec.threads[t].ticket);
      HintValue(spec.threads[t].ticket, spec.head);
      Take(Step(t));
    }

    // unlock

    method FetchAddHead(ghost t: nat) returns (slot: u32)
      requires Valid() && At(t, Critical)
      modifies this
      ensures Valid() && spec == Next(old(spec), Step(t))
      ensures slot == spec.threads[t].slot == spec.threads[t].ticket % MAX_THREADS
    {
      slot := head % MAX_THREADS;
      SlotExact(spec.head);
      WrapSucc(spec.head, U32);
      ReachedInv();
      assert TicketOf(spec, t);
      head := (head + 1) % U32;
      Take(Step(t));
    }

    method StoreLocked(ghost t: nat, slot: u32)
      requires Valid() && At(t, ClearFlag) && slot == spec.threads[t].slot
      modifies this`spec, this`history, flags
      ensures Valid() && spec == Next(old(spec), Step(t))
    {
      ReachedInv();
      assert TicketOf(spec, t);
      flags[slot] := LOCKED;
      Take(Step(t));
    }

    method StoreUnlocked(ghost t: nat, slot: u32)
      requires Valid() && At(t, SetFlag) && slot == spec.threads[t].slot
      modifies this`spec, this`history, flags
      ensures Valid() && spec == Next(old(spec), Step(t))
      ensures flags[spec.served % 128] == UNLOCKED
    {
      var next := GetNextSlot(slot);
      ReachedInv();
      assert TicketOf(spec, t);
      NextSlot(spec.served, MAX_THREADS);
      flags[next] := UNLOCKED;
      Take(Step(t));
    }
  }
}
