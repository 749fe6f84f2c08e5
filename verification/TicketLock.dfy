/** The two 32-bit counters of the ticket lock, with one method per access, each taking
    one step of TicketSpec with counters of 2^32 values. What follows for the lock while
    no trylock is delayed too long is in the lemmas of the class. */
module TicketLock {
  import opened Basics
  import opened TicketSpec
  import opened TicketTheorems
  import opened TicketWrap

  class Lock {
    var curCount: u32
    var nextCount: u32
    ghost const threads: nat
    ghost var history: seq<Action>
    ghost var spec: State

    ghost predicate Valid()
      reads this
    {
      Reached() && spec.modulus == U32 && curCount == spec.cur && nextCount == spec.next
    }

    /** spec is the state of a run of the machine. */
    ghost predicate Reached()
      reads this
    {
      threads < U32 && Reaches(Init(U32, threads), history, spec)
    }

    ghost method Take(a: Action)
      requires Reached() && Enabled(spec, a)
      modifies this`spec, this`history
      ensures Reached() && spec == Next(old(spec), a) && history == old(history) + [a]
    {
      ReachesStep(Init(U32, threads), history, spec, a);
      history := history + [a];
      spec := Next(spec, a);
    }

    ghost predicate At(t: nat, pc: Pc)
      reads this
    {
      t < |spec.threads| && spec.threads[t].pc == pc
    }

    /** No trylock has taken a step after 2^32 draws since its first load. */
    ghost predicate InTime()
      reads this
    {
      Timely(Init(0, threads), history, U32)
    }

    /** Then one thread at most is inside. */
    lemma Excludes()
      requires Reached() && InTime()
      ensures MutualExclusion(spec)
    {
      ReachesRun(Init(U32, threads), history, spec);
      TimelyRunsExclude(U32, threads, history);
    }

    /** Tickets drawn since the first load of the trylock of t. */
    ghost function DrawnSince(t: nat): int
      requires Runs(Init(0, threads), history) && t < |Exec(Init(0, threads), history).threads|
      reads this
    {
      var s := Exec(Init(0, threads), history);
      s.next - s.threads[t].ticket
    }

    /** And a compare_exchange that will succeed takes the ticket being served. */
    lemma CasTakesServed(t: nat)
      requires Reached() && InTime() && t < threads && At(t, TryCas) && spec.next == spec.threads[t].ticket
      ensures Runs(Init(0, threads), history) && t < |Exec(Init(0, threads), history).threads|
      ensures DrawnSince(t) < U32 ==> spec.threads[t].ticket == spec.cur && spec.holder == None
    {
      ReachesRun(Init(U32, threads), history, spec);
      TimelyCasTakesServed(U32, threads, history, t);
    }

    constructor (ghost threads: nat)
      requires threads < U32
      ensures Valid() && spec == Init(U32, threads)
    {
      curCount, nextCount := 0, 0;
      this.threads := threads;
      history, spec := [], Init(U32, threads);
    }

    // lock

    method FetchAddNext(ghost t: nat) returns (ticket: u32)
      requires Valid() && At(t, Idle)
      modifies this
      ensures Valid() && spec == Next(old(spec), TicketSpec.Lock(t))
      ensures ticket == spec.threads[t].ticket == old(nextCount) && At(t, WaitCur)
    {
      ticket := nextCount;
      nextCount := (nextCount + 1) % U32;
      Take(TicketSpec.Lock(t));
    }

    /** lock subtracts and compares with zero. */
    method LoadCur(ghost t: nat, ticket: u32) returns (mine: bool)
      requires Valid() && At(t, WaitCur) && ticket == spec.threads[t].ticket
      modifies this`spec, this`history
      ensures Valid() && spec == Next(old(spec), Step(t))
      ensures mine == At(t, Critical) == (ticket == curCount)
      ensures mine ==> spec.holder == Some(t)
    {
      mine := (curCount + U32 - ticket) % U32 == 0;
      Take(Step(t));
    }

    // trylock

    method TryLoadNext(ghost t: nat) returns (ticket: u32)
      requires Valid() && At(t, TryNext)
      modifies this`spec, this`history
      ensures Valid() && spec == Next(old(spec), Step(t))
      ensures ticket == spec.threads[t].ticket && At(t, TryCur)
    {
      ticket := nextCount;
      Take(Step(t));
    }

    method TryLoadCur(ghost t: nat, ticket: u32) returns (free: bool)
      requires Valid() && At(t, TryCur) && ticket == spec.threads[t].ticket
      modifies this`spec, this`history
      ensures Valid() && spec == Next(old(spec), Step(t))
      ensures free <==> ticket == curCount
      ensures At(t, if free then TryCas else Idle)
    {
      free := ticket == curCount;
      Take(Step(t));
    }

    /** The weak compare_exchange, which may fail without a reason. */
    method TryExchangeNext(ghost t: nat, ticket: u32, spurious: bool) returns (won: bool)
      requires Valid() && At(t, TryCas) && ticket == spec.threads[t].ticket
      modifies this
      ensures Valid() && spec == Next(old(spec), if spurious then CasFails(t) else Step(t))
      ensures won <==> !spurious && old(nextCount) == ticket
      ensures won ==> At(t, Critical) && spec.holder == Some(t) && nextCount == (ticket + 1) % U32
      ensures !won ==> At(t, Idle) && nextCount == old(nextCount) && spec.holder == old(spec.holder)
    {
      won := !spurious && nextCount == ticket;
      if won {
        nextCount := (ticket + 1) % U32;
      }
      Take(if spurious then CasFails(t) else Step(t));
    }

    // unlock

    method ReadCur(ghost t: nat) returns (cur: u32)
      requires Valid() && At(t, Critical)
      modifies this`spec, this`history
      ensures Valid() && spec == Next(old(spec), Step(t))
      ensures cur == spec.threads[t].cur == curCount && At(t, StoreCur)
    {
      cur := curCount;
      Take(Step(t));
    }

    method WriteCur(ghost t: nat, cur: u32)
      requires Valid() && At(t, StoreCur) && cur == spec.threads[t].cur
      modifies this
      ensures Valid() && spec == Next(old(spec), Step(t))
      ensures spec.holder == None && curCount == (cur + 1) % U32
    {
      curCount := (cur + 1) % U32;
      Take(Step(t));
    }
  }
}
