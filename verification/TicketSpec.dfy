/** The simple ticket lock with trylock as a state machine. A modulus of zero stands
    for counters that never wrap, any other for counters of that many values.
    `takers`, `holder` and `entered` are history. */
module TicketSpec {
  import opened Basics

  datatype Pc =
    | Idle
      // lock
    | WaitCur   // load cur_count, compare with the ticket
      // trylock
    | TryNext   // load next_count
    | TryCur    // load cur_count, compare
    | TryCas    // compare_exchange next_count
      // unlock
    | Critical  // load cur_count
    | StoreCur  // store cur_count + 1

  datatype Thread = Thread(pc: Pc, ticket: nat, cur: nat)

  datatype State = State(
    modulus: nat, next: nat, cur: nat, threads: seq<Thread>,
    takers: seq<nat>, holder: Option<nat>, entered: seq<nat>)

  datatype Action =
    | Lock(t: nat)      // lock: fetch_add next_count
    | TryLock(t: nat)
    | Step(t: nat)
    | CasFails(t: nat)  // the weak compare_exchange may fail although the values agree

  function Init(modulus: nat, threads: nat): State {
    State(modulus, 0, 0, seq(threads, _ => Thread(Idle, 0, 0)), [], None, [])
  }

  function Succ(x: nat, modulus: nat): nat {
    if modulus == 0 then x + 1 else (x + 1) % modulus
  }

  predicate Enabled(s: State, a: Action) {
    && a.t < |s.threads|
    && var pc := s.threads[a.t].pc;
       match a
       case Lock(_) => pc == Idle
       case TryLock(_) => pc == Idle
       case Step(_) => pc != Idle
       case CasFails(_) => pc == TryCas
  }

  function Put(s: State, t: nat, th: Thread): State
    requires t < |s.threads|
  {
    s.(threads := s.threads[t := th])
  }

  function Enter(s: State, t: nat): State {
    s.(holder := Some(t), entered := s.entered + [t])
  }

  function Draw(s: State, t: nat): State {
    s.(next := Succ(s.next, s.modulus), takers := s.takers + [t])
  }

  function NextStep(s: State, t: nat): State
    requires t < |s.threads|
  {
    var th := s.threads[t];
    match th.pc
    case Idle => s
    case WaitCur => if s.cur == th.ticket then Enter(Put(s, t, th.(pc := Critical)), t) else s
    case TryNext => Put(s, t, th.(pc := TryCur, ticket := s.next))
    case TryCur => Put(s, t, th.(pc := if th.ticket == s.cur then TryCas else Idle))
    case TryCas =>
      if s.next == th.ticket then Enter(Draw(Put(s, t, th.(pc := Critical)), t), t)
      else Put(s, t, th.(pc := Idle))
    case Critical => Put(s, t, th.(pc := StoreCur, cur := s.cur))
    case StoreCur => Put(s, t, th.(pc := Idle)).(cur := Succ(th.cur, s.modulus), holder := None)
  }

  function Next(s: State, a: Action): State
    requires Enabled(s, a)
  {
    var th := s.threads[a.t];
    match a
    case Lock(t) => Draw(Put(s, t, th.(pc := WaitCur, ticket := s.next)), t)
    case TryLock(t) => Put(s, t, th.(pc := TryNext))
    case Step(t) => NextStep(s, t)
    case CasFails(t) => Put(s, t, th.(pc := Idle))
  }

  // ----- runs ----------------------------------------------------------------------

  predicate Runs(s: State, acts: seq<Action>)
    decreases acts
  {
    acts == [] || (Enabled(s, acts[0]) && Runs(Next(s, acts[0]), acts[1..]))
  }

  function Exec(s: State, acts: seq<Action>): State
    requires Runs(s, acts)
    decreases acts
  {
    if acts == [] then s else Exec(Next(s, acts[0]), acts[1..])
  }

  lemma {:induction false} RunsAppend(s: State, acts: seq<Action>, a: Action)
    requires Runs(s, acts) && Enabled(Exec(s, acts), a)
    ensures Runs(s, acts + [a]) && Exec(s, acts + [a]) == Next(Exec(s, acts), a)
    decreases acts
  {
    if acts != [] {
      assert (acts + [a])[1..] == acts[1..] + [a];
      RunsAppend(Next(s, acts[0]), acts[1..], a);
    }
  }

  // ----- the invariant, for counters that do not wrap --------------------------------

  /** Has drawn a ticket that is not yet given back. */
  predicate HasTicket(pc: Pc) {
    pc in {WaitCur, Critical, StoreCur}
  }

  predicate InCritical(pc: Pc) {
    pc in {Critical, StoreCur}
  }

  ghost predicate ThreadOf(s: State, t: nat)
    requires t < |s.threads|
  {
    var th := s.threads[t];
    && (HasTicket(th.pc) ==> s.cur <= th.ticket < |s.takers| && s.takers[th.ticket] == t)
    && (InCritical(th.pc) <==> s.holder == Some(t))
    && (InCritical(th.pc) ==> th.ticket == s.cur)
    && (th.pc == StoreCur ==> th.cur == s.cur)
    && (th.pc in {TryCur, TryCas} ==> th.ticket <= s.next && th.ticket <= s.cur + |s.threads|)
    && (th.pc == TryCas ==> th.ticket <= s.cur)
  }

  ghost predicate Takes(s: State, t: nat, k: nat) {
    t < |s.threads| && HasTicket(s.threads[t].pc) && s.threads[t].ticket == k
  }

  ghost predicate Inv(s: State) {
    && s.modulus == 0 && s.next == |s.takers| && s.cur <= s.next
    && (forall t :: 0 <= t < |s.threads| ==> ThreadOf(s, t))
    && (forall k :: s.cur <= k < |s.takers| ==> Takes(s, s.takers[k], k))
    && (s.holder.Some? ==> s.holder.value < |s.threads| && InCritical(s.threads[s.holder.value].pc))
    && |s.entered| == s.cur + (if s.holder.Some? then 1 else 0) && s.entered <= s.takers
  }

  lemma InitInv(threads: nat)
    ensures Inv(Init(0, threads))
  {
  }

  lemma TicketsBound(s: State)
    requires Inv(s)
    ensures s.next - s.cur <= |s.threads|
  {
    var xs := s.takers[s.cur..];
    forall j | 0 <= j < |xs|
      ensures Takes(s, xs[j], s.cur + j)
    {
      assert Takes(s, s.takers[s.cur + j], s.cur + j);
    }
    Pigeonhole(xs, |s.threads|);
  }

  lemma HolderServed(s: State)
    requires Inv(s)
    ensures s.holder.Some? ==> s.cur < s.next && s.takers[s.cur] == s.holder.value
  {
    if s.holder.Some? {
      assert ThreadOf(s, s.holder.value);
    }
  }

  /** A trylock whose compare_exchange succeeds takes the ticket being served, though
      its two loads are not atomic together: nobody else has a ticket. */
  lemma CasTakesServedTicket(s: State, t: nat)
    requires Inv(s) && t < |s.threads| && s.threads[t].pc == TryCas && s.next == s.threads[t].ticket
    ensures s.threads[t].ticket == s.cur == s.next && s.holder == None
  {
    assert ThreadOf(s, t);
    HolderServed(s);
  }

  lemma FrontIsFree(s: State, t: nat)
    requires Inv(s) && t < |s.threads| && s.threads[t].pc == WaitCur && s.threads[t].ticket == s.cur
    ensures s.holder == None
  {
    assert ThreadOf(s, t);
    HolderServed(s);
  }

  lemma DrawInv(s: State, t: nat)
    requires Inv(s) && Enabled(s, Lock(t))
    ensures Inv(Next(s, Lock(t)))
  {
    var s' := Next(s, Lock(t));
    forall u | 0 <= u < |s'.threads|
      ensures ThreadOf(s', u)
    {
      assert ThreadOf(s, u);
    }
  }

  lemma WaitInv(s: State, t: nat)
    requires Inv(s) && t < |s.threads| && s.threads[t].pc == WaitCur
    ensures Inv(NextStep(s, t))
  {
    var s' := NextStep(s, t);
    assert ThreadOf(s, t);
    if s.cur == s.threads[t].ticket {
      FrontIsFree(s, t);
    }
    forall u | 0 <= u < |s'.threads|
      ensures ThreadOf(s', u)
    {
      assert ThreadOf(s, u);
    }
  }

  lemma CasInv(s: State, t: nat)
    requires Inv(s) && t < |s.threads| && s.threads[t].pc == TryCas && s.next == s.threads[t].ticket
    ensures Inv(NextStep(s, t))
  {
    var s' := NextStep(s, t);
    CasTakesServedTicket(s, t);
    forall u | 0 <= u < |s'.threads|
      ensures ThreadOf(s', u)
    {
      assert ThreadOf(s, u);
    }
  }

  /** The loads, and the attempts that fail, change one thread without a ticket. */
  lemma TryInv(s: State, t: nat, th: Thread)
    requires Inv(s) && t < |s.threads| && s.threads[t].pc in {Idle, TryNext, TryCur, TryCas}
    requires th.pc in {Idle, TryNext, TryCur, TryCas}
    requires th.pc in {TryCur, TryCas} ==> th.ticket <= s.next && th.ticket <= s.cur + |s.threads|
    requires th.pc == TryCas ==> th.ticket <= s.cur
    ensures Inv(Put(s, t, th))
  {
    var s' := Put(s, t, th);
    assert ThreadOf(s, t);
    forall u | 0 <= u < |s'.threads|
      ensures ThreadOf(s', u)
    {
      assert ThreadOf(s, u);
    }
  }

  lemma UnlockInv(s: State, t: nat)
    requires Inv(s) && t < |s.threads| && InCritical(s.threads[t].pc)
    ensures Inv(NextStep(s, t))
  {
    var s' := NextStep(s, t);
    assert ThreadOf(s, t);
    forall u | 0 <= u < |s'.threads|
      ensures ThreadOf(s', u)
    {
      assert ThreadOf(s, u);
    }
  }

  lemma StepInv(s: State, a: Action)
    requires Inv(s) && Enabled(s, a)
    ensures Inv(Next(s, a))
  {
    assert ThreadOf(s, a.t);
    var pc := s.threads[a.t].pc;
    if a.Lock? {
      DrawInv(s, a.t);
    } else if pc == WaitCur {
      WaitInv(s, a.t);
    } else if InCritical(pc) {
      UnlockInv(s, a.t);
    } else if a.Step? && pc == TryCas && s.next == s.threads[a.t].ticket {
      CasInv(s, a.t);
    } else {
      TicketsBound(s);
      TryInv(s, a.t, Next(s, a).threads[a.t]);
    }
  }
}
