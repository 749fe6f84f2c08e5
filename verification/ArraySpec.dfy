/** Anderson's array lock as a state machine over unbounded tickets and any number
    of slots. `served`, `takers`, `holder` and `entered` are history. */
module ArraySpec {
  import opened Basics

  datatype Pc =
    | Idle
      // lock
    | TestFlag   // load flags[slot]
    | LoadHead   // load head: how far back in the queue; the value only tunes the waiting
    | SpinFlag   // load flags[slot] until unlocked
      // unlock
    | Critical   // fetch_add head
    | ClearFlag  // store flags[slot] = LOCKED
    | SetFlag    // store flags[slot + 1] = UNLOCKED

  datatype Thread = Thread(pc: Pc, ticket: nat, slot: nat)

  datatype State = State(
    tail: nat, head: nat, flags: seq<bool>, threads: seq<Thread>,
    served: nat, takers: seq<nat>, holder: Option<nat>, entered: seq<nat>)

  datatype Action = Arrive(t: nat) | Step(t: nat)

  function Init(slots: nat, threads: nat): State {
    State(0, 0, seq(slots, i => i == 0), seq(threads, _ => Thread(Idle, 0, 0)), 0, [], None, [])
  }

  predicate Enabled(s: State, a: Action) {
    a.t < |s.threads| && |s.flags| > 0 && (a.Arrive? <==> s.threads[a.t].pc == Idle)
  }

  function Put(s: State, t: nat, th: Thread): State
    requires t < |s.threads|
  {
    s.(threads := s.threads[t := th])
  }

  /** A store out of bounds does not occur: the slot is the holder's, by Inv. */
  function StoreFlag(flags: seq<bool>, slot: nat, value: bool): seq<bool> {
    if slot < |flags| then flags[slot := value] else flags
  }

  /** The flag test, which on success enters the critical section. */
  function TryEnter(s: State, t: nat, otherwise: Pc): State
    requires t < |s.threads| && |s.flags| > 0
  {
    var th := s.threads[t];
    if s.flags[th.ticket % |s.flags|]
    then Put(s, t, th.(pc := Critical)).(holder := Some(t), entered := s.entered + [t])
    else Put(s, t, th.(pc := otherwise))
  }

  function Next(s: State, a: Action): State
    requires Enabled(s, a)
  {
    var t := a.t;
    var th := s.threads[t];
    match th.pc
    case Idle => Put(s, t, th.(pc := TestFlag, ticket := s.tail)).(tail := s.tail + 1, takers := s.takers + [t])
    case TestFlag => TryEnter(s, t, LoadHead)
    case LoadHead => Put(s, t, th.(pc := SpinFlag))
    case SpinFlag => TryEnter(s, t, SpinFlag)
    case Critical => Put(s, t, th.(pc := ClearFlag, slot := s.head % |s.flags|)).(head := s.head + 1)
    case ClearFlag =>
      Put(s, t, th.(pc := SetFlag)).(flags := StoreFlag(s.flags, th.slot, false))
    case SetFlag =>
      Put(s, t, th.(pc := Idle))
      .(flags := StoreFlag(s.flags, (th.slot + 1) % |s.flags|, true), served := s.served + 1, holder := None)
  }

  // ----- the invariant, for no more threads than slots ------------------------------

  predicate InCritical(pc: Pc) {
    pc in {Critical, ClearFlag, SetFlag}
  }

  ghost predicate TicketOf(s: State, t: nat)
    requires t < |s.threads| && |s.flags| > 0
  {
    var th := s.threads[t];
    && s.served <= th.ticket < |s.takers| && s.takers[th.ticket] == t
    && (InCritical(th.pc) <==> s.holder == Some(t))
    && (InCritical(th.pc) ==> th.ticket == s.served)
    && (th.pc in {ClearFlag, SetFlag} ==> th.slot == s.served % |s.flags|)
  }

  ghost predicate Takes(s: State, t: nat, k: nat) {
    t < |s.threads| && s.threads[t].pc != Idle && s.threads[t].ticket == k
  }

  /** The holder has raised head, and has cleared its own flag. */
  predicate HolderAt(s: State, pcs: set<Pc>) {
    s.holder.Some? && s.holder.value < |s.threads| && s.threads[s.holder.value].pc in pcs
  }

  ghost predicate Inv(s: State) {
    && |s.flags| > 0 && |s.threads| <= |s.flags|
    && s.tail == |s.takers| && s.served <= s.tail
    && (forall t :: 0 <= t < |s.threads| && s.threads[t].pc != Idle ==> TicketOf(s, t))
    && (forall k :: s.served <= k < |s.takers| ==> Takes(s, s.takers[k], k))
    && (s.holder.Some? ==> s.holder.value < |s.threads| && InCritical(s.threads[s.holder.value].pc))
    && s.head == s.served + (if HolderAt(s, {ClearFlag, SetFlag}) then 1 else 0)
    && (forall i :: 0 <= i < |s.flags| ==>
          s.flags[i] == (i == s.served % |s.flags| && !HolderAt(s, {SetFlag})))
    && |s.entered| == s.served + (if s.holder.Some? then 1 else 0) && s.entered <= s.takers
  }

  lemma InitInv(slots: nat, threads: nat)
    requires 0 < slots && threads <= slots
    ensures Inv(Init(slots, threads))
  {
  }

  /** No more tickets are out than there are threads, hence slots. */
  lemma TicketsFit(s: State)
    requires Inv(s)
    ensures s.tail - s.served <= |s.threads| <= |s.flags|
  {
    var xs := s.takers[s.served..];
    forall j | 0 <= j < |xs|
      ensures Takes(s, xs[j], s.served + j)
    {
      assert Takes(s, s.takers[s.served + j], s.served + j);
    }
    Pigeonhole(xs, |s.threads|);
  }

  /** A waiting thread finds its flag set exactly when its ticket is served and the
      lock is free: slots are never confused. */
  lemma FlagIsOwn(s: State, t: nat)
    requires Inv(s) && t < |s.threads| && s.threads[t].pc in {TestFlag, LoadHead, SpinFlag}
    ensures s.flags[s.threads[t].ticket % |s.flags|] <==> s.threads[t].ticket == s.served
    ensures s.threads[t].ticket == s.served ==> s.holder == None
  {
    assert TicketOf(s, t);
    TicketsFit(s);
    WrapExact(s.served, s.threads[t].ticket, |s.flags|);
    if s.holder.Some? {
      assert TicketOf(s, s.holder.value);
    }
  }

  lemma ArriveInv(s: State, t: nat)
    requires Inv(s) && Enabled(s, Arrive(t))
    ensures Inv(Next(s, Arrive(t)))
  {
  }

  lemma TestInv(s: State, t: nat)
    requires Inv(s) && Enabled(s, Step(t)) && s.threads[t].pc in {TestFlag, SpinFlag}
    requires s.flags[s.threads[t].ticket % |s.flags|]
    requires s.threads[t].ticket == s.served && s.holder == None
    ensures Inv(Next(s, Step(t)))
  {
    assert TicketOf(s, t);
  }

  /** A test that fails, or the look at head, moves the thread on. */
  lemma StillWaitsInv(s: State, t: nat, pc: Pc)
    requires Inv(s) && t < |s.threads| && s.threads[t].pc in {TestFlag, LoadHead, SpinFlag}
    requires pc in {LoadHead, SpinFlag}
    ensures Inv(Put(s, t, s.threads[t].(pc := pc)))
  {
    assert TicketOf(s, t);
  }

  lemma WaitInv(s: State, t: nat)
    requires Inv(s) && Enabled(s, Step(t)) && s.threads[t].pc in {TestFlag, LoadHead, SpinFlag}
    ensures Inv(Next(s, Step(t)))
  {
    FlagIsOwn(s, t);
    if s.threads[t].pc != LoadHead && s.flags[s.threads[t].ticket % |s.flags|] {
      TestInv(s, t);
    } else {
      StillWaitsInv(s, t, if s.threads[t].pc == TestFlag then LoadHead else SpinFlag);
    }
  }

  lemma RaiseInv(s: State, t: nat)
    requires Inv(s) && Enabled(s, Step(t)) && s.threads[t].pc == Critical
    ensures Inv(Next(s, Step(t)))
  {
    assert TicketOf(s, t);
  }

  lemma ClearInv(s: State, t: nat)
    requires Inv(s) && Enabled(s, Step(t)) && s.threads[t].pc == ClearFlag
    ensures Inv(Next(s, Step(t)))
  {
    assert TicketOf(s, t);
  }

  lemma NextSlot(k: nat, n: nat)
    requires 0 < n
    ensures (k % n + 1) % n == (k + 1) % n
  {
    WrapSucc(k, n);
  }

  lemma SetInv(s: State, t: nat)
    requires Inv(s) && Enabled(s, Step(t)) && s.threads[t].pc == SetFlag
    ensures Inv(Next(s, Step(t)))
  {
    assert TicketOf(s, t);
    NextSlot(s.served, |s.flags|);
  }

  lemma StepInv(s: State, a: Action)
    requires Inv(s) && Enabled(s, a)
    ensures Inv(Next(s, a))
  {
    match s.threads[a.t].pc
    case Idle => ArriveInv(s, a.t);
    case Critical => RaiseInv(s, a.t);
    case ClearFlag => ClearInv(s, a.t);
    case SetFlag => SetInv(s, a.t);
    case _ => WaitInv(s, a.t);
  }
}
