/** The cohort lock C-PTL-TKT as a state machine over unbounded tickets: a ticket
    lock per socket below one partitioned ticket lock. A step is one access to
    shared memory by one thread; any thread may take the next step.

    `served`, `owner`, `globalQueue` and `localQueue` are history: no branch of a
    step looks at them. */
module CohortSpec {
  import opened Basics

  /** Local handoffs allowed before the global lock must be released. */
  const BATCH: nat := 100

  /** The next access of a thread. */
  datatype Pc =
    | Idle
      // lock
    | WaitLocal          // load grant of the socket, compare with the local ticket
    | TestSocketGrant    // load socket_grant
    | ClearSocketGrant   // store socket_grant = 0
    | TakeGlobal         // fetch_add request
    | WaitGlobal         // load grants[ticket % nodes], compare with the ticket
    | StorePsl           // store cur_psl
    | StoreOwner         // store owner_req_num
      // unlock
    | Critical           // load cur_psl
    | LoadGrant          // load grant, next_grant = grant + 1
    | LoadRequests       // load requests, compare with next_grant
    | LoadBatch          // load batch_count
    | StoreBatchLess     // store batch_count - 1
    | StoreSocketGrant   // store socket_grant = 1
    | StoreGrantLocal    // store grant = next_grant: hand the lock over
    | StoreBatchFull     // store batch_count = 100
    | LoadOwner          // load owner_req_num, req_num = owner_req_num + 1
    | StoreGrants        // store grants[req_num % nodes] = req_num: release
    | StoreGrantAfter    // store grant = next_grant, the release being done
    | StoreGrantsLate    // the two last stores swapped: grant is stored, release is not

  /** A thread: its next access and the locals of lock and unlock. */
  datatype Thread = Thread(
    pc: Pc,
    sock: nat, ltkt: nat, gtkt: nat,          // lock: socket, local ticket, global ticket
    psl: nat, next: nat, batch: nat, req: nat // unlock: local_lock, next_grant, batch_count, req_num
  )

  /** I_cptltkt_cpu_tkl: the words of one socket. */
  datatype Local = Local(grant: nat, requests: nat, socketGrant: bool, batch: nat, ownerReq: nat)

  /** Where the global ticket being served is. */
  datatype Owner = Nobody | Running(t: nat) | Passing(sock: nat)

  datatype State = State(
    request: nat, grants: seq<nat>, locals: seq<Local>, curPsl: Option<nat>,
    threads: seq<Thread>,
    served: nat, owner: Owner, globalQueue: seq<nat>, localQueue: seq<seq<nat>>)

  datatype Action =
    | Arrive(t: nat, sock: nat)  // lock on the given socket: fetch_add requests
    | Step(t: nat)
    | Swapped(t: nat)            // unlock stores grant before grants

  // ----- the machine ---------------------------------------------------------

  function Zero(): Thread {
    Thread(Idle, 0, 0, 0, 0, 0, 0, 0)
  }

  /** init: all words zero; so the first batch of a socket is empty. */
  function Init(nodes: nat, threads: nat): State {
    State(0, seq(nodes, _ => 0), seq(nodes, _ => Local(0, 0, false, 0, 0)), None,
          seq(threads, _ => Zero()), 0, Nobody, [], seq(nodes, _ => []))
  }

  predicate Wf(s: State) {
    && |s.locals| == |s.grants| == |s.localQueue| > 0
    && forall t :: 0 <= t < |s.threads| ==> s.threads[t].sock < |s.grants| && s.threads[t].psl < |s.grants|
  }

  predicate Enabled(s: State, a: Action) {
    && a.t < |s.threads|
    && match a
       case Arrive(t, sock) => s.threads[t].pc == Idle && sock < |s.locals|
       case Step(t) => s.threads[t].pc != Idle
       case Swapped(t) => s.threads[t].pc == StoreGrants
  }

  function Put(s: State, t: nat, th: Thread): State
    requires t < |s.threads|
  {
    s.(threads := s.threads[t := th])
  }

  function Goto(s: State, t: nat, pc: Pc): State
    requires t < |s.threads|
  {
    Put(s, t, s.threads[t].(pc := pc))
  }

  function PutLocal(s: State, i: nat, l: Local): State
    requires i < |s.locals|
  {
    s.(locals := s.locals[i := l])
  }

  function NextArrive(s: State, t: nat, sock: nat): (s': State)
    requires Wf(s) && t < |s.threads| && sock < |s.locals|
    ensures Wf(s')
  {
    var l := s.locals[sock];
    PutLocal(Put(s, t, s.threads[t].(pc := WaitLocal, sock := sock, ltkt := l.requests)),
             sock, l.(requests := l.requests + 1))
    .(localQueue := s.localQueue[sock := s.localQueue[sock] + [t]])
  }

  function NextLock(s: State, t: nat): (s': State)
    requires Wf(s) && t < |s.threads|
    ensures Wf(s')
  {
    var th := s.threads[t];
    var l := s.locals[th.sock];
    match th.pc
    case WaitLocal =>
      if l.grant == th.ltkt then Goto(s, t, TestSocketGrant) else s
    case TestSocketGrant =>
      if l.socketGrant then Goto(s, t, ClearSocketGrant).(owner := Running(t)) else Goto(s, t, TakeGlobal)
    case ClearSocketGrant =>
      PutLocal(Goto(s, t, Critical), th.sock, l.(socketGrant := false))
    case TakeGlobal =>
      Put(s, t, th.(pc := WaitGlobal, gtkt := s.request))
      .(request := s.request + 1, globalQueue := s.globalQueue + [t])
    case WaitGlobal =>
      if s.grants[th.gtkt % |s.grants|] == th.gtkt
      then Goto(s, t, StorePsl).(owner := Running(t)) else s
    case StorePsl =>
      Goto(s, t, StoreOwner).(curPsl := Some(th.sock))
    case StoreOwner =>
      PutLocal(Goto(s, t, Critical), th.sock, l.(ownerReq := th.gtkt))
    case _ => s
  }

  function NextUnlock(s: State, t: nat): (s': State)
    requires Wf(s) && t < |s.threads|
    ensures Wf(s')
  {
    var th := s.threads[t];
    var l := s.locals[th.psl];
    match th.pc
    case Critical =>
      // cur_psl is NULL only before the first acquisition: see UnlockNamesOwnLock
      if s.curPsl.Some? && s.curPsl.value < |s.locals|
      then Put(s, t, th.(pc := LoadGrant, psl := s.curPsl.value)) else s
    case LoadGrant => Put(s, t, th.(pc := LoadRequests, next := l.grant + 1))
    case LoadRequests =>
      Goto(s, t, if l.requests != th.next then LoadBatch else LoadOwner)
    case LoadBatch =>
      Put(s, t, th.(pc := if l.batch != 0 then StoreBatchLess else StoreBatchFull, batch := l.batch))
    case StoreBatchLess =>
      PutLocal(Goto(s, t, StoreSocketGrant), th.psl, l.(batch := if th.batch == 0 then 0 else th.batch - 1))
    case StoreSocketGrant =>
      PutLocal(Goto(s, t, StoreGrantLocal), th.psl, l.(socketGrant := true))
    case StoreGrantLocal =>
      PutLocal(Goto(s, t, Idle), th.psl, l.(grant := th.next)).(owner := Passing(th.psl))
    case StoreBatchFull =>
      PutLocal(Goto(s, t, LoadOwner), th.psl, l.(batch := BATCH))
    case LoadOwner => Put(s, t, th.(pc := StoreGrants, req := l.ownerReq + 1))
    case StoreGrants => StoreGlobalGrant(Goto(s, t, StoreGrantAfter), th.req)
    case StoreGrantAfter => PutLocal(Goto(s, t, Idle), th.psl, l.(grant := th.next))
    case StoreGrantsLate => StoreGlobalGrant(Goto(s, t, Idle), th.req)
    case _ => s
  }

  /** Release of the global lock: the slot of the next ticket receives that ticket. */
  function StoreGlobalGrant(s: State, req: nat): State
    requires |s.grants| > 0
  {
    s.(grants := s.grants[req % |s.grants| := req], owner := Nobody, served := s.served + 1)
  }

  function NextSwapped(s: State, t: nat): (s': State)
    requires Wf(s) && t < |s.threads|
    ensures Wf(s')
  {
    var th := s.threads[t];
    var l := s.locals[th.psl];
    PutLocal(Goto(s, t, StoreGrantsLate), th.psl, l.(grant := th.next))
  }

  predicate InUnlock(pc: Pc) {
    pc in {Critical, LoadGrant, LoadRequests, LoadBatch, StoreBatchLess, StoreSocketGrant, StoreGrantLocal,
           StoreBatchFull, LoadOwner, StoreGrants, StoreGrantAfter, StoreGrantsLate}
  }

  function Next(s: State, a: Action): (s': State)
    requires Wf(s) && Enabled(s, a)
    ensures Wf(s')
  {
    match a
    case Arrive(t, sock) => NextArrive(s, t, sock)
    case Step(t) => if InUnlock(s.threads[t].pc) then NextUnlock(s, t) else NextLock(s, t)
    case Swapped(t) => NextSwapped(s, t)
  }
}
