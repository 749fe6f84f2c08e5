/** Thread pinning in the runner: threads are given the allowed CPUs in turn, and the
    turn carries over from one trial to the next. */
module Pinning {
  import opened Basics
  import opened CpuSet
  import opened CpuSelect

  ghost predicate Sorted(order: seq<nat>) {
    forall i, j :: 0 <= i < j < |order| ==> order[i] < order[j]
  }

  function Elements(order: seq<nat>): set<nat> {
    set c | c in order
  }

  /** The CPUs of the set from lo to below hi, in ascending order. */
  function Ascending(x: set<nat>, lo: nat, hi: nat): (order: seq<nat>)
    ensures forall c :: c in order <==> c in x && lo <= c < hi
    decreases hi - lo
  {
    if lo >= hi then [] else
    var rest := Ascending(x, lo + 1, hi);
    if lo in x then [lo] + rest else rest
  }

  lemma {:induction false} AscendingSorted(x: set<nat>, lo: nat, hi: nat)
    ensures Sorted(Ascending(x, lo, hi))
    decreases hi - lo
  {
    if lo < hi {
      var rest := Ascending(x, lo + 1, hi);
      AscendingSorted(x, lo + 1, hi);
      assert forall i :: 0 <= i < |rest| ==> rest[i] in rest;
    }
  }

  lemma FirstApart(order: seq<nat>)
    requires Sorted(order) && order != []
    ensures Elements(order) == Elements(order[1..]) + {order[0]} && order[0] !in Elements(order[1..])
  {
    assert order == [order[0]] + order[1..];
    forall c | c in order[1..]
      ensures c > order[0]
    {
      var i :| 0 <= i < |order[1..]| && order[1..][i] == c;
      assert order[i + 1] == c;
    }
  }

  lemma {:induction false} SortedSize(order: seq<nat>)
    requires Sorted(order)
    ensures |Elements(order)| == |order|
  {
    if order == [] {
      assert Elements(order) == {};
    } else {
      FirstApart(order);
      SortedSize(order[1..]);
    }
  }

  /** The order in which the CPUs of an allowed set get their turn. */
  function Turns(x: set<nat>, nprocs: nat): seq<nat> {
    Ascending(x, 0, nprocs)
  }

  lemma TurnsOf(x: set<nat>, nprocs: nat)
    requires forall c :: c in x ==> c < nprocs
    ensures Sorted(Turns(x, nprocs)) && Elements(Turns(x, nprocs)) == x && |Turns(x, nprocs)| == |x|
  {
    AscendingSorted(x, 0, nprocs);
    SortedSize(Turns(x, nprocs));
  }

  lemma NextInTurn(order: seq<nat>, r: nat, cpu: nat)
    requires Sorted(order) && r < |order| && IsLeast(Elements(order[r..]), cpu)
    ensures cpu == order[r]
    ensures Elements(order[r..]) - {cpu} == Elements(order[r + 1..])
  {
    assert order[r..] == [order[r]] + order[r + 1..];
    assert order[r] in Elements(order[r..]);
    var i :| 0 <= i < |order[r..]| && order[r..][i] == cpu;
    assert order[r + i] == cpu;
  }

  /** The first n pins: the CPUs of order in turn, for ever. */
  function RoundRobin(order: seq<nat>, n: nat): (pins: seq<nat>)
    requires |order| > 0
    ensures |pins| == n && forall k :: 0 <= k < n ==> pins[k] == order[k % |order|]
  {
    if n == 0 then [] else RoundRobin(order, n - 1) + [order[(n - 1) % |order|]]
  }

  /** cur_cset after n pins: the CPUs that have not had this turn yet. */
  ghost predicate Turn(order: seq<nat>, n: nat, cur: set<nat>)
    requires |order| > 0
  {
    cur == if n % |order| == 0 then {} else Elements(order[n % |order|..])
  }

  lemma TurnStep(order: seq<nat>, n: nat, cur: set<nat>, cpu: nat)
    requires Sorted(order) && |order| > 0
    requires cur == Elements(order[n % |order|..]) && IsLeast(cur, cpu)
    ensures cpu == order[n % |order|] && Turn(order, n + 1, cur - {cpu})
  {
    NextInTurn(order, n % |order|, cpu);
    ModSucc(n, |order|);
  }

  /** The set NextPin takes its CPU from. */
  lemma TurnStart(order: seq<nat>, n: nat, cur: set<nat>)
    requires |order| > 0 && Turn(order, n, cur)
    ensures (if cur == {} then Elements(order) else cur) == Elements(order[n % |order|..]) != {}
  {
    var r := n % |order|;
    assert order[r] in order[r..] && order[r] in Elements(order[r..]);
    assert r == 0 ==> order[r..] == order;
  }

  /** One thread's CPU: the next of cur, refilled when it is empty. */
  method NextPin(cur: Cset, allowable: Cset, nprocs: nat, ghost order: seq<nat>, ghost n: nat) returns (cpu: nat)
    requires cur.Valid() && allowable.Valid() && cur.bits != allowable.bits
    requires Sorted(order) && Elements(order) == allowable.Cpus() && |order| > 0
    requires forall c :: c in order ==> c < nprocs
    requires Turn(order, n, cur.Cpus())
    modifies cur.bits
    ensures cpu == order[n % |order|] && Turn(order, n + 1, cur.Cpus())
  {
    TurnStart(order, n, cur.Cpus());
    var cset := new Cset();
    var empty := cur.Empty();
    if empty {
      cur.Copy(allowable);
    }
    ghost var turn := cur.Cpus();
    InRange(order, n % |order|, nprocs);
    cpu := cset.CopyFirst(cur, nprocs);
    var none := cset.Empty();
    assert !none;
    cur.ClrFirst(nprocs);
    TurnStep(order, n, turn, cpu);
  }

  lemma InRange(order: seq<nat>, r: nat, nprocs: nat)
    requires r < |order| && forall c :: c in order ==> c < nprocs
    ensures Elements(order[r..]) * Below(nprocs) != {}
  {
    assert order[r] in order && order[r] in order[r..];
    assert order[r] in Elements(order[r..]) && order[r] in Below(nprocs);
  }

  /** One trial: numThreads more pins after the ones given. */
  method PinTrial(cur: Cset, allowed: Cset, nprocs: nat, numThreads: nat, before: seq<nat>, ghost order: seq<nat>)
    returns (pins: seq<nat>)
    requires cur.Valid() && allowed.Valid() && cur.bits != allowed.bits
    requires Sorted(order) && Elements(order) == allowed.Cpus() && |order| > 0
    requires forall c :: c in order ==> c < nprocs
    requires before == RoundRobin(order, |before|) && Turn(order, |before|, cur.Cpus())
    modifies cur.bits
    ensures |pins| == |before| + numThreads && pins == RoundRobin(order, |pins|)
    ensures Turn(order, |pins|, cur.Cpus())
  {
    pins := before;
    for j := 0 to numThreads
      invariant |pins| == |before| + j && pins == RoundRobin(order, |pins|)
      invariant Turn(order, |pins|, cur.Cpus())
    {
      var cpu := NextPin(cur, allowed, nprocs, order, |pins|);
      pins := pins + [cpu];
    }
  }

  lemma OneMoreTrial(i: nat, numThreads: nat)
    ensures (i + 1) * numThreads == i * numThreads + numThreads
  {
  }

  /** The CPU of every thread the trials create: cur_cset is not reset between them. */
  method PinTrials(allowed: Cset, nprocs: nat, numTrials: nat, numThreads: nat, ghost order: seq<nat>)
    returns (pins: seq<nat>)
    requires allowed.Valid() && Sorted(order) && Elements(order) == allowed.Cpus() && |order| > 0
    requires forall c :: c in order ==> c < nprocs
    ensures pins == RoundRobin(order, numTrials * numThreads)
  {
    var cur := new Cset();
    pins := [];
    for i := 0 to numTrials
      invariant cur.Valid() && fresh(cur.bits)
      invariant |pins| == i * numThreads && pins == RoundRobin(order, |pins|)
      invariant Turn(order, |pins|, cur.Cpus())
    {
      pins := PinTrial(cur, allowed, nprocs, numThreads, pins, order);
      OneMoreTrial(i, numThreads);
    }
  }

  // ----- balance --------------------------------------------------------------------

  /** How many of the threads got the CPU. */
  function Share(pins: seq<nat>, cpu: nat): nat {
    if pins == [] then 0
    else Share(pins[..|pins| - 1], cpu) + if pins[|pins| - 1] == cpu then 1 else 0
  }

  lemma ShareAppend(pins: seq<nat>, last: nat, cpu: nat)
    ensures Share(pins + [last], cpu) == Share(pins, cpu) + (if last == cpu then 1 else 0)
  {
    assert (pins + [last])[..|pins|] == pins;
  }

  lemma DivSucc(n: nat, m: nat)
    requires 0 < m
    ensures (n + 1) / m == n / m + (if n % m == m - 1 then 1 else 0)
  {
    ModSucc(n, m);
    var d := (n + 1) / m - n / m;
    assert n == n / m * m + n % m && n + 1 == (n + 1) / m * m + (n + 1) % m;
    assert d * m == (n + 1) / m * m - n / m * m;
    assert (d - 1) * m == d * m - m;
    MultipleGrows(d, m);
    MultipleGrows(d - 1, m);
  }

  /** The n-th share goes to the CPU in place n % m. */
  lemma NextShare(n: nat, m: nat, j: nat)
    requires j < m
    ensures (n + 1) / m + (if j < (n + 1) % m then 1 else 0) ==
            n / m + (if j < n % m then 1 else 0) + (if n % m == j then 1 else 0)
  {
    DivSucc(n, m);
    ModSucc(n, m);
  }

  lemma NextPlace(order: seq<nat>, n: nat, j: nat)
    requires Sorted(order) && j < |order|
    ensures Share(RoundRobin(order, n + 1), order[j]) ==
            Share(RoundRobin(order, n), order[j]) + (if n % |order| == j then 1 else 0)
  {
    var k := n % |order|;
    ShareAppend(RoundRobin(order, n), order[k], order[j]);
    assert order[k] == order[j] <==> k == j;
  }

  /** After n threads the j-th CPU has had n / m of them, and one more if j is among
      the first n % m: shares differ by at most one, the lower CPUs being ahead. */
  lemma {:induction false} Balanced(order: seq<nat>, n: nat, j: nat)
    requires Sorted(order) && j < |order|
    ensures Share(RoundRobin(order, n), order[j]) == n / |order| + (if j < n % |order| then 1 else 0)
  {
    if n > 0 {
      Balanced(order, n - 1, j);
      NextPlace(order, n - 1, j);
      NextShare(n - 1, |order|, j);
    } else {
      MultipleMod(0, 0, |order|);
      assert RoundRobin(order, 0) == [];
    }
  }

  lemma {:induction false} Unallowed(order: seq<nat>, n: nat, cpu: nat)
    requires |order| > 0 && cpu !in order
    ensures Share(RoundRobin(order, n), cpu) == 0
  {
    if n > 0 {
      Unallowed(order, n - 1, cpu);
      ShareAppend(RoundRobin(order, n - 1), order[(n - 1) % |order|], cpu);
    }
  }

  lemma Ceiling(n: nat, m: nat)
    requires 0 < m
    ensures (n + m - 1) / m == n / m + (if n % m == 0 then 0 else 1)
  {
    var d := (n + m - 1) / m - n / m;
    assert n == n / m * m + n % m && n + m - 1 == (n + m - 1) / m * m + (n + m - 1) % m;
    assert d * m == (n + m - 1) / m * m - n / m * m;
    assert (d - 1) * m == d * m - m;
    MultipleGrows(d, m);
    MultipleGrows(d - 1, m);
  }

  /** Every allowed CPU gets the floor or the ceiling of its share, and no other any. */
  lemma FloorOrCeiling(x: set<nat>, nprocs: nat, n: nat, cpu: nat)
    requires x != {} && forall c :: c in x ==> c < nprocs
    ensures |Turns(x, nprocs)| == |x| > 0
    ensures var share := Share(RoundRobin(Turns(x, nprocs), n), cpu);
            if cpu in x then n / |x| <= share <= (n + |x| - 1) / |x| else share == 0
  {
    var order := Turns(x, nprocs);
    TurnsOf(x, nprocs);
    if cpu in x {
      var j :| 0 <= j < |order| && order[j] == cpu;
      Balanced(order, n, j);
      Ceiling(n, |x|);
    } else {
      Unallowed(order, n, cpu);
    }
  }

  // ----- the whole run -----------------------------------------------------------------

  /** Every CPU of x has the floor or the ceiling of its share of the pins, and no other
      CPU has any. */
  ghost predicate Fair(pins: seq<nat>, x: set<nat>)
    requires |x| > 0
  {
    forall cpu: nat :: IsShare(Share(pins, cpu), cpu in x, |pins|, |x|)
  }

  predicate IsShare(share: nat, allowed: bool, n: nat, m: nat)
    requires m > 0
  {
    if allowed then n / m <= share <= (n + m - 1) / m else share == 0
  }

  lemma RoundRobinFair(x: set<nat>, nprocs: nat, n: nat)
    requires x != {} && forall c :: c in x ==> c < nprocs
    ensures |Turns(x, nprocs)| == |x| > 0 && Fair(RoundRobin(Turns(x, nprocs), n), x)
  {
    TurnsOf(x, nprocs);
    assert Turns(x, nprocs) != [];
    forall cpu: nat
      ensures IsShare(Share(RoundRobin(Turns(x, nprocs), n), cpu), cpu in x, n, |x|)
    {
      FloorOrCeiling(x, nprocs, n, cpu);
    }
  }

  /** The threads of a run with the given allowed CPUs get them in turn, and fairly. */
  ghost predicate InTurn(pins: seq<nat>, x: set<nat>, nprocs: nat, numTrials: nat, numThreads: nat) {
    && |pins| == numTrials * numThreads
    && var order := Turns(x, nprocs);
       && Sorted(order) && Elements(order) == x && |order| == |x| > 0
       && (forall k :: 0 <= k < |pins| ==> pins[k] == order[k % |order|])
       && Fair(pins, x)
  }

  method PinAll(allowed: Cset, nprocs: nat, numTrials: nat, numThreads: nat) returns (pins: seq<nat>)
    requires allowed.Valid() && allowed.Cpus() != {} && forall c :: c in allowed.Cpus() ==> c < nprocs
    ensures InTurn(pins, allowed.Cpus(), nprocs, numTrials, numThreads)
  {
    ghost var x := allowed.Cpus();
    TurnsOf(x, nprocs);
    RoundRobinFair(x, nprocs, numTrials * numThreads);
    pins := PinTrials(allowed, nprocs, numTrials, numThreads, Turns(x, nprocs));
  }

  /** The CPU of every thread of the run; empty if threads are not pinned, None if the
      source dies. */
  method PinThreads(t: Topology, cpuList: Option<seq<u32>>, numCpus: int, pinCpus: bool, hyper: bool,
                    numTrials: nat, numThreads: nat)
    returns (pins: Option<seq<nat>>, allowed: Cset)
    requires WellFormed(t)
    ensures allowed.Valid() && forall c :: c in allowed.Cpus() ==> c < t.nprocs
    ensures pins == None <==> cpuList.Some? && forall c :: c in cpuList.value ==> c >= t.nprocs
    ensures cpuList.None? && numCpus <= 0 && !pinCpus ==> pins == Some([]) && allowed.Cpus() == {}
    ensures pins.Some? && (cpuList.Some? || numCpus > 0 || pinCpus) ==>
              allowed.Cpus() != {} && InTurn(pins.value, allowed.Cpus(), t.nprocs, numTrials, numThreads)
    ensures cpuList.Some? ==> allowed.Cpus() == set c | c in cpuList.value && c < t.nprocs
    ensures cpuList.None? && 0 < numCpus < t.nprocs ==>
              Leading(t, hyper, allowed.Cpus()) && |allowed.Cpus()| == numCpus
    ensures cpuList.None? && !(0 < numCpus < t.nprocs) && (numCpus > 0 || pinCpus) ==>
              allowed.Cpus() == Below(t.nprocs)
  {
    allowed := new Cset();
    var pinned := SetAllowable(allowed, t, cpuList, numCpus, pinCpus, hyper);
    if pinned == None {
      return None, allowed;
    }
    var empty := allowed.Empty();
    assert empty == !pinned.value;
    if !pinned.value {
      return Some([]), allowed;
    }
    var all := PinAll(allowed, t.nprocs, numTrials, numThreads);
    pins := Some(all);
  }
}
