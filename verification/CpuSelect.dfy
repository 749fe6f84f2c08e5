/** Which CPUs the runner may use: set_allowable_cset. The machine's topology is a
    table; the command line's CPU list arrives as the numbers already read from it. */
module CpuSelect {
  import opened Basics
  import opened CpuSet

  /** For each CPU the number of its physical core and the CPUs of its core. */
  datatype Topology = Topology(nprocs: nat, phys: seq<nat>, siblings: seq<set<nat>>)

  /** The sibling groups partition the CPUs. */
  ghost predicate WellFormed(t: Topology) {
    && 0 < t.nprocs <= CPU_SETSIZE && |t.phys| == |t.siblings| == t.nprocs
    && (forall c :: 0 <= c < t.nprocs ==> c in t.siblings[c] && forall d :: d in t.siblings[c] ==> d < t.nprocs)
    && (forall c, d :: 0 <= c < t.nprocs && d in t.siblings[c] ==> t.siblings[d] == t.siblings[c])
  }

  /** The tables of topology/8-conf.h: CPUs c and c + 4 share core c. */
  function EightCpus(): Topology {
    Topology(8, [0, 1, 2, 3, 0, 1, 2, 3],
             [{0, 4}, {1, 5}, {2, 6}, {3, 7}, {0, 4}, {1, 5}, {2, 6}, {3, 7}])
  }

  /** CPUs are on one core exactly if they agree modulo 4, and a core has the number of its
      least CPU. */
  lemma EightCpusTable(c: nat, d: nat)
    requires c < 8 && d < 8
    ensures EightCpus().phys[c] == c % 4 && (IsCore(EightCpus(), c) <==> c < 4)
    ensures d in EightCpus().siblings[c] <==> d % 4 == c % 4
  {
    assert d in EightCpus().siblings[c] <==> d == c || d == c + 4 || d + 4 == c;
  }

  lemma EightCpusWellFormed()
    ensures WellFormed(EightCpus())
  {
    var t := EightCpus();
    forall c, d | 0 <= c < 8 && d in t.siblings[c]
      ensures d < 8 && t.siblings[d] == t.siblings[c]
    {
      assert d == c || d == c + 4 || d + 4 == c;
    }
  }

  // ----- the order of preference ------------------------------------------------------

  /** A CPU that carries the number of its core; the others are hyper-threads. */
  predicate IsCore(t: Topology, c: nat) {
    c < |t.phys| && t.phys[c] == c
  }

  /** The least CPU from k on in the group of c. */
  function FirstFrom(t: Topology, k: nat, c: nat): (first: nat)
    requires k <= c < |t.siblings|
    ensures k <= first <= c && t.siblings[first] == t.siblings[c]
    ensures forall j :: k <= j < first ==> t.siblings[j] != t.siblings[c]
    decreases c - k
  {
    if t.siblings[k] == t.siblings[c] then k else FirstFrom(t, k + 1, c)
  }

  function First(t: Topology, c: nat): nat
    requires c < |t.siblings|
  {
    FirstFrom(t, 0, c)
  }

  /** d is preferred to c: cores before hyper-threads, or whole groups in the order of
      their least CPU and within a group the highest first. */
  predicate Before(t: Topology, hyper: bool, d: nat, c: nat)
    requires c < |t.siblings| && d < |t.siblings|
  {
    if hyper then First(t, d) < First(t, c) || (First(t, d) == First(t, c) && d > c)
    else (IsCore(t, d) && !IsCore(t, c)) || (IsCore(t, d) == IsCore(t, c) && d < c)
  }

  /** No CPU is left out for a less preferred one. */
  ghost predicate Leading(t: Topology, hyper: bool, x: set<nat>)
    requires |t.siblings| == t.nprocs
  {
    && (forall c :: c in x ==> c < t.nprocs)
    && (forall c, d: nat :: c in x && d < t.nprocs && Before(t, hyper, d, c) ==> d in x)
  }

  /** There is one such set of each size. */
  lemma LeadingUnique(t: Topology, hyper: bool, x: set<nat>, y: set<nat>)
    requires |t.siblings| == t.nprocs && Leading(t, hyper, x) && Leading(t, hyper, y) && |x| == |y|
    ensures x == y
  {
    if !(x <= y) {
      var c :| c in x && c !in y;
      forall d | d in y
        ensures d in x
      {
        assert Before(t, hyper, d, c) || Before(t, hyper, c, d);
      }
      SubsetSize(y, x);
    } else {
      SubsetSize(x, y);
    }
  }

  /** Cores first, in terms of the table of cores alone. */
  lemma CoresThenThreads(t: Topology, x: set<nat>, c: nat, d: nat)
    requires WellFormed(t) && Leading(t, false, x) && c in x && d < t.nprocs
    ensures c < t.nprocs
    ensures t.phys[d] == d && t.phys[c] != c ==> d in x
    ensures (t.phys[d] == d <==> t.phys[c] == c) && d < c ==> d in x
  {
    if (t.phys[d] == d && t.phys[c] != c) || ((t.phys[d] == d <==> t.phys[c] == c) && d < c) {
      assert Before(t, false, d, c);
    }
  }

  /** Whole cores, in terms of the sibling sets alone: the core with the least CPU first,
      and of the last one the highest CPUs. */
  lemma CoreByCore(t: Topology, x: set<nat>, c: nat, d: nat, least: nat)
    requires WellFormed(t) && Leading(t, true, x) && c in x && d < t.nprocs
    ensures c < t.nprocs
    ensures least in t.siblings[d] && (forall e :: e in t.siblings[c] ==> least < e) ==> d in x
    ensures d in t.siblings[c] && d > c ==> d in x
  {
    if least in t.siblings[d] && forall e :: e in t.siblings[c] ==> least < e {
      LeastFirst(t, d, least);
      assert First(t, c) in t.siblings[First(t, c)];
      assert Before(t, true, d, c);
    } else if d in t.siblings[c] && d > c {
      SameGroup(t, c, d);
      assert Before(t, true, d, c);
    }
  }

  lemma LeastFirst(t: Topology, c: nat, e: nat)
    requires WellFormed(t) && c < t.nprocs && e in t.siblings[c]
    ensures First(t, c) <= e && First(t, c) in t.siblings[c]
  {
    assert t.siblings[e] == t.siblings[c];
  }

  lemma EightCpusFirst(c: nat)
    requires c < 8
    ensures First(EightCpus(), c) == c % 4
  {
    EightCpusWellFormed();
    EightCpusTable(c, c % 4);
    LeastFirst(EightCpus(), c, c % 4);
    EightCpusTable(c, First(EightCpus(), c));
    assert First(EightCpus(), c) % 4 == c % 4;
  }

  /** Cpus 0, 4 and 5 lead if whole cores are taken. */
  lemma EightCpusByCore()
    ensures Leading(EightCpus(), true, {0, 4, 5})
  {
    var t, x: set<nat> := EightCpus(), {0, 4, 5};
    forall c, d: nat | c in x && d < 8 && Before(t, true, d, c)
      ensures d in x
    {
      EightCpusFirst(c);
      EightCpusFirst(d);
    }
  }

  lemma EightCpusCores()
    ensures Leading(EightCpus(), false, {0, 1, 2, 3, 4})
  {
    var t, x: set<nat> := EightCpus(), {0, 1, 2, 3, 4};
    forall c, d: nat | c in x && d < 8 && Before(t, false, d, c)
      ensures d in x
    {
      EightCpusTable(c, c);
      EightCpusTable(d, d);
    }
  }

  /** What is chosen on the 8-CPU machine. */
  lemma EightCpusChoices(x: set<nat>)
    ensures Leading(EightCpus(), true, x) && |x| == 3 ==> x == {0, 4, 5}
    ensures Leading(EightCpus(), false, x) && |x| == 5 ==> x == {0, 1, 2, 3, 4}
  {
    EightCpusByCore();
    EightCpusCores();
    if Leading(EightCpus(), true, x) && |x| == 3 {
      LeadingUnique(EightCpus(), true, x, {0, 4, 5});
    }
    if Leading(EightCpus(), false, x) && |x| == 5 {
      LeadingUnique(EightCpus(), false, x, {0, 1, 2, 3, 4});
    }
  }

  /** Without hyper-thread preference no hyper-thread is used before all cores are. */
  lemma CoresFirst(t: Topology, x: set<nat>, thread: nat, core: nat)
    requires |t.siblings| == t.nprocs && Leading(t, false, x)
    requires thread in x && !IsCore(t, thread) && core < t.nprocs && IsCore(t, core)
    ensures core in x
  {
    assert Before(t, false, core, thread);
  }

  /** The group of c is used in part. */
  predicate Split(t: Topology, x: set<nat>, c: nat)
    requires c < |t.siblings|
  {
    t.siblings[c] * x != {} && !(t.siblings[c] <= x)
  }

  lemma SameGroup(t: Topology, c: nat, d: nat)
    requires WellFormed(t) && c < t.nprocs && d < t.nprocs
    ensures First(t, c) == First(t, d) <==> t.siblings[c] == t.siblings[d]
    ensures d in t.siblings[c] <==> t.siblings[c] == t.siblings[d]
  {
  }

  /** With hyper-thread preference at most one core is used in part. */
  lemma OneSplit(t: Topology, x: set<nat>, c: nat, d: nat)
    requires WellFormed(t) && Leading(t, true, x) && c < t.nprocs && d < t.nprocs
    requires Split(t, x, c) && Split(t, x, d)
    ensures t.siblings[c] == t.siblings[d]
  {
    SameGroup(t, c, d);
    if First(t, c) < First(t, d) {
      SplitIsLast(t, x, c, d);
    } else if First(t, d) < First(t, c) {
      SplitIsLast(t, x, d, c);
    }
  }

  lemma SplitIsLast(t: Topology, x: set<nat>, c: nat, d: nat)
    requires WellFormed(t) && Leading(t, true, x) && c < t.nprocs && d < t.nprocs
    requires First(t, c) < First(t, d) && Split(t, x, d)
    ensures !Split(t, x, c)
  {
    var used :| used in t.siblings[d] * x;
    SameGroup(t, d, used);
    forall e | e in t.siblings[c]
      ensures e in x
    {
      SameGroup(t, c, e);
      assert Before(t, true, e, used);
    }
  }

  // ----- cores first ------------------------------------------------------------------

  /** The set once the pass has looked at the CPUs below i. */
  ghost function AfterPass(t: Topology, pass: nat, i: nat): set<nat> {
    set c: nat | c < |t.phys| && (IsCore(t, c) || pass > 0) && (c < i || (pass > 0 && IsCore(t, c)))
  }

  lemma AfterPassLeading(t: Topology, pass: nat, i: nat)
    requires WellFormed(t) && i <= t.nprocs
    ensures Leading(t, false, AfterPass(t, pass, i))
  {
  }

  lemma AfterPassStep(t: Topology, pass: nat, i: nat)
    requires WellFormed(t) && i < t.nprocs
    ensures i in AfterPass(t, pass, i) <==> pass > 0 && IsCore(t, i)
    ensures AfterPass(t, pass, i + 1) ==
            AfterPass(t, pass, i) + (if IsCore(t, i) || pass > 0 then {i} else {})
  {
  }

  /** The visit of one CPU in a pass. */
  method VisitCore(cset: Cset, t: Topology, pass: nat, i: nat) returns (taken: bool)
    requires WellFormed(t) && i < t.nprocs
    requires cset.Valid() && cset.Cpus() == AfterPass(t, pass, i)
    modifies cset.bits
    ensures cset.Cpus() == AfterPass(t, pass, i + 1)
    ensures |AfterPass(t, pass, i + 1)| == |AfterPass(t, pass, i)| + (if taken then 1 else 0)
  {
    AfterPassStep(t, pass, i);
    taken := false;
    var isSet := cset.IsSet(i);
    if !isSet && (t.phys[i] == i || pass != 0) {
      cset.Set(i);
      taken := true;
    }
  }

  /** One pass over the CPUs; it ends early when no more are wanted. */
  method ScanCores(cset: Cset, t: Topology, pass: nat, numCpus: nat) returns (left: nat)
    requires WellFormed(t) && 0 < numCpus
    requires cset.Valid() && cset.Cpus() == AfterPass(t, pass, 0)
    modifies cset.bits
    ensures left + |cset.Cpus()| == numCpus + |AfterPass(t, pass, 0)|
    ensures left == 0 ==> Leading(t, false, cset.Cpus())
    ensures left > 0 ==> cset.Cpus() == AfterPass(t, pass, t.nprocs)
  {
    left := numCpus;
    for i := 0 to t.nprocs
      invariant left > 0 && left + |AfterPass(t, pass, i)| == numCpus + |AfterPass(t, pass, 0)|
      invariant cset.Cpus() == AfterPass(t, pass, i)
    {
      var taken := VisitCore(cset, t, pass, i);
      if taken {
        left := left - 1;
        if left == 0 {
          AfterPassLeading(t, pass, i + 1);
          return;
        }
      }
    }
  }

  /** The first pass takes cores only, the second whatever is left. */
  method SelectCoresFirst(cset: Cset, t: Topology, numCpus: nat)
    requires WellFormed(t) && 0 < numCpus < t.nprocs
    requires cset.Valid() && cset.Cpus() == {}
    modifies cset.bits
    ensures Leading(t, false, cset.Cpus()) && |cset.Cpus()| == numCpus
  {
    var left, pass := numCpus, 0;
    PassEnds(t, 0);
    while left != 0
      invariant pass <= 1 && left >= 0 && left + |cset.Cpus()| == numCpus
      invariant if left > 0 then cset.Cpus() == AfterPass(t, pass, 0) else Leading(t, false, cset.Cpus())
      decreases left > 0, 2 - pass
    {
      left := ScanCores(cset, t, pass, left);
      PassEnds(t, pass);
      pass := 1;
    }
  }

  lemma PassEnds(t: Topology, pass: nat)
    requires WellFormed(t)
    ensures AfterPass(t, 0, 0) == {}
    ensures if pass == 0 then AfterPass(t, 0, t.nprocs) == AfterPass(t, 1, 0)
            else |AfterPass(t, pass, t.nprocs)| == t.nprocs
  {
    if pass > 0 {
      assert AfterPass(t, pass, t.nprocs) == Below(t.nprocs);
    }
  }

  // ----- whole cores ------------------------------------------------------------------

  /** All groups whose least CPU is below i. */
  ghost function Groups(t: Topology, i: nat): set<nat>
    requires |t.siblings| == t.nprocs
  {
    set c: nat | c < t.nprocs && First(t, c) < i
  }

  lemma LeastOfGroup(t: Topology, i: nat, c: nat)
    requires WellFormed(t) && i < t.nprocs && c < t.nprocs && i !in Groups(t, i)
    ensures First(t, c) == i <==> c in t.siblings[i]
  {
    SameGroup(t, i, c);
  }

  /** A CPU not in an earlier group is the least of its own. */
  lemma NextGroup(t: Topology, i: nat)
    requires WellFormed(t) && i < t.nprocs
    ensures i in Groups(t, i) ==> Groups(t, i + 1) == Groups(t, i)
    ensures i !in Groups(t, i) ==>
              Groups(t, i + 1) == Groups(t, i) + t.siblings[i] && Groups(t, i) * t.siblings[i] == {}
  {
    if i in Groups(t, i) {
      forall c: nat | c < t.nprocs && First(t, c) == i
        ensures false
      {
        assert t.siblings[c] == t.siblings[i];
        SameGroup(t, i, c);
      }
    } else {
      forall c: nat | c < t.nprocs
        ensures First(t, c) == i <==> c in t.siblings[i]
      {
        LeastOfGroup(t, i, c);
      }
    }
  }

  /** The highest CPUs of a group. */
  ghost predicate HighestOf(group: set<nat>, x: set<nat>) {
    x <= group && forall c, d :: c in x && d in group && d > c ==> d in x
  }

  lemma GroupsAndPart(t: Topology, i: nat, part: set<nat>)
    requires WellFormed(t) && i < t.nprocs && i !in Groups(t, i) && HighestOf(t.siblings[i], part)
    ensures Leading(t, true, Groups(t, i) + part)
  {
    forall c | c in part
      ensures First(t, c) == i && c < t.nprocs
    {
      SameGroup(t, i, c);
    }
    forall c, d: nat | c in Groups(t, i) + part && d < t.nprocs && Before(t, true, d, c)
      ensures d in Groups(t, i) + part
    {
      SameGroup(t, i, d);
    }
  }

  /** get_logical_cpu_ids: the source copies the table's set. */
  method LoadSiblings(t: Topology, cpu: nat, out: Cset)
    requires WellFormed(t) && cpu < t.nprocs && out.Valid()
    modifies out.bits
    ensures out.Cpus() == t.siblings[cpu]
  {
    forall c | 0 <= c < out.bits.Length {
      out.bits[c] := c in t.siblings[cpu];
    }
  }

  /** Clears the lowest CPUs until as many are left as still fit. */
  method Trim(siblings: Cset, nprocs: nat, excess: nat)
    requires siblings.Valid() && excess <= |siblings.Cpus()| && forall c :: c in siblings.Cpus() ==> c < nprocs
    modifies siblings.bits
    ensures HighestOf(old(siblings.Cpus()), siblings.Cpus())
    ensures |siblings.Cpus()| == old(|siblings.Cpus()|) - excess
  {
    var numSet, i := excess, 0;
    ghost var group := siblings.Cpus();
    while numSet != 0 && i < nprocs
      invariant 0 <= i <= nprocs && 0 <= numSet <= |siblings.Cpus()|
      invariant HighestOf(group, siblings.Cpus())
      invariant |siblings.Cpus()| == |group| - (excess - numSet)
      invariant forall c :: c in siblings.Cpus() ==> i <= c < nprocs || numSet == 0
      invariant numSet > 0 ==> exists c :: c in siblings.Cpus()
      decreases nprocs - i
    {
      var isSet := siblings.IsSet(i);
      if isSet {
        siblings.Clr(i);
        numSet := numSet - 1;
      }
      i := i + 1;
    }
  }

  /** Adds as many CPUs of the group of i as are still wanted. */
  method AddPart(cset: Cset, siblings: Cset, t: Topology, ghost i: nat, numSet: nat, numCpus: nat)
    requires WellFormed(t) && i < t.nprocs && i !in Groups(t, i) && numCpus <= numSet
    requires cset.Valid() && siblings.Valid() && cset.bits != siblings.bits
    requires cset.Cpus() == Groups(t, i) && siblings.Cpus() == t.siblings[i] && numSet == |t.siblings[i]|
    modifies cset.bits, siblings.bits
    ensures Leading(t, true, cset.Cpus()) && |cset.Cpus()| == |old(cset.Cpus())| + numCpus
  {
    NextGroup(t, i);
    var taken := siblings.Test(cset);
    assert !taken;
    Trim(siblings, t.nprocs, numSet - numCpus);
    GroupsAndPart(t, i, siblings.Cpus());
    assert cset.Cpus() * siblings.Cpus() == {};
    cset.OrEq(siblings);
  }

  /** The visit of CPU i: its group, if it is not taken yet; false if the group is as large
      as what is still wanted, or larger. */
  method TakeGroup(cset: Cset, siblings: Cset, t: Topology, i: nat, numCpus: nat) returns (fits: bool, numSet: nat)
    requires WellFormed(t) && i < t.nprocs && numCpus > 0
    requires cset.Valid() && siblings.Valid() && cset.bits != siblings.bits && cset.Cpus() == Groups(t, i)
    modifies cset.bits, siblings.bits
    ensures fits ==> numSet < numCpus && cset.Cpus() == Groups(t, i + 1)
    ensures fits ==> |Groups(t, i + 1)| == |Groups(t, i)| + numSet
    ensures !fits ==> cset.Cpus() == Groups(t, i) && i !in Groups(t, i)
    ensures !fits ==> siblings.Cpus() == t.siblings[i] && numSet == |t.siblings[i]| >= numCpus
  {
    NextGroup(t, i);
    var isSet := cset.IsSet(i);
    if isSet {
      return true, 0;
    }
    LoadSiblings(t, i, siblings);
    numSet := siblings.Count();
    if numSet >= numCpus {
      return false, numSet;
    }
    var taken := siblings.Test(cset);
    assert !taken;
    cset.OrEq(siblings);
    fits := true;
  }

  /** Takes whole groups while they fit, then part of the next one. */
  method SelectWholeCores(cset: Cset, t: Topology, num: nat)
    requires WellFormed(t) && 0 < num < t.nprocs
    requires cset.Valid() && cset.Cpus() == {}
    modifies cset.bits
    ensures Leading(t, true, cset.Cpus()) && |cset.Cpus()| == num
  {
    var siblings := new Cset();
    var numCpus, numSet, fits, i := num, num, true, 0;
    assert Groups(t, 0) == {};
    while i < t.nprocs
      invariant 0 <= i <= t.nprocs && numCpus > 0
      invariant cset.Cpus() == Groups(t, i) && numCpus + |Groups(t, i)| == num
      invariant siblings.Valid() && fresh(siblings.bits)
    {
      fits, numSet := TakeGroup(cset, siblings, t, i, numCpus);
      if !fits {
        break;
      }
      numCpus := numCpus - numSet;
      i := i + 1;
    }
    AllGroups(t, i);
    AddPart(cset, siblings, t, i, numSet, numCpus);
  }

  lemma AllGroups(t: Topology, i: nat)
    requires WellFormed(t) && i <= t.nprocs
    ensures i == t.nprocs ==> |Groups(t, i)| == t.nprocs
  {
    if i == t.nprocs {
      assert Groups(t, i) == Below(t.nprocs);
    }
  }

  // ----- the choice -------------------------------------------------------------------

  predicate ShouldPin(cpuList: Option<seq<u32>>, numCpus: int, pinCpus: bool) {
    cpuList.Some? || numCpus > 0 || pinCpus
  }

  /** cpu_list_to_cpuset: a number that is no CPU is warned about and skipped; false if
      the source dies because nothing is left. */
  method FromList(cset: Cset, t: Topology, cpus: seq<u32>) returns (ok: bool)
    requires WellFormed(t) && cset.Valid()
    modifies cset.bits
    ensures cset.Cpus() == set c | c in cpus && c < t.nprocs
    ensures ok <==> cset.Cpus() != {}
  {
    cset.Zero();
    for i := 0 to |cpus|
      invariant cset.Cpus() == set c | c in cpus[..i] && c < t.nprocs
    {
      if cpus[i] < t.nprocs {
        cset.Set(cpus[i]);
      }
      assert cpus[..i + 1] == cpus[..i] + [cpus[i]];
    }
    assert cpus[..|cpus|] == cpus;
    var empty := cset.Empty();
    ok := !empty;
  }

  /** None if the source dies, otherwise whether threads are pinned. */
  method SetAllowable(cset: Cset, t: Topology, cpuList: Option<seq<u32>>, numCpus: int, pinCpus: bool, hyper: bool)
    returns (pinned: Option<bool>)
    requires WellFormed(t) && cset.Valid()
    modifies cset.bits
    ensures pinned == None <==> cpuList.Some? && forall c :: c in cpuList.value ==> c >= t.nprocs
    ensures cpuList.None? && numCpus <= 0 && !pinCpus ==> pinned == Some(false) && cset.Cpus() == {}
    ensures cpuList.None? && (numCpus > 0 || pinCpus) ==> pinned == Some(true) && cset.Cpus() != {}
    ensures cpuList.Some? && (exists c :: c in cpuList.value && c < t.nprocs) ==>
              pinned == Some(true) && cset.Cpus() != {}
    ensures forall c :: c in cset.Cpus() ==> c < t.nprocs
    ensures cpuList.Some? ==> cset.Cpus() == set c | c in cpuList.value && c < t.nprocs
    ensures cpuList.None? && 0 < numCpus < t.nprocs ==>
              Leading(t, hyper, cset.Cpus()) && |cset.Cpus()| == numCpus
    ensures cpuList.None? && !(0 < numCpus < t.nprocs) && (numCpus > 0 || pinCpus) ==> cset.Cpus() == Below(t.nprocs)
  {
    if !ShouldPin(cpuList, numCpus, pinCpus) {
      cset.Zero();
      return Some(false);
    }
    if cpuList.Some? {
      var ok := FromList(cset, t, cpuList.value);
      if ok {
        ghost var c :| c in cset.Cpus();
      } else {
        assert forall c :: c in cpuList.value && c < t.nprocs ==> c in cset.Cpus();
      }
      return if ok then Some(true) else None;
    }
    if numCpus <= 0 || numCpus >= t.nprocs {
      cset.All(t.nprocs);
      assert 0 in cset.Cpus();
    } else {
      cset.Zero();
      if hyper {
        SelectWholeCores(cset, t, numCpus);
      } else {
        SelectCoresFirst(cset, t, numCpus);
      }
    }
    return Some(true);
  }
}
