/** Sets of CPUs as the bit array cpu_set_t, with the operations the runner uses.
    get_num_cpus is a constant of the build and is passed in. */
module CpuSet {
  import opened Basics

  /** Number of bits of a cpu_set_t. */
  const CPU_SETSIZE: nat := 1024

  function Below(n: nat): (cpus: set<nat>)
    ensures forall c: nat :: c in cpus <==> c < n
    ensures |cpus| == n
  {
    if n == 0 then {} else Below(n - 1) + {n - 1}
  }

  ghost predicate IsLeast(x: set<nat>, c: int) {
    c >= 0 && c in x && forall d :: d in x ==> c <= d
  }

  class Cset {
    const bits: array<bool>

    ghost predicate Valid() {
      bits.Length == CPU_SETSIZE
    }

    ghost function Cpus(): (cpus: set<nat>)
      requires Valid()
      reads bits
      ensures forall c :: c in cpus ==> c < CPU_SETSIZE
    {
      set c: nat | c < CPU_SETSIZE && bits[c]
    }

    /** new_cpuset_zero. */
    constructor ()
      ensures Valid() && fresh(bits) && Cpus() == {}
    {
      bits := new bool[CPU_SETSIZE](_ => false);
    }

    method Zero()
      requires Valid()
      modifies bits
      ensures Cpus() == {}
    {
      forall c | 0 <= c < bits.Length {
        bits[c] := false;
      }
    }

    method Copy(other: Cset)
      requires Valid() && other.Valid()
      modifies bits
      ensures Cpus() == old(other.Cpus())
    {
      forall c | 0 <= c < bits.Length {
        bits[c] := other.bits[c];
      }
    }

    /** CPU_SET and CPU_CLR ignore a CPU that has no bit. */
    method Set(cpu: nat)
      requires Valid()
      modifies bits
      ensures Cpus() == old(Cpus()) + (if cpu < 1024 then {cpu} else {})
    {
      if cpu < bits.Length {
        bits[cpu] := true;
      }
    }

    method Clr(cpu: nat)
      requires Valid()
      modifies bits
      ensures Cpus() == old(Cpus()) - {cpu}
    {
      if cpu < bits.Length {
        bits[cpu] := false;
      }
    }

    method IsSet(cpu: nat) returns (r: bool)
      requires Valid()
      ensures r <==> cpu in Cpus()
    {
      r := cpu < bits.Length && bits[cpu];
    }

    method Count() returns (n: nat)
      requires Valid()
      ensures n == |Cpus()|
    {
      n := 0;
      ghost var seen: set<nat> := {};
      for c := 0 to bits.Length
        invariant seen == set d: nat | d < c && bits[d]
        invariant n == |seen|
      {
        if bits[c] {
          n := n + 1;
          seen := seen + {c};
        }
      }
      assert seen == Cpus();
    }

    method Equal(other: Cset) returns (r: bool)
      requires Valid() && other.Valid()
      ensures r <==> Cpus() == other.Cpus()
    {
      r := forall c :: 0 <= c < bits.Length ==> bits[c] == other.bits[c];
      assert forall c: nat :: c < CPU_SETSIZE ==> (bits[c] <==> c in Cpus()) && (other.bits[c] <==> c in other.Cpus());
    }

    method OrEq(other: Cset)
      requires Valid() && other.Valid()
      modifies bits
      ensures Cpus() == old(Cpus()) + old(other.Cpus())
    {
      forall c | 0 <= c < bits.Length {
        bits[c] := bits[c] || other.bits[c];
      }
    }

    method And(left: Cset, right: Cset)
      requires Valid() && left.Valid() && right.Valid()
      modifies bits
      ensures Cpus() == old(left.Cpus()) * old(right.Cpus())
    {
      forall c | 0 <= c < bits.Length {
        bits[c] := left.bits[c] && right.bits[c];
      }
    }

    method Empty() returns (r: bool)
      requires Valid()
      ensures r <==> Cpus() == {}
    {
      var zero := new Cset();
      r := Equal(zero);
    }

    method Test(other: Cset) returns (r: bool)
      requires Valid() && other.Valid()
      ensures r <==> Cpus() * other.Cpus() != {}
    {
      var tmp := new Cset();
      tmp.And(this, other);
      var empty := tmp.Empty();
      r := !empty;
    }

    /** The least CPU below ncpus, or -1. The source asserts that the set is not empty. */
    method First(ncpus: nat) returns (cpu: int)
      requires Valid() && Cpus() != {}
      ensures cpu == -1 <==> Cpus() * Below(ncpus) == {}
      ensures cpu != -1 ==> cpu < ncpus && IsLeast(Cpus(), cpu)
    {
      ghost var cpus := Cpus();
      for i := 0 to ncpus
        invariant forall c :: c in cpus ==> i <= c
      {
        var hit := IsSet(i);
        if hit {
          assert i in cpus * Below(ncpus);
          return i;
        }
      }
      return -1;
    }

    method CopyFirst(other: Cset, ncpus: nat) returns (cpu: nat)
      requires Valid() && other.Valid() && bits != other.bits && other.Cpus() * Below(ncpus) != {}
      modifies bits
      ensures IsLeast(other.Cpus(), cpu) && Cpus() == {cpu}
    {
      var first := other.First(ncpus);
      Zero();
      Set(first);
      cpu := first;
    }

    method ClrFirst(ncpus: nat)
      requires Valid() && Cpus() * Below(ncpus) != {}
      modifies bits
      ensures exists c :: IsLeast(old(Cpus()), c) && Cpus() == old(Cpus()) - {c}
    {
      var first := First(ncpus);
      Clr(first);
    }

    /** memset of the first bytes with ones. */
    method FillBytes(bytes: nat)
      requires Valid() && 8 * bytes <= CPU_SETSIZE && Cpus() == {}
      modifies bits
      ensures Cpus() == Below(8 * bytes)
    {
      forall c | 0 <= c < 8 * bytes {
        bits[c] := true;
      }
      assert forall c: nat :: c < CPU_SETSIZE && old(bits[c]) ==> c in old(Cpus());
    }

    /** Whole bytes are filled at once, the CPUs of the last byte one by one. */
    method All(nprocs: nat)
      requires Valid() && nprocs <= CPU_SETSIZE
      modifies bits
      ensures Cpus() == Below(nprocs)
    {
      Zero();
      FillBytes(nprocs / 8);
      var i := nprocs - nprocs % 8;
      assert i == 8 * (nprocs / 8);
      while i != nprocs
        invariant 0 <= i <= nprocs
        invariant Cpus() == Below(i)
      {
        Set(i);
        i := i + 1;
      }
    }
  }
}
