/** Definitions and counting facts shared by the lock models. */
module Basics {

  datatype Option<+T> = None | Some(value: T)

  /** Number of distinct values of a C uint32_t. */
  const U32: nat := 0x1_0000_0000

  type u32 = x: nat | x < U32

  /** Number of distinct values of a C uint64_t. */
  const U64: nat := 0x1_0000_0000_0000_0000

  /** A run's length, as the machines' Reaches asks for it. */
  ghost predicate IsLength<T>(xs: seq<T>, n: nat) {
    n == |xs|
  }

  ghost predicate Distinct<T>(xs: seq<T>) {
    forall i, j :: 0 <= i < j < |xs| ==> xs[i] != xs[j]
  }

  /** The pigeonhole principle: distinct values below n are at most n many. */
  lemma {:induction false} Pigeonhole(xs: seq<int>, n: nat)
    requires Distinct(xs)
    requires forall i :: 0 <= i < |xs| ==> 0 <= xs[i] < n
    ensures |xs| <= n
  {
    if |xs| != 0 {
      assert xs[0] < n;
      if n - 1 in xs {
        var i :| 0 <= i < |xs| && xs[i] == n - 1;
        Pigeonhole(xs[..i] + xs[i + 1..], n - 1);
      } else {
        Pigeonhole(xs[1..], n - 1);
      }
    }
  }

  lemma {:induction false} SubsetSize(x: set<nat>, y: set<nat>)
    requires x <= y
    ensures |x| <= |y| && (|x| == |y| ==> x == y)
  {
    if x != {} {
      var c :| c in x;
      SubsetSize(x - {c}, y - {c});
    }
  }

  lemma MultipleGrows(d: int, m: nat)
    ensures d >= 1 ==> d * m >= m
    ensures d <= -1 ==> d * m <= -(m as int)
  {
    if d >= 1 {
      assert d * m == m + (d - 1) * m;
    } else if d <= -1 {
      assert d * m == (d + 1) * m - m;
    }
  }

  /** Euclid: a quotient and a remainder below the divisor determine the residue. */
  lemma MultipleMod(q: int, r: nat, m: nat)
    requires 0 <= r < m
    ensures (q * m + r) % m == r
  {
    var x := q * m + r;
    var k, b := x / m, x % m;
    assert x == k * m + b;
    assert (k - q) * m == k * m - q * m;
    MultipleGrows(k - q, m);
  }

  /** Numbers less than m apart are equal exactly when they agree modulo m:
      the u32 ticket comparisons decide equality of the unbounded tickets. */
  lemma WrapExact(a: nat, b: nat, m: nat)
    requires 0 < m && a <= b < a + m
    ensures a % m == b % m <==> a == b
  {
    if a % m == b % m {
      var i, j := a / m, b / m;
      assert a == i * m + a % m && b == j * m + b % m;
      assert (j - i) * m == j * m - i * m;
      MultipleGrows(j - i, m);
    }
  }

  lemma ModSucc(a: nat, m: nat)
    requires 0 < m
    ensures (a + 1) % m == if a % m == m - 1 then 0 else a % m + 1
  {
    var q, r := a / m, a % m;
    assert a == q * m + r;
    if r == m - 1 {
      assert a + 1 == (q + 1) * m + 0;
      MultipleMod(q + 1, 0, m);
    } else {
      assert a + 1 == q * m + (r + 1);
      MultipleMod(q, r + 1, m);
    }
  }

  /** A u32 increment of a wrapped counter is the wrapped increment. */
  lemma WrapSucc(a: nat, m: nat)
    requires 0 < m
    ensures (a % m + 1) % m == (a + 1) % m
  {
    ModSucc(a, m);
    var r := a % m + 1;
    if r == m {
      MultipleMod(1, 0, m);
    } else {
      MultipleMod(0, r, m);
    }
  }

  lemma ResidueClass(a: nat, i: nat, m: nat)
    requires i < m && i <= a
    ensures a % m == i <==> (a - i) % m == 0
  {
    if a % m == i {
      assert a - i == a / m * m + 0;
      MultipleMod(a / m, 0, m);
    }
    if (a - i) % m == 0 {
      assert a == (a - i) / m * m + i;
      MultipleMod((a - i) / m, i, m);
    }
  }

  /** A number is its quotient by n * k, split by n, and its residue. */
  lemma NestedDivision(a: nat, n: nat, k: nat, q: nat, b: nat)
    requires 0 < n && a == q * (n * k) + b
    ensures a == (q * k + b / n) * n + b % n
  {
    assert q * (n * k) == (q * k) * n;
    assert b == b / n * n + b % n;
    assert (q * k + b / n) * n == (q * k) * n + b / n * n;
  }

  /** Reducing modulo a multiple of n first does not change the residue modulo n. */
  lemma ModOfMod(a: nat, n: nat, k: nat)
    requires 0 < n && 0 < k
    ensures n * k > 0 && (a % (n * k)) % n == a % n
  {
    var m := n * k;
    MultipleGrows(n, k);
    var q, b := a / m, a % m;
    NestedDivision(a, n, k, q, b);
    MultipleMod(q * k + b / n, b % n, n);
  }
}
