/** Division with remainder, and numbers not in use yet. */
module Arithmetic {

  function Max(a: int, b: int): int {
    if a >= b then a else b
  }

  lemma DivBounds(x: int, d: int)
    requires d > 0
    ensures (x / d) * d <= x < (x / d) * d + d
  {
  }

  lemma NextMultiple(a: int, b: int, d: int)
    requires a < b && d > 0
    ensures a * d + d <= b * d
  {
    var k := b - a - 1;
    assert k * d >= 0;
    assert b * d == (a + 1 + k) * d == a * d + d + k * d;
  }

  lemma DivUnique(x: int, d: int, q: int)
    requires d > 0 && q * d <= x < q * d + d
    ensures x / d == q
  {
    DivBounds(x, d);
    if x / d < q {
      NextMultiple(x / d, q, d);
    } else if q < x / d {
      NextMultiple(q, x / d, d);
    }
  }

  lemma RemainderUnique(q: nat, n: nat, r: nat)
    requires r < n
    ensures (q * n + r) % n == r
  {
    DivUnique(q * n + r, n, q);
  }

  lemma NotCongruent(x: nat, y: nat, n: nat)
    requires x < y < x + n
    ensures x % n != y % n
  {
    if x / n < y / n {
      NextMultiple(x / n, y / n, n);
    }
  }

  /** From any starting point, one of the next n numbers leaves a given remainder. */
  lemma ReachRemainder(x: nat, n: nat, r: nat) returns (k: nat)
    requires r < n
    ensures k < n && (x + k) % n == r
  {
    var q, d := x % n, x / n;
    assert x == d * n + q;
    if q <= r {
      k := r - q;
      assert x + k == d * n + r;
      RemainderUnique(d, n, r);
    } else {
      k := r + n - q;
      assert x + k == (d + 1) * n + r;
      RemainderUnique(d + 1, n, r);
    }
  }

  lemma RemainderWhen(x: int, a: nat, m: nat, q: nat, b: nat, n: nat, r: nat)
    requires r < n && m == q * n && x == a * m + (b * n + r)
    ensures x % n == r
  {
    assert a * m == a * q * n;
    assert x == (a * q + b) * n + r;
    RemainderUnique(a * q + b, n, r);
  }

  lemma Quotient(x: nat, d: nat) returns (q: nat, r: nat)
    requires d > 0
    ensures x == q * d + r && r < d && r == x % d
  {
    q, r := x / d, x % d;
  }

  lemma RemainderOfRemainder(x: nat, m: nat, n: nat)
    requires m > 0 && n > 0 && m % n == 0
    ensures x % m % n == x % n
  {
    var q, zero := Quotient(m, n);
    var a, y := Quotient(x, m);
    var b, r := Quotient(y, n);
    RemainderWhen(x, a, m, q, b, n, r);
  }

  lemma RemainderAtMost(x: nat, m: nat)
    requires m > 0
    ensures x % m <= x
  {
  }

  lemma Predecessor(m: nat, n: nat)
    requires m > 0 && n > 0 && (m - 1) % n == n - 1
    ensures m % n == 0
  {
    var q := (m - 1) / n;
    assert m == (q + 1) * n;
    RemainderUnique(q + 1, n, 0);
  }

  // ----- Fresh numbers -----

  /** A number above all of the given ones. */
  lemma {:induction false} Above(ids: set<nat>) returns (n: nat)
    ensures forall i | i in ids :: i < n
    decreases |ids|
  {
    n := 0;
    if ids != {} {
      var x :| x in ids;
      var m := Above(ids - {x});
      n := if x < m then m else x + 1;
      forall i | i in ids ensures i < n {
        if i != x {
          assert i in ids - {x};
        }
      }
    }
  }
}
