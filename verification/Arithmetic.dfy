/** Quotients and remainders by a variable divisor. */
module Arithmetic {

  lemma Times(n: nat, x: nat, y: nat)
    requires x <= y
    ensures n * x <= n * y
  {}

  lemma Quotients(q: nat, p: nat, r: nat, n: nat)
    requires n > 0 && n * q + r < n * p + r + n && n * p + r < n * q + r + n
    ensures q == p
  {
    if q < p {
      Times(n, q + 1, p);
    } else if p < q {
      Times(n, p + 1, q);
    }
  }

  /** Numbers less than n apart with one remainder are equal. */
  lemma SameResidue(a: nat, b: nat, n: nat)
    requires n > 0 && a % n == b % n && a < b + n && b < a + n
    ensures a == b
  {
    Quotients(a / n, b / n, a % n, n);
  }

  lemma Quotient(x: nat, n: nat, q: nat, r: nat)
    requires n > 0 && x == n * q + r && r < n
    ensures x / n == q && x % n == r
  {
    var p, s := x / n, x % n;
    assert x == n * p + s;
    if p < q {
      Times(n, p + 1, q);
    } else if q < p {
      Times(n, q + 1, p);
    }
  }

  lemma Small(x: nat, n: nat)
    requires x < n
    ensures x % n == x
  {
    Quotient(x, n, 0, x);
  }

  lemma SuccMod(i: nat, n: nat)
    requires n > 0
    ensures (i % n + 1) % n == (i + 1) % n
  {
    var q, r := i / n, i % n;
    assert i == n * q + r;
    if r + 1 < n {
      Quotient(i + 1, n, q, r + 1);
      Quotient(r + 1, n, 0, r + 1);
    } else {
      assert n * (q + 1) == n * q + n;
      Quotient(i + 1, n, q + 1, 0);
      Quotient(n, n, 1, 0);
    }
  }

  lemma WholeTurn(i: nat, n: nat)
    requires n > 0
    ensures (i + n) % n == i % n
  {
    assert i == n * (i / n) + i % n;
    assert n * (i / n + 1) == n * (i / n) + n;
    Quotient(i + n, n, i / n + 1, i % n);
  }

  /** Reducing before adding does not change the remainder. */
  lemma AddMod(i: nat, k: nat, n: nat)
    requires n > 0
    ensures (i % n + k) % n == (i + k) % n
  {
    var q := (i % n + k) / n;
    assert i % n + k == n * q + (i % n + k) % n;
    assert i + k == n * (i / n) + i % n + k;
    assert n * (i / n + q) == n * (i / n) + n * q;
    Quotient(i + k, n, i / n + q, (i % n + k) % n);
  }
}
