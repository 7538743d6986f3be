/** Powers and quotients. */
module Arithmetic {

  function Pow2(k: nat): (p: nat)
    ensures p > 0
  {
    if k == 0 then 1 else 2 * Pow2(k - 1)
  }

  lemma Pow2Step(j: nat)
    ensures Pow2(j) == if j == 0 then 1 else 2 * Pow2(j - 1)
  {
  }

  function Pow10(k: nat): nat {
    if k == 0 then 1 else 10 * Pow10(k - 1)
  }

  lemma {:induction false} Pow10Grows(j: nat, k: nat)
    requires j <= k
    ensures 0 < Pow10(j) <= Pow10(k)
    decreases k
  {
    if j < k {
      Pow10Grows(j, k - 1);
    } else if k > 0 {
      Pow10Grows(k - 1, k - 1);
    }
  }

  lemma Multiples(p: nat, q: nat, n: nat)
    requires p < q
    ensures p * n + n <= q * n
    decreases q
  {
    if p + 1 < q {
      Multiples(p, q - 1, n);
    }
    assert q * n == (q - 1) * n + n;
  }

  lemma Quotient(a: nat, n: nat, q: nat)
    requires n > 0 && q * n <= a < q * n + n
    ensures a / n == q && a % n == a - q * n
  {
    var p := a / n;
    assert a == p * n + a % n;
    if p > q {
      Multiples(q, p, n);
    } else if p < q {
      Multiples(p, q, n);
    }
  }

  lemma Regroup(q: nat, c: nat, p: nat)
    ensures q * p * c == q * (c * p)
  {
  }

  lemma Distribute(a: nat, b: nat, c: nat)
    ensures (a + b) * c == a * c + b * c
  {
  }

  // `q` is the quotient of the quotient, with remainders `r` and `t`.
  lemma NestedBounds(q: nat, r: nat, t: nat, c: nat, p: nat)
    requires r < p && t < c
    ensures c * p > 0 && q * (c * p) <= (q * p + r) * c + t < q * (c * p) + c * p
  {
    Distribute(q * p, r, c);
    Regroup(q, c, p);
    Multiples(r, p, c);
  }

  lemma Division(n: nat, c: nat)
    requires c > 0
    ensures n == n / c * c + n % c && 0 <= n % c < c
  {
  }

  lemma NestedQuotient(n: nat, c: nat, p: nat)
    requires c > 0 && p > 0
    ensures c * p > 0 && n / c / p == n / (c * p)
  {
    var m := n / c;
    var q := m / p;
    Division(n, c);
    Division(m, p);
    NestedBounds(q, m % p, n % c, c, p);
    Quotient(n, c * p, q);
  }
}
