/**
 Dividing natural numbers.
 */
module Naturals {

  lemma MulMonotone(a: nat, b: nat, c: nat)
    requires a <= b
    ensures a * c <= b * c
  {
  }

  lemma QuotientUnique(n: nat, d: nat, q: nat, r: nat)
    requires d > 0 && n == q * d + r && r < d
    ensures n / d == q
  {
    var k := n / d;
    assert n == k * d + n % d;
    if k < q { MulMonotone(k + 1, q, d); } else if q < k { MulMonotone(q + 1, k, d); }
  }

  /** Dividing by `c` and then by `d` is dividing by their product. */
  lemma DivideTwice(n: nat, c: nat, d: nat)
    requires c > 0 && d > 0 && c * d > 0
    ensures (n / c) / d == n / (c * d)
  {
    var m := n / c;
    DivisionIs(n, c);
    DivisionIs(m, d);
    Compose(n, c, d, m, n % c, m / d, m % d);
  }

  lemma DivisionIs(n: nat, c: nat)
    requires c > 0
    ensures n == (n / c) * c + n % c && n % c < c
  {
  }

  lemma Compose(n: nat, c: nat, d: nat, m: nat, r1: nat, q: nat, r: nat)
    requires n == m * c + r1 && r1 < c && m == q * d + r && r < d && c * d > 0
    ensures n / (c * d) == q
  {
    var p := c * d;
    Regroup(c, d, q, r);
    MulMonotone(r + 1, d, c);
    QuotientUnique(n, p, q, r * c + r1);
  }

  lemma Regroup(c: nat, d: nat, q: nat, r: nat)
    ensures (q * d + r) * c == q * (c * d) + r * c && (r + 1) * c == r * c + c && d * c == c * d
  {
  }
}
