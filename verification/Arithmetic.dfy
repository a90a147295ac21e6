/** Facts about division. */
module Arithmetic {
  lemma DivideTwice(n: nat, p: nat)
    requires p > 0
    ensures n / 10 / p == n / (10 * p)
  {
    var q, r := n / 10 / p, n / 10 % p;
    assert n / 10 == q * p + r;
    assert q * (10 * p) == 10 * (q * p);
    QuotientIs(n, 10 * p, q, 10 * r + n % 10);
  }

  lemma QuotientIs(n: nat, m: nat, q: nat, r: nat)
    requires r < m && n == q * m + r
    ensures n / m == q
  {
    var q' := n / m;
    assert n == q' * m + n % m;
    if q < q' { TimesMore(q, q', m); }
    if q' < q { TimesMore(q', q, m); }
  }

  lemma TimesMore(a: nat, b: nat, m: nat)
    requires a < b
    ensures a * m + m <= b * m
  {
    assert (a + 1) * m <= b * m;
  }

  lemma MultipleOf(k: nat, m: nat)
    requires m > 0
    ensures (k * m) % m == 0
  {
    QuotientIs(k * m, m, k, 0);
  }
}
