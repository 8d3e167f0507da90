/** Division facts that positional notation needs. */
module Arithmetic {

  /** Dividing twice is dividing by the product. */
  lemma DivideTwice(v: nat, a: nat, p: nat)
    requires a > 0 && p > 0
    ensures v / a / p == v / (a * p)
  {
    var q, r := v / a / p, v / a % p;
    assert v == a * (p * q + r) + v % a;
    assert a * (p * q + r) == (a * p) * q + a * r;
    Multiple(a, r, p);
    assert a * p > 0;
    QuotientIs(v, a * p, q, a * r + v % a);
  }

  lemma QuotientIs(v: nat, d: nat, q: nat, r: nat)
    requires d > 0 && v == d * q + r && r < d
    ensures v / d == q
  {
    var q' := v / d;
    if q < q' { Multiple(d, q, q'); } else if q' < q { Multiple(d, q', q); }
  }

  lemma Multiple(d: nat, a: nat, b: nat)
    requires a < b
    ensures d * a + d <= d * b
  {
    assert d * b == d * a + d * (b - a);
    assert d * (b - a) == d + d * (b - a - 1);
  }
}
