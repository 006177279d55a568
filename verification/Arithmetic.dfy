/** The smaller of two numbers, and facts about products that the solver is slow to find. */
module Arithmetic {
  function Least(a: int, b: int): int { if a < b then a else b }

  lemma MulMonotone(k: nat, a: int, b: int)
    requires a <= b
    ensures k * a <= k * b
  {
  }

  lemma MultipleOf(k: nat, d: nat)
    requires d > 0
    ensures (k * d) % d == 0
  {
    QuotientOf(k, d);
    assert k * d == k * d / d * d + k * d % d;
  }

  lemma QuotientOf(k: nat, d: nat)
    requires d > 0
    ensures k * d / d == k
  {
    var q, r := k * d / d, k * d % d;
    assert k * d == q * d + r;
    if k > q {
      MulMonotone(d, q + 1, k);
    } else if k < q {
      MulMonotone(d, k + 1, q);
    }
  }

  lemma DividesThrough(d: nat, k: nat, n: nat)
    requires d > 0 && k > 0 && k % d == 0 && n % k == 0
    ensures n % d == 0
  {
    var p, q := n / k, k / d;
    assert n == p * k && k == q * d;
    assert n == (p * q) * d;
    MultipleOf(p * q, d);
  }
}
