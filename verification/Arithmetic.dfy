/** Integer facts that the solver needs to be told one at a time. */
module Arithmetic {

  function Min(a: int, b: int): int {
    if a <= b then a else b
  }

  function Max(a: int, b: int): int {
    if a >= b then a else b
  }

  lemma OneMore(n: int, unit: int)
    ensures (n + 1) * unit == n * unit + unit
  {
  }

  lemma ProductMonotone(a: int, b: int, d: nat)
    requires a <= b
    ensures a * d <= b * d
  {
  }

  lemma QuotientAndRemainder(n: int, d: int, q: int, r: int)
    requires d > 0 && n == q * d + r && 0 <= r < d
    ensures n / d == q && n % d == r
  {
    var k := n / d - q;
    assert k * d == r - n % d;
    if k >= 1 {
      ProductMonotone(1, k, d);
    } else if k <= -1 {
      ProductMonotone(k, -1, d);
    }
  }

  lemma QuotientAtLeast(n: nat, d: nat, q: nat)
    requires d > 0 && q * d <= n
    ensures q <= n / d
  {
    OneMore(n / d, d);
    if n / d < q {
      ProductMonotone(n / d + 1, q, d);
    }
  }
}
