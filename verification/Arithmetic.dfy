/** Division facts the solver does not find with a variable divisor. */
module Arithmetic {
  lemma SmallRemainder(n: nat, d: nat)
    requires n < d
    ensures n % d == n
  {
  }

  lemma OneFewer(n: nat, d: nat)
    requires 0 < d <= n
    ensures (n - d) % d == n % d
  {
    var q := n / d;
    assert n == d * q + n % d;
    assert n - d == d * (q - 1) + n % d;
    RemainderUnique(n - d, d, q - 1, n % d);
  }

  lemma RemainderUnique(n: int, d: nat, q: int, r: int)
    requires d > 0 && n == d * q + r && 0 <= r < d
    ensures n / d == q && n % d == r
  {
    var q', r' := n / d, n % d;
    assert n == d * q' + r';
    if q > q' {
      MultipleGap(d, q, q');
    } else if q < q' {
      MultipleGap(d, q', q);
    }
  }

  lemma MultipleGap(d: nat, a: int, b: int)
    requires a > b
    ensures d * a >= d * b + d
  {
    var k: nat := a - b - 1;
    assert d * a == d * b + d + d * k;
  }
}
