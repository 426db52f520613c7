/** Division, remainder and products of natural numbers, in the forms the other modules need. */
module Arithmetic {
  function CeilDiv(n: nat, d: nat): nat
    requires d > 0
  {
    (n + d - 1) / d
  }

  lemma CeilBounds(n: nat, d: nat)
    requires d > 0
    ensures var q := CeilDiv(n, d); q * d >= n && (q > 0 ==> (q - 1) * d < n) && (n == 0 <==> q == 0)
  {
    var q := CeilDiv(n, d);
    assert q * d + (n + d - 1) % d == n + d - 1;
    if q > 0 { assert (q - 1) * d == q * d - d; }
    if n == 0 { SmallDiv(d - 1, d); }
  }

  function Sum(s: seq<int>): int { if s == [] then 0 else Sum(s[..|s| - 1]) + s[|s| - 1] }

  lemma SmallDiv(x: nat, d: nat)
    requires x < d
    ensures x / d == 0
  {
  }

  lemma MulLe(a: nat, b: nat, m: nat)
    requires a <= b
    ensures a * m <= b * m
  {
  }

  /** Splitting a number into quotient and remainder. */
  lemma SplitAt(a: nat, b: nat, p: nat)
    requires a < p
    ensures (a + b * p) % p == a && (a + b * p) / p == b
  {
    var x := a + b * p;
    var k: int := x / p - b;
    assert x == x / p * p + x % p;
    assert k * p == a - x % p;
    assert k >= 1 ==> k * p >= p;
    assert k <= -1 ==> k * p + p <= 0;
  }
}
