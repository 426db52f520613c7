/** Powers of two, bitwise or and masks on natural numbers. */
module Bits {
  import opened Arithmetic

  function P(k: nat): (p: nat)
    ensures p >= 1
  {
    if k == 0 then 1 else 2 * P(k - 1)
  }

  lemma {:induction false} PAdd(a: nat, b: nat)
    ensures P(a + b) == P(a) * P(b)
  {
    if b > 0 {
      PAdd(a, b - 1);
      assert P(a + b) == 2 * P(a + b - 1) && P(b) == 2 * P(b - 1);
      hide P;
      Twofold(P(a), P(b - 1));
    }
  }

  lemma Twofold(x: nat, y: nat)
    ensures x * (2 * y) == 2 * (x * y)
  {
  }

  lemma {:induction false} PMonotone(a: nat, b: nat)
    requires a <= b
    ensures P(a) <= P(b)
  {
    if a < b { PMonotone(a, b - 1); }
  }

  function Shl(x: nat, k: nat): nat { x * P(k) }

  function Or(a: nat, b: nat): nat
    decreases a + b
  {
    if a == 0 then b
    else if b == 0 then a
    else 2 * Or(a / 2, b / 2) + if a % 2 == 1 || b % 2 == 1 then 1 else 0
  }

  lemma Halves(b: nat, p: nat)
    ensures (b * (2 * p)) / 2 == b * p && (b * (2 * p)) % 2 == 0
  {
    assert b * (2 * p) == 2 * (b * p);
  }

  /** Or of disjoint bit ranges is addition. */
  lemma {:induction false} OrIsSum(a: nat, b: nat, k: nat)
    requires a < P(k)
    ensures Or(a, b * P(k)) == a + b * P(k)
  {
    if a > 0 && b > 0 {
      assert k > 0 && P(k) == 2 * P(k - 1);
      Halves(b, P(k - 1));
      OrIsSum(a / 2, b, k - 1);
      assert b * P(k) > 0;
    }
  }

  /** The low `w` bits, in two's complement for negative numbers. */
  function Mask(x: int, w: nat): (r: nat)
    ensures r < P(w)
  {
    x % P(w)
  }

  lemma MaskFits(x: int, w: nat)
    requires 0 <= x < P(w)
    ensures Mask(x, w) == x
  {
    SplitAt(x, 0, P(w));
  }
}
