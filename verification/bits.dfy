/**
 * Non-negative integers as bit strings: the shift-left and bitwise-or that
 * the version rank is packed with, on unbounded naturals.
 */
module Bits {

  /** 2 to the power k; `x << k` on a natural is `x * Pow2(k)`. */
  function Pow2(k: nat): (r: nat)
    ensures r >= 1
  {
    if k == 0 then 1 else 2 * Pow2(k - 1)
  }

  /** The powers the version rank is packed with. */
  lemma Pow2Values()
    ensures Pow2(5) == 32 && Pow2(6) == 64 && Pow2(9) == 512 && Pow2(10) == 1024
  {
    assert Pow2(4) == 16;
  }

  /**
   * Bitwise or, one binary digit at a time from the least significant end:
   * the result has no bit set iff neither operand has. OrBounds and
   * OrDisjointIsSum give its value in terms of the operands.
   */
  function Or(a: nat, b: nat): (r: nat)
    ensures r == 0 <==> a == 0 && b == 0
    decreases a
  {
    if a == 0 then b
    else if b == 0 then a
    else 2 * Or(a / 2, b / 2) + (if a % 2 == 1 || b % 2 == 1 then 1 else 0)
  }

  /** Or never loses the larger operand and never exceeds the sum. */
  lemma {:induction false} OrBounds(a: nat, b: nat)
    ensures a <= Or(a, b) && b <= Or(a, b)
    ensures Or(a, b) <= a + b
    decreases a
  {
    if a != 0 && b != 0 {
      OrBounds(a / 2, b / 2);
    }
  }

  /**
   * When b fits entirely below bit k (p is 2 to the k) and a is shifted left
   * by k, the two share no bit, so or-ing them is adding them.
   */
  lemma {:induction false} OrDisjointIsSum(a: nat, k: nat, p: nat, b: nat)
    requires p == Pow2(k) && b < p
    ensures Or(a * p, b) == a * p + b
    decreases k
  {
    var x := a * p;
    if k == 0 {
      assert b == 0;
    } else if x != 0 && b != 0 {
      var q := Pow2(k - 1);
      assert x == 2 * (a * q);
      assert x / 2 == a * q && x % 2 == 0;
      OrDisjointIsSum(a, k - 1, q, b / 2);
      assert Or(x, b) == 2 * Or(x / 2, b / 2) + b % 2;
    }
  }
}
