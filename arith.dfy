/** Facts about multiplication the solver does not find by itself. */
module Arith {
  /** Multiplying by the same natural number keeps the order. */
  lemma {:induction false} MulMonotone(a: nat, b: nat, c: nat)
    ensures a <= b ==> a * c <= b * c
  {
    if c > 0 && a <= b {
      MulMonotone(a, b, c - 1);
      assert a * c == a * (c - 1) + a;
      assert b * c == b * (c - 1) + b;
    }
  }

  /** A quotient is at most `bound` when the dividend is at most `bound`
      times the divisor. */
  lemma QuotientBound(total: nat, n: nat, bound: nat)
    requires 0 < n && total <= bound * n
    ensures total / n <= bound
  {
    var q := total / n;
    assert n * q + total % n == total;
    MulMonotone(bound + 1, q, n);
    assert q <= bound || n * q >= (bound + 1) * n;
  }
}
