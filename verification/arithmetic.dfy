/** Facts about multiplication and floor division that the solver does not
    find on its own; used by the pagination and calendar arithmetic. */
module Arithmetic {

  /** Multiplying by a non-negative factor keeps the order. */
  lemma {:induction false} MulMonotone(x: int, y: int, p: nat)
    requires x <= y
    ensures x * p <= y * p
  {
    if p > 0 {
      MulMonotone(x, y, p - 1);
      assert x * p == x * (p - 1) + x;
      assert y * p == y * (p - 1) + y;
    }
  }

  /** A strict inequality between multiples of a positive factor holds between the multipliers. */
  lemma MulCancel(a: int, b: int, p: nat)
    requires p > 0 && a * p < b * p
    ensures a < b
  {
    if b <= a {
      MulMonotone(b, a, p);
    }
  }

  /** Quotient and remainder are the only pair with `a == q * d + r` and `0 <= r < d`. */
  lemma DivModUnique(a: int, d: int, q: int, r: int)
    requires d > 0 && a == q * d + r && 0 <= r < d
    ensures a / d == q && a % d == r
  {
    var q', r' := a / d, a % d;
    assert a == q' * d + r' && 0 <= r' < d;
    if q < q' {
      MulMonotone(q + 1, q', d);
    } else if q' < q {
      MulMonotone(q' + 1, q, d);
    }
  }

  /** Floor division moves up by one exactly when the next number is a multiple. */
  lemma DivStep(a: int, d: int)
    requires d > 0
    ensures (a + 1) / d == a / d + (if (a + 1) % d == 0 then 1 else 0)
  {
    var q, r := a / d, a % d;
    if r + 1 < d {
      DivModUnique(a + 1, d, q, r + 1);
    } else {
      DivModUnique(a + 1, d, q + 1, 0);
    }
  }

  /** Shifting by a multiple of the divisor keeps the remainder. */
  lemma ModShift(a: int, k: int, d: int)
    requires d > 0
    ensures (a + k * d) % d == a % d
  {
    DivModUnique(a + k * d, d, a / d + k, a % d);
  }

  /** The remainder of a sum depends only on the remainder of the first term. */
  lemma ModAdd(x: int, n: int, d: int)
    requires d > 0
    ensures (x + n) % d == (x % d + n) % d
  {
    ModShift(x % d + n, x / d, d);
  }
}
