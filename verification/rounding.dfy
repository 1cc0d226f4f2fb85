/** Python's round-half-to-even on an exact rational `x / d`. */
module Rounding {
  lemma DivMod(x: nat, d: nat)
    requires d > 0
    ensures x == (x / d) * d + x % d && x % d < d
  {
  }

  lemma MulAtLeast(a: nat, d: nat)
    requires a >= 1
    ensures a * d >= d
  {
  }

  /** `m` units of `d` is the nearest whole number of units to `x`, a tie going to
      the even neighbour. */
  predicate NearestUnits(x: int, d: int, m: int)
  {
    && -d <= 2 * (m * d - x) <= d
    && (2 * (m * d - x) == d || 2 * (m * d - x) == -d ==> m % 2 == 0)
  }

  lemma RoundUp(x: int, d: int, q: int, rem: int)
    requires d > 0 && x == q * d + rem && 0 <= rem < d
    requires 2 * rem > d || (2 * rem == d && q % 2 == 1)
    ensures NearestUnits(x, d, q + 1)
  {
    assert (q + 1) * d == q * d + d;
  }

  lemma RoundDown(x: int, d: int, q: int, rem: int)
    requires d > 0 && x == q * d + rem && 0 <= rem < d
    requires !(2 * rem > d || (2 * rem == d && q % 2 == 1))
    ensures NearestUnits(x, d, q)
  {
  }

  /** Whole units of `d` in `x` and the remainder. */
  function QuotRem(x: nat, d: nat): (qr: (nat, nat))
    requires d > 0
    ensures x == qr.0 * d + qr.1 && qr.1 < d
  {
    DivMod(x, d);
    (x / d, x % d)
  }

  /** The mantissa of Python's `round(n / d, k)` when `x = n * 10^k`. */
  function RoundUnits(x: nat, d: nat): (m: nat)
    requires d > 0
    ensures NearestUnits(x, d, m)
  {
    var qr := QuotRem(x, d);
    if 2 * qr.1 > d || (2 * qr.1 == d && qr.0 % 2 == 1) then
      RoundUp(x, d, qr.0, qr.1);
      qr.0 + 1
    else
      RoundDown(x, d, qr.0, qr.1);
      qr.0
  }
}
