/** Facts about division, powers of two and concatenation. */
module Basics {

  lemma MulMonotonic(x: int, y: int, k: nat)
    requires x <= y
    ensures x * k <= y * k
  {
  }

  lemma {:induction false} DivisionIsUnique(x: int, d: int, quotient: int, remainder: int)
    requires d > 0 && x == quotient * d + remainder && 0 <= remainder < d
    ensures x / d == quotient && x % d == remainder
  {
    var q := x / d;
    if q < quotient {
      MulMonotonic(q + 1, quotient, d);
    } else if q > quotient {
      MulMonotonic(quotient + 1, q, d);
    }
  }

  lemma {:induction false} PeriodEarlier(x: nat, period: nat)
    requires 0 < period <= x
    ensures x / period == (x - period) / period + 1 && x % period == (x - period) % period
  {
    var q := (x - period) / period;
    assert (q + 1) * period == q * period + period;
    DivisionIsUnique(x, period, q + 1, (x - period) % period);
  }

  function Pow2(n: nat): (p: nat)
    ensures p >= 1
  {
    if n == 0 then 1 else 2 * Pow2(n - 1)
  }

  function Clamp(x: int, low: int, high: int): int
    requires low <= high
  {
    if x < low then low else if x > high then high else x
  }

  lemma Associates<T>(a: seq<T>, b: seq<T>, c: seq<T>)
    ensures a + b + c == a + (b + c)
  {
  }
}
