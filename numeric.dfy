/**
 * Numeric helpers shared by the components: Unity's Mathf.Clamp and
 * Mathf.RoundToInt, and the properties assumed of the logistic function
 * 1 / (1 + exp(-x)) that the source computes in floating point.
 */
module Numeric {

  /** Mathf.Clamp on integers. */
  function ClampInt(x: int, lo: int, hi: int): (r: int)
    requires lo <= hi
    ensures lo <= r <= hi
    ensures lo <= x <= hi ==> r == x
    ensures x < lo ==> r == lo
    ensures x > hi ==> r == hi
  {
    if x < lo then lo else if x > hi then hi else x
  }

  /** Mathf.Clamp on floats, here on reals. */
  function ClampReal(x: real, lo: real, hi: real): (r: real)
    requires lo <= hi
    ensures lo <= r <= hi
    ensures lo <= x <= hi ==> r == x
    ensures x < lo ==> r == lo
    ensures x > hi ==> r == hi
  {
    if x < lo then lo else if x > hi then hi else x
  }

  /**
   * Mathf.RoundToInt: round to the nearest integer, halves to the even
   * neighbour (the rounding of System.Math.Round).
   */
  function RoundToInt(x: real): (r: int)
    ensures x - 0.5 <= r as real <= x + 0.5
    ensures (r as real - x == 0.5 || x - r as real == 0.5) ==> r % 2 == 0
  {
    var f := x.Floor;
    var frac := x - f as real;
    if frac < 0.5 then f
    else if frac > 0.5 then f + 1
    else if f % 2 == 0 then f
    else f + 1
  }

  /**
   * What the model assumes of the logistic function sigma(x) = 1 / (1 + e^-x):
   * strictly between 0 and 1, one half at 0, and monotone.
   */
  ghost predicate IsSigmoid(sigma: real -> real) {
    && (forall x :: 0.0 < sigma(x) < 1.0)
    && sigma(0.0) == 0.5
    && (forall x, y :: x <= y ==> sigma(x) <= sigma(y))
  }

  /** A sigmoid is at least one half on non-negative arguments and at most one half on the others. */
  lemma SigmoidHalves(sigma: real -> real, x: real)
    requires IsSigmoid(sigma)
    ensures x >= 0.0 ==> 0.5 <= sigma(x) < 1.0
    ensures x <= 0.0 ==> 0.0 < sigma(x) <= 0.5
  {
    assert sigma(0.0) == 0.5;
    if x >= 0.0 {
      assert sigma(0.0) <= sigma(x);
    } else {
      assert sigma(x) <= sigma(0.0);
    }
  }

  /**
   * The tick counter shared by the world components: `counter++; if
   * (counter < period) return; counter = 0;`. The result is the new
   * counter and whether the periodic work runs on this tick.
   */
  function PeriodicStep(counter: int, period: int): (r: (int, bool))
    ensures r.1 <==> counter + 1 >= period
    ensures r.1 ==> r.0 == 0
    ensures !r.1 ==> r.0 == counter + 1
    ensures 0 <= counter < period ==> 0 <= r.0 < period
  {
    if counter + 1 < period then (counter + 1, false) else (0, true)
  }

  /** The counter after `n` ticks from 0. */
  function CounterAfter(n: nat, period: int): int {
    if n == 0 then 0 else PeriodicStep(CounterAfter(n - 1, period), period).0
  }

  /**
   * With a positive period, the counter after `n` ticks is `n % period`,
   * so the periodic work runs on tick `n + 1` exactly when `n + 1` is a
   * multiple of the period.
   */
  lemma {:induction false} CounterIsRemainder(n: nat, period: int)
    requires period > 0
    ensures CounterAfter(n, period) == n % period
    ensures PeriodicStep(CounterAfter(n, period), period).1 <==> (n + 1) % period == 0
  {
    if n > 0 {
      CounterIsRemainder(n - 1, period);
      ModSuccessor(n - 1, period);
    }
    ModSuccessor(n, period);
  }

  lemma ModSuccessor(m: nat, p: int)
    requires p > 0
    ensures (m + 1) % p == if m % p + 1 < p then m % p + 1 else 0
  {
    var q, r := m / p, m % p;
    if r + 1 < p {
      ModUnique(m + 1, p, q, r + 1);
    } else {
      assert q * p + p == (q + 1) * p;
      ModUnique(m + 1, p, q + 1, 0);
    }
  }

  lemma ModUnique(x: int, p: int, q: int, r: int)
    requires p > 0 && 0 <= r < p && x == q * p + r
    ensures x % p == r
  {
    var q', r' := x / p, x % p;
    var k := q - q';
    assert k * p == r' - r;
    MulBounds(k, p);
  }

  lemma MulBounds(k: int, p: int)
    requires p > 0
    ensures k >= 1 ==> k * p >= p
    ensures k <= -1 ==> k * p <= -p
  {
    if k >= 1 {
      assert k * p == (k - 1) * p + p;
      assert (k - 1) * p >= 0;
    } else if k <= -1 {
      assert k * p == (k + 1) * p - p;
      assert (k + 1) * p <= 0;
    }
  }
}
