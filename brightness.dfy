/**
 * Percent arithmetic: `_clamp`, the wheel-delta to notch conversion and step
 * of `_on_tray_wheel`, and the linear percent-to-nits mapping of `_apply_percent`.
 */
module Brightness {
  import opened Words
  import opened Decoders

  /** Percentage points per notch. */
  const STEP_PER_NOTCH: int := 2
  const MIN_NITS: int := 80
  const NITS_PER_PERCENT: int := 4

  /** `max(low, min(high, v))`. */
  function Clamp(v: int, low: int, high: int): (r: int)
    ensures low <= high ==> low <= r <= high
    ensures low <= v <= high ==> r == v
    ensures v < low ==> r == low
    ensures low <= high && v > high ==> r == high
  {
    if high < v then (if low < high then high else low)
    else if low < v then v else low
  }

  /** Python's `int(a / b)` for b > 0: the quotient truncated toward zero. */
  function TruncDiv(a: int, b: int): (q: int)
    requires b > 0
    ensures Abs(q) * b <= Abs(a) < (Abs(q) + 1) * b
    ensures (a >= 0 ==> q >= 0) && (a <= 0 ==> q <= 0)
  {
    if a >= 0 then a / b else -((-a) / b)
  }

  /**
   * Notches for a raw delta: truncated whole notches once |delta| reaches one
   * notch, and a single notch in the delta's direction below that (a
   * non-positive sub-notch delta counts as one notch down).
   */
  function Notches(delta: int): (n: int)
    ensures n != 0
    ensures delta > 0 ==> n > 0
    ensures delta < 0 ==> n < 0
    ensures Abs(delta) >= WHEEL_DELTA ==> Abs(n) * WHEEL_DELTA <= Abs(delta) < (Abs(n) + 1) * WHEEL_DELTA
    ensures Abs(delta) < WHEEL_DELTA ==> Abs(n) == 1
    ensures delta == 0 ==> n == -1
  {
    if Abs(delta) >= WHEEL_DELTA then TruncDiv(delta, WHEEL_DELTA)
    else if delta > 0 then 1 else -1
  }

  /** The percentage a flushed delta moves the manual setting `current` to. */
  function WheelTarget(current: int, delta: int): (t: int)
    ensures 0 <= t <= 100
  {
    Clamp(current + STEP_PER_NOTCH * Notches(delta), 0, 100)
  }

  /** Scrolling up never lowers and scrolling down never raises; a step is 2 points per notch unless it hits a bound. */
  lemma WheelTargetDirection(current: int, delta: int)
    requires 0 <= current <= 100
    ensures delta > 0 ==> WheelTarget(current, delta) >= current
    ensures delta < 0 ==> WheelTarget(current, delta) <= current
    ensures WheelTarget(current, delta) == current <==>
      (current == 100 && delta > 0) || (current == 0 && delta <= 0)
    ensures 0 < WheelTarget(current, delta) < 100 ==> WheelTarget(current, delta) == current + 2 * Notches(delta)
  {
  }

  /**
   * Coalescing is harmless for whole notches in one direction: one flush of
   * a + b lands where two flushes of a then b would.
   */
  lemma {:induction false} CoalescedNotchesAgree(current: int, a: int, b: int)
    requires 0 <= current <= 100
    requires a % WHEEL_DELTA == 0 && b % WHEEL_DELTA == 0
    requires (a > 0 && b > 0) || (a < 0 && b < 0)
    ensures WheelTarget(WheelTarget(current, a), b) == WheelTarget(current, a + b)
  {
    var ka, kb := a / WHEEL_DELTA, b / WHEEL_DELTA;
    assert a == WHEEL_DELTA * ka && b == WHEEL_DELTA * kb;
    NotchesOfExactMultiple(ka);
    NotchesOfExactMultiple(kb);
    NotchesOfExactMultiple(ka + kb);
  }

  lemma NotchesOfExactMultiple(k: int)
    requires k != 0
    ensures Notches(WHEEL_DELTA * k) == k
  {
    var d := WHEEL_DELTA * k;
    assert Abs(d) == WHEEL_DELTA * Abs(k);
  }

  /** `80 + p * 4` for the clamped percentage: the helper's nits argument. */
  function Nits(percent: int): (n: int)
    ensures MIN_NITS <= n <= MIN_NITS + 100 * NITS_PER_PERCENT
    ensures (n - MIN_NITS) % NITS_PER_PERCENT == 0
    ensures 0 <= percent <= 100 ==> (n - MIN_NITS) / NITS_PER_PERCENT == percent
    ensures (n - MIN_NITS) / NITS_PER_PERCENT == Clamp(percent, 0, 100)
  {
    MIN_NITS + Clamp(percent, 0, 100) * NITS_PER_PERCENT
  }

  /** Distinct in-range percentages never share a nits value, and more percent is brighter. */
  lemma NitsStrictlyIncreasing(p: int, q: int)
    requires 0 <= p < q <= 100
    ensures Nits(p) < Nits(q)
  {
  }
}
