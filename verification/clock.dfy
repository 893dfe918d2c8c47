/** The service clock. `LocalDateTime` values are modelled as whole seconds on
    one time line; `LocalDateTime.now()` is always a parameter. Sub-second
    precision is not modelled. */
module Clock {

  /** A point in time, in seconds. */
  type Time = int

  const SecondsPerMinute: int := 60

  /** `t.plusMinutes(m)`. */
  function PlusMinutes(t: Time, m: int): Time
  {
    t + m * SecondsPerMinute
  }

  /** `Duration.between(a, b).toMinutes()`: whole minutes, truncated toward zero. */
  function WholeMinutesBetween(a: Time, b: Time): (m: int)
    ensures a <= b ==> 0 <= m * SecondsPerMinute <= b - a < (m + 1) * SecondsPerMinute
    ensures b < a ==> m <= 0 && (m - 1) * SecondsPerMinute < b - a <= m * SecondsPerMinute
  {
    if a <= b then (b - a) / SecondsPerMinute else -((a - b) / SecondsPerMinute)
  }

  /** Adding whole minutes and measuring them again gives the same count. */
  lemma MinutesRoundTrip(t: Time, m: int)
    ensures WholeMinutesBetween(t, PlusMinutes(t, m)) == m
  {
  }

  /** The smallest whole number not below `x` (`Math.ceil`). */
  function Ceil(x: real): (n: int)
    ensures n as real >= x && (n - 1) as real < x
  {
    -((-x).Floor)
  }
}
