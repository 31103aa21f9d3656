/**
 * Dates as integer millisecond timestamps. Local time zones and daylight
 * saving are not modelled: a day is 86 400 000 ms starting at a multiple of it.
 */
module Dates {

  /** `new Date(...).getTime()`. */
  type Time = int

  const DayMs: int := 86_400_000

  /** `d.setHours(0, 0, 0, 0)`: the midnight that starts t's day. */
  function StartOfDay(t: Time): (r: Time)
    ensures r <= t < r + DayMs
    ensures r % DayMs == 0
  {
    t - t % DayMs
  }

  /** `d.setDate(d.getDate() + 1)`. */
  function NextDay(t: Time): Time
  {
    t + DayMs
  }

  /** `d.setDate(d.getDate() - 7)` applied to the current time. */
  function WeekAgo(now: Time): Time
  {
    now - 7 * DayMs
  }

  /** t falls in the half-open window `[startOfDay(day), startOfDay(day) + 1 day)`. */
  predicate OnDay(t: Time, day: Time)
  {
    StartOfDay(day) <= t < NextDay(StartOfDay(day))
  }

  /** Truncating an already truncated date changes nothing. */
  lemma StartOfDayIdempotent(t: Time)
    ensures StartOfDay(StartOfDay(t)) == StartOfDay(t)
  {
  }

  /** The day window of `day` holds exactly the times whose own day start is `day`'s. */
  lemma OnDayIff(t: Time, day: Time)
    ensures OnDay(t, day) <==> StartOfDay(t) == StartOfDay(day)
  {
    var a, b := StartOfDay(t), StartOfDay(day);
    if OnDay(t, day) {
      assert b <= t < b + DayMs;
      assert a <= t < a + DayMs;
      assert a % DayMs == 0 && b % DayMs == 0;
      UniqueMultiple(a, b);
    }
  }

  /** Two multiples of a day less than a day apart are equal. */
  lemma UniqueMultiple(a: int, b: int)
    requires a % DayMs == 0 && b % DayMs == 0
    requires a - DayMs < b < a + DayMs
    ensures a == b
  {
    var qa, qb := a / DayMs, b / DayMs;
    assert a == qa * DayMs;
    assert b == qb * DayMs;
    assert (qa - qb) * DayMs == a - b;
  }
}
