/**
 The three date-fns helpers the appointment controller relies on, on instants
 written as integer milliseconds since the epoch (UTC; the hour is aligned with
 the epoch, so truncating to the hour is integer arithmetic).
 */
module Dates {

  /** Milliseconds in one hour: the scheduling granularity. */
  const HourMs: int := 3_600_000

  /** `startOfHour`: the hour boundary at or before `t` (rounding down also for negative `t`). */
  function StartOfHour(t: int): (r: int)
    ensures r % HourMs == 0
    ensures r <= t < r + HourMs
  {
    t - t % HourMs
  }

  /**
   `subHours`: the instant `hours` hours before `t`. It keeps the position
   within the hour and, for a non-negative count, does not move forward.
   */
  function SubHours(t: int, hours: int): (r: int)
    ensures r % HourMs == t % HourMs
    ensures hours >= 0 ==> r <= t
  {
    var r := t - hours * HourMs;
    assert r == (t / HourMs - hours) * HourMs + t % HourMs;
    r
  }

  /** `isBefore`: `a` lies strictly before `b`; equal instants are not "before". */
  predicate IsBefore(a: int, b: int)
  {
    a < b
  }

  /** The hour boundary containing `t` is the only hour boundary `h` with `h <= t < h + HourMs`. */
  lemma StartOfHourUnique(t: int, h: int)
    requires h % HourMs == 0 && h <= t < h + HourMs
    ensures StartOfHour(t) == h
  {
  }

  /** Truncating an hour boundary again leaves it where it is. */
  lemma StartOfHourIdempotent(t: int)
    ensures StartOfHour(StartOfHour(t)) == StartOfHour(t)
  {
  }

  /** Two instants share a slot exactly when they fall in the same hour-long interval. */
  lemma SameSlotIffSameHour(a: int, b: int)
    ensures StartOfHour(a) == StartOfHour(b) <==> a / HourMs == b / HourMs
  {
  }
}
