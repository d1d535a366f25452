/**
 * The part of the JavaScript `Date` object the order filter uses: a time value in
 * milliseconds since the epoch (or the invalid date), `getUTCHours` and
 * `setUTCHours`, with the time-value arithmetic of the ECMAScript standard.
 */
module Dates {

  /** A `Date`: a time value in milliseconds since 1970-01-01T00:00:00Z, or the invalid date (NaN). */
  datatype Instant = Time(ms: int) | InvalidDate

  const MsPerSecond: int := 1000
  const MsPerMinute: int := 60_000
  const MsPerHour: int := 3_600_000
  const MsPerDay: int := 86_400_000
  /** Time values beyond this distance from the epoch are clipped to the invalid date. */
  const MaxTime: int := 8_640_000_000_000_000

  function Day(t: int): int { t / MsPerDay }
  function HourFromTime(t: int): int { (t / MsPerHour) % 24 }
  function MinFromTime(t: int): int { (t / MsPerMinute) % 60 }
  function SecFromTime(t: int): int { (t / MsPerSecond) % 60 }
  function MsFromTime(t: int): int { t % MsPerSecond }

  function MakeTime(h: int, m: int, s: int, ms: int): int {
    h * MsPerHour + m * MsPerMinute + s * MsPerSecond + ms
  }

  function MakeDate(day: int, time: int): int { day * MsPerDay + time }

  function TimeClip(t: int): Instant {
    if t < -MaxTime || t > MaxTime then InvalidDate else Time(t)
  }

  /** `d.setUTCHours(d.getUTCHours() + delta)`: rebuilds the time value with the hour field replaced. */
  function AddUtcHours(d: Instant, delta: int): Instant {
    match d
    case InvalidDate => InvalidDate
    case Time(t) =>
      TimeClip(MakeDate(Day(t), MakeTime(HourFromTime(t) + delta, MinFromTime(t), SecFromTime(t), MsFromTime(t))))
  }

  /** Splitting a time value into day, hour, minute, second and millisecond fields loses nothing. */
  lemma FieldsRecompose(t: int)
    ensures MakeDate(Day(t), MakeTime(HourFromTime(t), MinFromTime(t), SecFromTime(t), MsFromTime(t))) == t
  {
    var s := t / MsPerSecond;
    var m := s / 60;
    var h := m / 60;
    assert t / MsPerMinute == m;
    assert t / MsPerHour == h;
    assert t / MsPerDay == h / 24;
  }

  /**
   * Moving the hour field forward by `delta` moves the time value by exactly
   * `delta` hours, even across a day boundary, unless the result leaves the
   * representable range.
   */
  lemma AddUtcHoursShifts(d: Instant, delta: int)
    ensures d.InvalidDate? ==> AddUtcHours(d, delta) == InvalidDate
    ensures d.Time? ==> AddUtcHours(d, delta) == TimeClip(d.ms + delta * MsPerHour)
  {
    if d.Time? {
      FieldsRecompose(d.ms);
    }
  }
}
