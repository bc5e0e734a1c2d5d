/**
 * Dates and times of day as the booking rules see them.
 *
 * A date is a day number in the proleptic Gregorian calendar, counted the way
 * Python's `date.toordinal()` counts it: day 1 is 0001-01-01, a Monday.
 * A time of day is a whole number of minutes since midnight.
 * An instant is a local (date, time of day) pair; the service's time zone is
 * fixed, so comparing instants is comparing these pairs.
 */
module Calendar {

  const MinutesPerDay: int := 1440

  type Date = int

  type Minute = m: int | 0 <= m < MinutesPerDay

  /** The time of day `hh:mm`. */
  function Hm(hours: int, minutes: int): (m: Minute)
    requires 0 <= hours < 24 && 0 <= minutes < 60
    ensures m / 60 == hours && m % 60 == minutes
  {
    hours * 60 + minutes
  }

  datatype Instant = Instant(date: Date, time: Minute)

  /** Minutes elapsed since midnight of day 0: a single number per instant. */
  function Stamp(date: Date, time: Minute): int
  {
    date * MinutesPerDay + time
  }

  /**
   * The order of `datetime` values: earlier date first, then earlier time.
   */
  predicate Before(a: Instant, b: Instant)
  {
    a.date < b.date || (a.date == b.date && a.time < b.time)
  }

  /** The stamp orders instants exactly as the calendar does. */
  lemma StampMonotone(d1: Date, t1: Minute, d2: Date, t2: Minute)
    ensures Stamp(d1, t1) <= Stamp(d2, t2) <==> d1 < d2 || (d1 == d2 && t1 <= t2)
    ensures Stamp(d1, t1) < Stamp(d2, t2) <==> Before(Instant(d1, t1), Instant(d2, t2))
  {
  }

  /** Python's `date.weekday()`: Monday is 0 and Sunday is 6. */
  function Weekday(d: Date): (w: int)
    ensures 0 <= w < 7
  {
    (d + 6) % 7
  }

  /** 0001-01-01 (day 1) is a Monday, and each day's weekday follows the previous one's. */
  lemma WeekdaySuccession(d: Date)
    ensures Weekday(1) == 0
    ensures Weekday(d + 1) == (Weekday(d) + 1) % 7
  {
  }

  /**
   * The time of day of `datetime.combine(date, t) + timedelta(minutes = delta)`:
   * the date part is dropped, so the result wraps around midnight.
   */
  function ShiftTime(t: Minute, delta: int): (r: Minute)
    ensures exists days: int :: r == t + delta - days * MinutesPerDay
  {
    var r := (t + delta) % MinutesPerDay;
    assert r == t + delta - ((t + delta) / MinutesPerDay) * MinutesPerDay;
    r
  }

  /** Away from midnight the shift is plain addition; across it, it wraps. */
  lemma ShiftTimeCases(t: Minute, delta: int)
    requires -MinutesPerDay <= delta <= MinutesPerDay
    ensures 0 <= t + delta < MinutesPerDay ==> ShiftTime(t, delta) == t + delta
    ensures t + delta < 0 ==> ShiftTime(t, delta) == t + delta + MinutesPerDay
    ensures MinutesPerDay <= t + delta ==> ShiftTime(t, delta) == t + delta - MinutesPerDay
  {
  }
}
