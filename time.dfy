/**
 * Instants, calendar dates and times of day.
 *
 * Instants are whole seconds since the epoch, in UTC.  The resource-local
 * wall clock is the instant shifted by a fixed offset (seconds east of UTC);
 * a calendar date is a day number since the epoch and a time of day is the
 * number of seconds since local midnight.  Facility opening hours are kept
 * in whole minutes since midnight, as the time fields are edited.
 */
module Time {

  const SecondsPerMinute: int := 60
  const MinutesPerDay: int := 1440
  const SecondsPerDay: int := 86400

  /** The fixed advance notice for booking, cancelling and modifying: one hour. */
  const LeadTime: int := 3600

  /** Local calendar date of an instant (date part of `localtime(t)`). */
  function LocalDate(t: int, utcOffset: int): int
  {
    (t + utcOffset) / SecondsPerDay
  }

  /** Local time of day of an instant in seconds (`localtime(t).time()`). */
  function TimeOfDay(t: int, utcOffset: int): (r: int)
    ensures 0 <= r < SecondsPerDay
  {
    (t + utcOffset) % SecondsPerDay
  }

  /** Calendar date of an instant in UTC (`t.date()` of a UTC-aware value). */
  function UtcDate(t: int): int
  {
    t / SecondsPerDay
  }

  /**
   * The instant of local wall-clock time `minutes` on `date`:
   * `make_aware(datetime.combine(date, time))`.
   */
  function Combine(date: int, minutes: int, utcOffset: int): (t: int)
    ensures t + utcOffset == date * SecondsPerDay + minutes * SecondsPerMinute
  {
    date * SecondsPerDay + minutes * SecondsPerMinute - utcOffset
  }

  /** Combine is undone by LocalDate and TimeOfDay for a valid time of day. */
  lemma CombineRoundTrip(date: int, minutes: int, utcOffset: int)
    requires 0 <= minutes < MinutesPerDay
    ensures LocalDate(Combine(date, minutes, utcOffset), utcOffset) == date
    ensures TimeOfDay(Combine(date, minutes, utcOffset), utcOffset) == minutes * SecondsPerMinute
  {
    var x := date * SecondsPerDay + minutes * SecondsPerMinute;
    assert 0 <= minutes * SecondsPerMinute < SecondsPerDay;
    assert x / SecondsPerDay == date && x % SecondsPerDay == minutes * SecondsPerMinute by {
      DivModUnique(x, SecondsPerDay, date, minutes * SecondsPerMinute);
    }
  }

  /** `start - now >= timedelta(hours=1)`. */
  predicate InAdvance(start: int, now: int)
  {
    start - now >= LeadTime
  }

  /** Whole minutes of a duration: `int(delta.total_seconds() // 60)` (floor). */
  function WholeMinutes(seconds: int): (m: int)
    ensures m * SecondsPerMinute <= seconds < (m + 1) * SecondsPerMinute
  {
    seconds / SecondsPerMinute
  }

  /** Quotient and remainder are unique (Euclidean division by a positive divisor). */
  lemma DivModUnique(x: int, d: int, q: int, r: int)
    requires 0 < d && 0 <= r < d && x == q * d + r
    ensures x / d == q && x % d == r
  {
    var q', r' := x / d, x % d;
    assert x == q' * d + r' && 0 <= r' < d;
    var k := q - q';
    assert k * d == r' - r by {
      assert q * d - q' * d == (q - q') * d;
    }
    if k >= 1 {
      MulAtLeast(k, d);
    } else if k <= -1 {
      MulAtLeast(-k, d);
    }
  }

  lemma MulAtLeast(k: int, d: int)
    requires k >= 1 && d > 0
    ensures k * d >= d
  {
    assert k * d == d + (k - 1) * d;
  }
}
