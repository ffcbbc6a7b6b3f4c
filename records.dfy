/**
 * The records the availability and booking engine reads: facilities,
 * courts, bookings and blackouts, and the half-open overlap test between
 * two intervals of instants.
 */
module Records {

  datatype Option<T> = None | Some(value: T)

  /** Pass or the first failing check, as a `ValidationError`-style outcome. */
  datatype Outcome<E> = Pass | Fail(error: E)

  /**
   * A facility.  `slotLength` is in minutes (a positive-integer field,
   * which still admits 0); `openTime` and `closeTime` are minutes since
   * local midnight.
   */
  datatype Facility = Facility(
    id: nat,
    name: string,
    owner: Option<nat>,
    slotLength: nat,
    openTime: nat,
    closeTime: nat)

  /** A court belongs to exactly one facility. */
  datatype Court = Court(id: nat, facility: nat, name: string, isActive: bool)

  datatype Status = Confirmed | Cancelled

  /**
   * A stored booking: half-open interval [start, end) of instants, an
   * optional court, a price in cents (never computed, only copied) and a
   * status.
   */
  datatype Booking = Booking(
    id: nat,
    user: nat,
    facility: nat,
    court: Option<nat>,
    start: int,
    end: int,
    price: int,
    status: Status)

  /** A facility-wide blackout [start, end). */
  datatype Blackout = Blackout(id: nat, facility: nat, start: int, end: int, reason: string)

  /** A half-open interval of instants. */
  datatype Interval = Interval(start: int, end: int)

  /** `s < oe and e > os`: half-open intersection; touching endpoints do not overlap. */
  predicate Overlaps(a: Interval, b: Interval)
  {
    a.start < b.end && a.end > b.start
  }

  function SpanOf(b: Booking): Interval
  {
    Interval(b.start, b.end)
  }

  function BlackoutSpan(o: Blackout): Interval
  {
    Interval(o.start, o.end)
  }

  /** Overlap is symmetric, and intervals that only touch never overlap. */
  lemma OverlapsSymmetricAndOpen(a: Interval, b: Interval)
    ensures Overlaps(a, b) <==> Overlaps(b, a)
    ensures a.end == b.start ==> !Overlaps(a, b)
    ensures b.end == a.start ==> !Overlaps(a, b)
  {
  }
}
