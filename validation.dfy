/**
 * `Booking.clean` of mysite/images/models.py: an ordered chain of guards
 * over the instance being saved and a snapshot of the booking and blackout
 * tables.  The first failing guard is the one reported.
 */
module Validation {
  import opened Time
  import opened Records

  /**
   * The instance being cleaned: its primary key (None while unsaved), its
   * resolved facility and court, and its start and end instants (None when
   * the field is empty).
   */
  datatype Draft = Draft(
    pk: Option<nat>,
    facility: Option<Facility>,
    court: Option<Court>,
    start: Option<int>,
    end: Option<int>)

  /** One constructor per `raise` in `clean`, in the order they are tried. */
  datatype CleanError =
    | NoFacility        // "Facility must be set."
    | CourtElsewhere    // "Selected court doesn't belong to the chosen facility."
    | MissingTimes      // "Start and end time are required."
    | EndNotAfterStart  // "End time must be after start time."
    | BadLength         // "Booking length must be a positive multiple of the facility slot length."
    | ZeroSlotLength    // `minutes % 0` raises ZeroDivisionError, not a ValidationError
    | OutsideHours      // "Booking must be within facility opening hours."
    | TooSoon           // "Bookings must be made at least 1 hour in advance."
    | InBlackout        // "This time falls within a blackout period."
    | Overlapping       // "This time overlaps with another booking."

  /** Local start time of day >= opening time and local end time of day <= closing time. */
  predicate WithinHours(f: Facility, s: int, e: int, utcOffset: int)
  {
    f.openTime * SecondsPerMinute <= TimeOfDay(s, utcOffset) &&
    TimeOfDay(e, utcOffset) <= f.closeTime * SecondsPerMinute
  }

  /** The whole minutes of [s, e) are a positive multiple of a positive slot length. */
  predicate AlignedLength(f: Facility, s: int, e: int)
  {
    var m := WholeMinutes(e - s);
    m > 0 && f.slotLength > 0 && m % f.slotLength == 0
  }

  /** `if self.pk: qs = qs.exclude(pk=self.pk)` (a pk of 0 is falsy and excludes nothing). */
  predicate ExcludedAsSelf(pk: Option<nat>, b: Booking)
  {
    pk.Some? && pk.value != 0 && b.id == pk.value
  }

  /** `self.facility_id` is truthy: a facility is set and its id is not 0. */
  predicate FacilitySet(d: Draft)
  {
    d.facility.Some? && d.facility.value.id != 0
  }

  /** `self.court_id` is truthy: a court is set and its id is not 0. */
  predicate CourtIdSet(court: Option<Court>)
  {
    court.Some? && court.value.id != 0
  }

  /** `qs.filter(court=self.court) if self.court_id else qs.filter(facility=self.facility)`. */
  predicate InCleanScope(b: Booking, facility: nat, court: Option<Court>)
  {
    if CourtIdSet(court) then b.court == Some(court.value.id) else b.facility == facility
  }

  /** A stored booking that the overlap query of `clean` would return. */
  predicate Rival(b: Booking, pk: Option<nat>, facility: nat, court: Option<Court>, span: Interval)
  {
    b.status == Confirmed && !ExcludedAsSelf(pk, b) && InCleanScope(b, facility, court) &&
    Overlaps(span, SpanOf(b))
  }

  predicate BookingClash(bookings: seq<Booking>, pk: Option<nat>, facility: nat, court: Option<Court>, span: Interval)
  {
    exists i :: 0 <= i < |bookings| && Rival(bookings[i], pk, facility, court, span)
  }

  /** The blackout query of `clean`: any blackout of the facility overlapping the span. */
  predicate BlackoutClash(blackouts: seq<Blackout>, facility: nat, span: Interval)
  {
    exists i :: 0 <= i < |blackouts| && blackouts[i].facility == facility && Overlaps(span, BlackoutSpan(blackouts[i]))
  }

  /**
   * What a booking that passes `clean` satisfies, stated over the store as
   * a whole: facility set (a non-zero id), court (if its id is set) of that facility, both times set
   * with start < end, a length that is a positive multiple of the slot
   * length, within opening hours, an hour ahead of `now`, clear of every
   * blackout of the facility, and clear of every other confirmed booking in
   * its scope.
   */
  predicate Admissible(d: Draft, bookings: seq<Booking>, blackouts: seq<Blackout>, now: int, utcOffset: int)
  {
    && FacilitySet(d)
    && (CourtIdSet(d.court) ==> d.court.value.facility == d.facility.value.id)
    && d.start.Some? && d.end.Some?
    && var f, span := d.facility.value, Interval(d.start.value, d.end.value);
       && span.start < span.end
       && AlignedLength(f, span.start, span.end)
       && WithinHours(f, span.start, span.end, utcOffset)
       && InAdvance(span.start, now)
       && (forall o :: o in blackouts && o.facility == f.id ==> !Overlaps(span, BlackoutSpan(o)))
       && (forall b :: b in bookings ==> !Rival(b, d.pk, f.id, d.court, span))
  }

  /** `Booking.clean()`: Pass, or the first guard that fails. */
  function Clean(d: Draft, bookings: seq<Booking>, blackouts: seq<Blackout>, now: int, utcOffset: int): (r: Outcome<CleanError>)
    ensures r.Pass? <==> Admissible(d, bookings, blackouts, now, utcOffset)
  {
    if !FacilitySet(d) then Fail(NoFacility)
    else if CourtIdSet(d.court) && d.court.value.facility != d.facility.value.id then Fail(CourtElsewhere)
    else if d.start.None? || d.end.None? then Fail(MissingTimes)
    else
      var f, span := d.facility.value, Interval(d.start.value, d.end.value);
      var minutes := WholeMinutes(span.end - span.start);
      if span.start >= span.end then Fail(EndNotAfterStart)
      else if minutes <= 0 then Fail(BadLength)
      else if f.slotLength == 0 then Fail(ZeroSlotLength)
      else if minutes % f.slotLength != 0 then Fail(BadLength)
      else if !WithinHours(f, span.start, span.end, utcOffset) then Fail(OutsideHours)
      else if !InAdvance(span.start, now) then Fail(TooSoon)
      else if BlackoutClash(blackouts, f.id, span) then Fail(InBlackout)
      else if BookingClash(bookings, d.pk, f.id, d.court, span) then Fail(Overlapping)
      else Pass
  }

  /** All guards before the lead-time guard pass. */
  predicate PassesShape(d: Draft, utcOffset: int)
  {
    && FacilitySet(d)
    && (CourtIdSet(d.court) ==> d.court.value.facility == d.facility.value.id)
    && d.start.Some? && d.end.Some?
    && d.start.value < d.end.value
    && AlignedLength(d.facility.value, d.start.value, d.end.value)
    && WithinHours(d.facility.value, d.start.value, d.end.value, utcOffset)
  }

  /** Less than an hour ahead is rejected as too soon, whatever blackouts and bookings it also hits. */
  lemma TooSoonReportedBeforeConflicts(d: Draft, bookings: seq<Booking>, blackouts: seq<Blackout>, now: int, utcOffset: int)
    requires PassesShape(d, utcOffset)
    requires !InAdvance(d.start.value, now)
    ensures Clean(d, bookings, blackouts, now, utcOffset) == Fail(TooSoon)
  {
  }

  /** A candidate hitting both a blackout and a booking is reported as a blackout. */
  lemma BlackoutReportedBeforeOverlap(d: Draft, bookings: seq<Booking>, blackouts: seq<Blackout>, now: int, utcOffset: int, o: Blackout)
    requires PassesShape(d, utcOffset) && InAdvance(d.start.value, now)
    requires o in blackouts && o.facility == d.facility.value.id
    requires Overlaps(Interval(d.start.value, d.end.value), BlackoutSpan(o))
    ensures Clean(d, bookings, blackouts, now, utcOffset) == Fail(InBlackout)
  {
  }

  /** The clash query over a store with one more record that is not a rival. */
  lemma {:induction false} BookingClashAppend(bookings: seq<Booking>, b: Booking, pk: Option<nat>, facility: nat, court: Option<Court>, span: Interval)
    requires !Rival(b, pk, facility, court, span)
    ensures BookingClash(bookings + [b], pk, facility, court, span) == BookingClash(bookings, pk, facility, court, span)
  {
    var all := bookings + [b];
    if BookingClash(all, pk, facility, court, span) {
      var i :| 0 <= i < |all| && Rival(all[i], pk, facility, court, span);
      assert i < |bookings| && all[i] == bookings[i];
    }
    if BookingClash(bookings, pk, facility, court, span) {
      var i :| 0 <= i < |bookings| && Rival(bookings[i], pk, facility, court, span);
      assert all[i] == bookings[i];
    }
  }

  /**
   * Adding a stored booking that is not a rival never changes the verdict:
   * a cancelled booking, the record itself (same pk), one that only
   * touches the candidate, or one outside the candidate's scope.
   */
  lemma NonRivalIgnored(d: Draft, bookings: seq<Booking>, b: Booking, blackouts: seq<Blackout>, now: int, utcOffset: int)
    requires d.facility.Some? && d.start.Some? && d.end.Some?
    requires !Rival(b, d.pk, d.facility.value.id, d.court, Interval(d.start.value, d.end.value))
    ensures Clean(d, bookings + [b], blackouts, now, utcOffset) == Clean(d, bookings, blackouts, now, utcOffset)
  {
    BookingClashAppend(bookings, b, d.pk, d.facility.value.id, d.court, Interval(d.start.value, d.end.value));
  }

  /** Cancelled bookings never conflict. */
  lemma CancelledNeverConflicts(d: Draft, bookings: seq<Booking>, b: Booking, blackouts: seq<Blackout>, now: int, utcOffset: int)
    requires b.status == Cancelled
    ensures Clean(d, bookings + [b], blackouts, now, utcOffset) == Clean(d, bookings, blackouts, now, utcOffset)
  {
    if d.facility.Some? && d.start.Some? && d.end.Some? {
      NonRivalIgnored(d, bookings, b, blackouts, now, utcOffset);
    }
  }

  /** A saved booking is never in conflict with its own stored record. */
  lemma OwnRecordExcluded(d: Draft, bookings: seq<Booking>, b: Booking, blackouts: seq<Blackout>, now: int, utcOffset: int)
    requires d.pk == Some(b.id) && b.id != 0
    ensures Clean(d, bookings + [b], blackouts, now, utcOffset) == Clean(d, bookings, blackouts, now, utcOffset)
  {
    if d.facility.Some? && d.start.Some? && d.end.Some? {
      NonRivalIgnored(d, bookings, b, blackouts, now, utcOffset);
    }
  }

  /** A booking that ends exactly where the candidate starts (or starts where it ends) is no conflict. */
  lemma TouchingBookingNoConflict(d: Draft, bookings: seq<Booking>, b: Booking, blackouts: seq<Blackout>, now: int, utcOffset: int)
    requires d.start.Some? && d.end.Some?
    requires b.end == d.start.value || b.start == d.end.value
    ensures Clean(d, bookings + [b], blackouts, now, utcOffset) == Clean(d, bookings, blackouts, now, utcOffset)
  {
    if d.facility.Some? {
      NonRivalIgnored(d, bookings, b, blackouts, now, utcOffset);
    }
  }

  /** For a court booking only the same court counts: a facility-level booking never conflicts with it. */
  lemma CourtScopeIgnoresFacilityLevel(d: Draft, bookings: seq<Booking>, b: Booking, blackouts: seq<Blackout>, now: int, utcOffset: int)
    requires CourtIdSet(d.court) && b.court.None?
    ensures Clean(d, bookings + [b], blackouts, now, utcOffset) == Clean(d, bookings, blackouts, now, utcOffset)
  {
    if d.facility.Some? && d.start.Some? && d.end.Some? {
      NonRivalIgnored(d, bookings, b, blackouts, now, utcOffset);
    }
  }

  /**
   * `if self.court_id` tests the id for truthiness: a court whose id is 0
   * is treated as no court at all, so the facility scope applies.
   */
  lemma ZeroCourtIdMeansFacilityScope(d: Draft, bookings: seq<Booking>, blackouts: seq<Blackout>, now: int, utcOffset: int)
    requires d.court.Some? && d.court.value.id == 0
    ensures Clean(d, bookings, blackouts, now, utcOffset) == Clean(d.(court := None), bookings, blackouts, now, utcOffset)
  {
    if FacilitySet(d) && d.start.Some? && d.end.Some? {
      var span := Interval(d.start.value, d.end.value);
      assert forall b :: Rival(b, d.pk, d.facility.value.id, d.court, span) == Rival(b, d.pk, d.facility.value.id, None, span);
    }
  }

  /** `if not self.facility_id` tests the id for truthiness: a facility whose id is 0 counts as not set. */
  lemma ZeroFacilityIdRejected(d: Draft, bookings: seq<Booking>, blackouts: seq<Blackout>, now: int, utcOffset: int)
    requires d.facility.Some? && d.facility.value.id == 0
    ensures Clean(d, bookings, blackouts, now, utcOffset) == Fail(NoFacility)
  {
  }

  /** For a facility-level booking every confirmed booking of the facility counts, court bookings included. */
  lemma FacilityScopeIncludesCourtBookings(d: Draft, bookings: seq<Booking>, b: Booking, blackouts: seq<Blackout>, now: int, utcOffset: int)
    requires PassesShape(d, utcOffset) && InAdvance(d.start.value, now)
    requires d.court.None?
    requires !BlackoutClash(blackouts, d.facility.value.id, Interval(d.start.value, d.end.value))
    requires b in bookings && b.status == Confirmed && b.court.Some? && b.facility == d.facility.value.id
    requires !ExcludedAsSelf(d.pk, b)
    requires Overlaps(Interval(d.start.value, d.end.value), SpanOf(b))
    ensures Clean(d, bookings, blackouts, now, utcOffset) == Fail(Overlapping)
  {
    var i :| 0 <= i < |bookings| && bookings[i] == b;
    assert Rival(bookings[i], d.pk, d.facility.value.id, d.court, Interval(d.start.value, d.end.value));
  }

  /** A 90-minute booking on a facility with 60-minute slots is rejected for its length. */
  lemma NinetyMinutesOnHourlySlotsRejected(bookings: seq<Booking>, blackouts: seq<Blackout>, now: int)
    ensures var f := Facility(1, "Arena", None, 60, 8 * 60, 22 * 60);
            var d := Draft(None, Some(f), None, Some(10 * 3600), Some(11 * 3600 + 1800));
            Clean(d, bookings, blackouts, now, 0) == Fail(BadLength)
  {
    assert WholeMinutes(5400) == 90;
  }
}
