/**
 * The alternate model file mysite/images/model.py: its own `Booking.clean`,
 * `Booking.cancel_allowed` and `Blackout.clean`.  Its bookings have no
 * court.  It differs from `Validation.Clean`: the lead-time rule applies
 * only to confirmed records, the opening-hours test demands a strictly
 * later end time of day, and the overlap query (facility-wide) runs before
 * the blackout query.
 */
module AltValidation {
  import opened Time
  import opened Records
  import Validation

  /**
   * The instance being cleaned: `id` is None while unsaved, the facility
   * None while unset, a time None while the field is empty.
   */
  datatype AltDraft = AltDraft(id: Option<nat>, facility: Option<Facility>, start: Option<int>, end: Option<int>, status: Status)

  datatype AltError =
    | TimesMissing       // `self.end_dt - self.start_dt` with a None operand raises TypeError
    | FacilityMissing    // reading an unset `self.facility` raises RelatedObjectDoesNotExist
    | WrongLength        // "Booking length must match the facility slot length."
    | SlotLengthZero     // `minutes % 0` raises ZeroDivisionError, not a ValidationError
    | HoursViolated      // "Booking must be within facility opening hours."
    | NotInAdvance       // "Bookings must be made at least 1 hour in advance."
    | AlreadyBooked      // "Time slot is already booked."
    | Blocked            // "Time slot is blocked (maintenance/event)."

  /** open <= start time of day < end time of day <= close. */
  predicate StrictlyWithinHours(f: Facility, s: int, e: int, utcOffset: int)
  {
    f.openTime * SecondsPerMinute <= TimeOfDay(s, utcOffset) < TimeOfDay(e, utcOffset) <= f.closeTime * SecondsPerMinute
  }

  /**
   * The overlap query: a confirmed booking of the same facility overlapping
   * the span, minus `.exclude(id=self.id)` (which excludes nothing while the
   * id is None).
   */
  predicate AltRival(b: Booking, id: Option<nat>, facility: nat, span: Interval)
  {
    b.facility == facility && b.status == Confirmed && Overlaps(span, SpanOf(b)) &&
    !(id.Some? && b.id == id.value)
  }

  predicate AltBookingClash(bookings: seq<Booking>, id: Option<nat>, facility: nat, span: Interval)
  {
    exists i :: 0 <= i < |bookings| && AltRival(bookings[i], id, facility, span)
  }

  /** What a record passing this validator satisfies, over the whole store. */
  predicate AltAdmissible(d: AltDraft, bookings: seq<Booking>, blackouts: seq<Blackout>, now: int, utcOffset: int)
  {
    && d.start.Some? && d.end.Some? && d.facility.Some?
    && var f, span := d.facility.value, Interval(d.start.value, d.end.value);
       && Validation.AlignedLength(f, span.start, span.end)
       && StrictlyWithinHours(f, span.start, span.end, utcOffset)
       && (d.status == Confirmed ==> InAdvance(span.start, now))
       && (forall b :: b in bookings ==> !AltRival(b, d.id, f.id, span))
       && (forall o :: o in blackouts && o.facility == f.id ==> !Overlaps(span, BlackoutSpan(o)))
  }

  /** `Booking.clean()` of model.py. */
  function AltClean(d: AltDraft, bookings: seq<Booking>, blackouts: seq<Blackout>, now: int, utcOffset: int): (r: Outcome<AltError>)
    ensures r.Pass? <==> AltAdmissible(d, bookings, blackouts, now, utcOffset)
  {
    if d.start.None? || d.end.None? then Fail(TimesMissing)
    else
      var span := Interval(d.start.value, d.end.value);
      var minutes := WholeMinutes(span.end - span.start);
      if minutes <= 0 then Fail(WrongLength)
      else if d.facility.None? then Fail(FacilityMissing)
      else
        var f := d.facility.value;
        if f.slotLength == 0 then Fail(SlotLengthZero)
        else if minutes % f.slotLength != 0 then Fail(WrongLength)
        else if !StrictlyWithinHours(f, span.start, span.end, utcOffset) then Fail(HoursViolated)
        else if d.status == Confirmed && !InAdvance(span.start, now) then Fail(NotInAdvance)
        else if AltBookingClash(bookings, d.id, f.id, span) then Fail(AlreadyBooked)
        else if Validation.BlackoutClash(blackouts, f.id, span) then Fail(Blocked)
        else Pass
  }

  /**
   * The length test runs before the facility is read: a non-positive
   * length is reported as a wrong length even when no facility is set.
   */
  lemma LengthCheckedBeforeFacilityRead(d: AltDraft, bookings: seq<Booking>, blackouts: seq<Blackout>, now: int, utcOffset: int)
    requires d.start.Some? && d.end.Some? && d.start.value >= d.end.value
    ensures AltClean(d, bookings, blackouts, now, utcOffset) == Fail(WrongLength)
  {
  }

  /** A cancelled record is never rejected for lead time. */
  lemma CancelledSkipsLeadTime(d: AltDraft, bookings: seq<Booking>, blackouts: seq<Blackout>, now: int, utcOffset: int)
    requires d.status == Cancelled
    ensures AltClean(d, bookings, blackouts, now, utcOffset) != Fail(NotInAdvance)
  {
  }

  /** A candidate overlapping both a booking and a blackout is reported as already booked. */
  lemma OverlapReportedBeforeBlackout(d: AltDraft, bookings: seq<Booking>, blackouts: seq<Blackout>, now: int, utcOffset: int, b: Booking)
    requires d.start.Some? && d.end.Some? && d.facility.Some?
    requires Validation.AlignedLength(d.facility.value, d.start.value, d.end.value)
    requires StrictlyWithinHours(d.facility.value, d.start.value, d.end.value, utcOffset)
    requires d.status == Confirmed ==> InAdvance(d.start.value, now)
    requires b in bookings && AltRival(b, d.id, d.facility.value.id, Interval(d.start.value, d.end.value))
    ensures AltClean(d, bookings, blackouts, now, utcOffset) == Fail(AlreadyBooked)
  {
    var i :| 0 <= i < |bookings| && bookings[i] == b;
  }

  /**
   * The two validators disagree on the hours test: a booking from 10:00 to
   * 10:00 the next day (24 hourly slots, local offset 0) on a facility open
   * 08:00 to 22:00 passes every check of models.py's `clean` on an empty
   * store, but model.py's `clean` rejects it for its opening hours.
   */
  lemma DayLongBookingSplitsValidators(now: int)
    requires now <= 9 * 3600
    ensures var f := Facility(1, "Arena", None, 60, 8 * 60, 22 * 60);
            var s, e := 10 * 3600, 34 * 3600;
            && Validation.Clean(Validation.Draft(None, Some(f), None, Some(s), Some(e)), [], [], now, 0) == Pass
            && AltClean(AltDraft(None, Some(f), Some(s), Some(e), Confirmed), [], [], now, 0) == Fail(HoursViolated)
  {
    var s, e := 10 * 3600, 34 * 3600;
    assert WholeMinutes(e - s) == 1440;
    assert TimeOfDay(s, 0) == 36000 && TimeOfDay(e, 0) == 36000;
  }

  /** The blackout covers instant `t`. */
  predicate Covers(o: Blackout, t: int)
  {
    o.start <= t < o.end
  }

  /** `Blackout.clean()`: rejects start >= end, that is, exactly the blackouts covering no instant. */
  function CleanBlackout(o: Blackout): (r: Outcome<string>)
    ensures r.Pass? <==> exists t :: Covers(o, t)
  {
    if o.start >= o.end then Fail("Blackout end must be after start.")
    else
      assert Covers(o, o.start);
      Pass
  }

  /** `Booking.cancel_allowed()`: at least an hour before the start. */
  function CancelAllowed(b: Booking, now: int): (r: bool)
    ensures r <==> b.start >= now + LeadTime
  {
    InAdvance(b.start, now)
  }

  /**
   * `cancel_allowed` and the lead-time guard of `clean` are the same rule:
   * a confirmed booking whose length and hours pass is rejected as too
   * close exactly when it could no longer be cancelled.
   */
  lemma CancelAllowedIsCleanLeadTime(b: Booking, f: Facility, bookings: seq<Booking>, blackouts: seq<Blackout>, now: int, utcOffset: int)
    requires Validation.AlignedLength(f, b.start, b.end) && StrictlyWithinHours(f, b.start, b.end, utcOffset)
    ensures AltClean(AltDraft(Some(b.id), Some(f), Some(b.start), Some(b.end), Confirmed), bookings, blackouts, now, utcOffset) == Fail(NotInAdvance)
            <==> !CancelAllowed(b, now)
  {
  }
}
