/**
 * Slot generation and free-slot filtering (the read path).
 *
 * `GenerateSlots` walks from the facility's opening time to its closing
 * time on a date in steps of the slot length; `FilterFree` keeps the slots
 * that are at least an hour ahead of `now` and overlap no booked and no
 * blocked interval.  `AvailableSlots` (facility level) and
 * `AvailableCourtSlots` (one court) choose which bookings and blackouts
 * count and combine the two.
 */
module Services {
  import opened Time
  import opened Records

  // ---------------------------------------------------------------------
  // Slot generation
  // ---------------------------------------------------------------------

  /** The slots [t, t+step), [t+step, t+2*step), ... whose end stays within `end`. */
  function SlotsFrom(t: int, end: int, step: nat): seq<Interval>
    requires step > 0 || t > end
    decreases end - t
  {
    if t + step <= end then [Interval(t, t + step)] + SlotsFrom(t + step, end, step) else []
  }

  /** The loop of `generate_slots` terminates: either the step is positive or it never runs. */
  predicate CanGenerate(f: Facility)
  {
    f.slotLength > 0 || f.openTime > f.closeTime
  }

  function OpeningInstant(f: Facility, date: int, utcOffset: int): int
  {
    Combine(date, f.openTime, utcOffset)
  }

  function ClosingInstant(f: Facility, date: int, utcOffset: int): int
  {
    Combine(date, f.closeTime, utcOffset)
  }

  function Step(f: Facility): nat
  {
    f.slotLength * SecondsPerMinute
  }

  /** The slots `generate_slots(facility, date)` returns. */
  function DaySlots(f: Facility, date: int, utcOffset: int): seq<Interval>
    requires CanGenerate(f)
  {
    SlotsFrom(OpeningInstant(f, date, utcOffset), ClosingInstant(f, date, utcOffset), Step(f))
  }

  /** Shape of SlotsFrom: count, positions, bounds. */
  lemma {:induction false} SlotsFromShape(t: int, end: int, step: nat)
    requires step > 0 || t > end
    ensures |SlotsFrom(t, end, step)| == if t <= end then (end - t) / step else 0
    ensures forall i :: 0 <= i < |SlotsFrom(t, end, step)| ==>
              SlotsFrom(t, end, step)[i] == Interval(t + i * step, t + i * step + step)
    ensures forall i :: 0 <= i < |SlotsFrom(t, end, step)| ==>
              t <= SlotsFrom(t, end, step)[i].start && SlotsFrom(t, end, step)[i].end <= end
    decreases end - t
  {
    var r := SlotsFrom(t, end, step);
    if t + step <= end {
      var rest := SlotsFrom(t + step, end, step);
      SlotsFromShape(t + step, end, step);
      assert r == [Interval(t, t + step)] + rest;
      assert (end - t) / step == (end - t - step) / step + 1 by {
        var q, m := (end - t - step) / step, (end - t - step) % step;
        assert end - t == (q + 1) * step + m;
        DivModUnique(end - t, step, q + 1, m);
      }
      forall i | 0 <= i < |r|
        ensures r[i] == Interval(t + i * step, t + i * step + step)
      {
        if i > 0 {
          assert r[i] == rest[i - 1];
          assert t + step + (i - 1) * step == t + i * step;
        }
      }
    } else if t <= end {
      assert 0 <= end - t < step;
      DivModUnique(end - t, step, 0, end - t);
    }
  }

  /** (a * c) / (b * c) == a / b for a positive scale c. */
  lemma ScaledQuotient(a: int, b: int, c: int)
    requires b > 0 && c > 0
    ensures (a * c) / (b * c) == a / b
  {
    var q, m := a / b, a % b;
    assert a * c == q * (b * c) + m * c by {
      assert a == q * b + m;
    }
    assert 0 <= m * c < b * c by {
      MulAtLeast(b - m, c);
      assert (b - m) * c == b * c - m * c;
    }
    DivModUnique(a * c, b * c, q, m * c);
  }

  /**
   * The day's slots: the first starts at the opening time, every slot lasts
   * exactly the slot length, consecutive slots are contiguous, all lie
   * within the opening window, and there are floor((close - open) / slot)
   * of them (none if the facility closes before it opens).
   */
  lemma DaySlotsShape(f: Facility, date: int, utcOffset: int)
    requires CanGenerate(f)
    ensures var res := DaySlots(f, date, utcOffset);
            && |res| == (if f.openTime <= f.closeTime then (f.closeTime - f.openTime) / f.slotLength else 0)
            && (|res| > 0 ==> res[0].start == OpeningInstant(f, date, utcOffset))
            && (forall i :: 0 <= i < |res| ==> res[i].end - res[i].start == f.slotLength * SecondsPerMinute)
            && (forall i :: 0 <= i < |res| - 1 ==> res[i].end == res[i + 1].start)
            && (forall i :: 0 <= i < |res| ==>
                  OpeningInstant(f, date, utcOffset) <= res[i].start &&
                  res[i].end <= ClosingInstant(f, date, utcOffset))
  {
    var start, end, step := OpeningInstant(f, date, utcOffset), ClosingInstant(f, date, utcOffset), Step(f);
    SlotsFromShape(start, end, step);
    var res := SlotsFrom(start, end, step);
    assert forall i :: 0 <= i < |res| - 1 ==> res[i].end == res[i + 1].start by {
      forall i | 0 <= i < |res| - 1 ensures res[i].end == res[i + 1].start {
        assert start + (i + 1) * step == start + i * step + step;
      }
    }
    if f.openTime <= f.closeTime {
      assert end - start == (f.closeTime - f.openTime) * SecondsPerMinute;
      if f.slotLength > 0 {
        ScaledQuotient(f.closeTime - f.openTime, f.slotLength, SecondsPerMinute);
      }
    }
  }

  /** `generate_slots`: a loop stepping from opening to closing time. */
  method GenerateSlots(f: Facility, date: int, utcOffset: int) returns (res: seq<Interval>)
    requires CanGenerate(f)
    ensures res == DaySlots(f, date, utcOffset)
    ensures |res| == if f.openTime <= f.closeTime then (f.closeTime - f.openTime) / f.slotLength else 0
    ensures |res| > 0 ==> res[0].start == OpeningInstant(f, date, utcOffset)
    ensures forall i :: 0 <= i < |res| ==> res[i].end - res[i].start == f.slotLength * SecondsPerMinute
    ensures forall i :: 0 <= i < |res| - 1 ==> res[i].end == res[i + 1].start
    ensures forall i :: 0 <= i < |res| ==>
              OpeningInstant(f, date, utcOffset) <= res[i].start &&
              res[i].end <= ClosingInstant(f, date, utcOffset)
  {
    var start := OpeningInstant(f, date, utcOffset);
    var end := ClosingInstant(f, date, utcOffset);
    var step := Step(f);
    var t := start;
    res := [];
    while t + step <= end
      invariant step > 0 || t > end
      invariant res + SlotsFrom(t, end, step) == SlotsFrom(start, end, step)
      decreases end - t
    {
      res := res + [Interval(t, t + step)];
      t := t + step;
    }
    DaySlotsShape(f, date, utcOffset);
  }

  // ---------------------------------------------------------------------
  // The free test and the filter
  // ---------------------------------------------------------------------

  /** Some interval in `ivs` overlaps `s` (half-open). */
  predicate HitsAny(s: Interval, ivs: seq<Interval>)
  {
    exists i :: 0 <= i < |ivs| && Overlaps(s, ivs[i])
  }

  /** The inner `free(s, e)`: an hour ahead, clear of every booked and blocked interval. */
  predicate Free(s: Interval, booked: seq<Interval>, blocked: seq<Interval>, now: int)
  {
    InAdvance(s.start, now) && !HitsAny(s, booked) && !HitsAny(s, blocked)
  }

  /** `_filter_free`: the free slots, in their original order. */
  function FilterFree(slots: seq<Interval>, booked: seq<Interval>, blocked: seq<Interval>, now: int): (r: seq<Interval>)
    ensures forall x :: x in r <==> x in slots && Free(x, booked, blocked, now)
    ensures |r| <= |slots|
  {
    if |slots| == 0 then []
    else
      var rest := FilterFree(slots[1..], booked, blocked, now);
      if Free(slots[0], booked, blocked, now) then [slots[0]] + rest else rest
  }

  /** `a` is `b` with some elements left out, the rest in the same order. */
  predicate IsSubsequence<T(==)>(a: seq<T>, b: seq<T>)
    decreases |b|
  {
    |a| == 0 ||
    (|b| > 0 && ((a[0] == b[0] && IsSubsequence(a[1..], b[1..])) || IsSubsequence(a, b[1..])))
  }

  /** The filter keeps an order-preserving subsequence of its input slots. */
  lemma {:induction false} FilterFreeIsSubsequence(slots: seq<Interval>, booked: seq<Interval>, blocked: seq<Interval>, now: int)
    ensures IsSubsequence(FilterFree(slots, booked, blocked, now), slots)
  {
    if |slots| > 0 {
      FilterFreeIsSubsequence(slots[1..], booked, blocked, now);
      var rest := FilterFree(slots[1..], booked, blocked, now);
      if Free(slots[0], booked, blocked, now) {
        assert FilterFree(slots, booked, blocked, now) == [slots[0]] + rest;
        assert ([slots[0]] + rest)[1..] == rest;
      }
    }
  }

  /**
   * A kept slot stays kept when a booked interval that only touches it at an
   * endpoint is added.
   */
  lemma TouchingSlotIsKept(slot: Interval, booking: Interval, slots: seq<Interval>, booked: seq<Interval>, blocked: seq<Interval>, now: int)
    requires slot in FilterFree(slots, booked, blocked, now)
    requires slot.end == booking.start || booking.end == slot.start
    ensures slot in FilterFree(slots, booked + [booking], blocked, now)
  {
  }

  // ---------------------------------------------------------------------
  // Which bookings and blackouts count
  // ---------------------------------------------------------------------

  /** `available_slots` counts confirmed facility-level bookings that start on `date`. */
  predicate CountsForFacility(b: Booking, facility: nat, date: int, utcOffset: int)
  {
    b.facility == facility && b.court.None? && b.status == Confirmed &&
    LocalDate(b.start, utcOffset) == date
  }

  /** `available_slots_court` counts confirmed bookings of that court that start on `date`. */
  predicate CountsForCourt(b: Booking, court: nat, date: int, utcOffset: int)
  {
    b.court == Some(court) && b.status == Confirmed && LocalDate(b.start, utcOffset) == date
  }

  /** A blackout of the facility is relevant iff its start date <= date <= its end date. */
  predicate BlackoutOnDate(o: Blackout, facility: nat, date: int, utcOffset: int)
  {
    o.facility == facility &&
    LocalDate(o.start, utcOffset) <= date <= LocalDate(o.end, utcOffset)
  }

  function FacilityBooked(bookings: seq<Booking>, facility: nat, date: int, utcOffset: int): (r: seq<Interval>)
    ensures forall iv :: iv in r <==>
              exists b :: b in bookings && CountsForFacility(b, facility, date, utcOffset) && SpanOf(b) == iv
  {
    if |bookings| == 0 then []
    else
      var rest := FacilityBooked(bookings[1..], facility, date, utcOffset);
      assert forall b :: b in bookings <==> b == bookings[0] || b in bookings[1..];
      if CountsForFacility(bookings[0], facility, date, utcOffset) then [SpanOf(bookings[0])] + rest else rest
  }

  function CourtBooked(bookings: seq<Booking>, court: nat, date: int, utcOffset: int): (r: seq<Interval>)
    ensures forall iv :: iv in r <==>
              exists b :: b in bookings && CountsForCourt(b, court, date, utcOffset) && SpanOf(b) == iv
  {
    if |bookings| == 0 then []
    else
      var rest := CourtBooked(bookings[1..], court, date, utcOffset);
      assert forall b :: b in bookings <==> b == bookings[0] || b in bookings[1..];
      if CountsForCourt(bookings[0], court, date, utcOffset) then [SpanOf(bookings[0])] + rest else rest
  }

  function BlockedOn(blackouts: seq<Blackout>, facility: nat, date: int, utcOffset: int): (r: seq<Interval>)
    ensures forall iv :: iv in r <==>
              exists o :: o in blackouts && BlackoutOnDate(o, facility, date, utcOffset) && BlackoutSpan(o) == iv
  {
    if |blackouts| == 0 then []
    else
      var rest := BlockedOn(blackouts[1..], facility, date, utcOffset);
      assert forall o :: o in blackouts <==> o == blackouts[0] || o in blackouts[1..];
      if BlackoutOnDate(blackouts[0], facility, date, utcOffset) then [BlackoutSpan(blackouts[0])] + rest else rest
  }

  /** Appending a booking that does not count leaves the selection unchanged. */
  lemma {:induction false} FacilityBookedAppend(bookings: seq<Booking>, b: Booking, facility: nat, date: int, utcOffset: int)
    requires !CountsForFacility(b, facility, date, utcOffset)
    ensures FacilityBooked(bookings + [b], facility, date, utcOffset) == FacilityBooked(bookings, facility, date, utcOffset)
  {
    if |bookings| > 0 {
      assert (bookings + [b])[1..] == bookings[1..] + [b];
      FacilityBookedAppend(bookings[1..], b, facility, date, utcOffset);
    }
  }

  lemma {:induction false} CourtBookedAppend(bookings: seq<Booking>, b: Booking, court: nat, date: int, utcOffset: int)
    requires !CountsForCourt(b, court, date, utcOffset)
    ensures CourtBooked(bookings + [b], court, date, utcOffset) == CourtBooked(bookings, court, date, utcOffset)
  {
    if |bookings| > 0 {
      assert (bookings + [b])[1..] == bookings[1..] + [b];
      CourtBookedAppend(bookings[1..], b, court, date, utcOffset);
    }
  }

  // ---------------------------------------------------------------------
  // Availability
  // ---------------------------------------------------------------------

  /** The free slots of a facility without courts on a date. */
  function FacilityAvailability(f: Facility, date: int, bookings: seq<Booking>, blackouts: seq<Blackout>, now: int, utcOffset: int): seq<Interval>
    requires CanGenerate(f)
  {
    FilterFree(DaySlots(f, date, utcOffset),
               FacilityBooked(bookings, f.id, date, utcOffset),
               BlockedOn(blackouts, f.id, date, utcOffset), now)
  }

  /** The free slots of one court on a date; `f` is the court's facility. */
  function CourtAvailability(f: Facility, court: Court, date: int, bookings: seq<Booking>, blackouts: seq<Blackout>, now: int, utcOffset: int): seq<Interval>
    requires CanGenerate(f)
  {
    FilterFree(DaySlots(f, date, utcOffset),
               CourtBooked(bookings, court.id, date, utcOffset),
               BlockedOn(blackouts, f.id, date, utcOffset), now)
  }

  /** Hitting a selected interval is overlapping a record that counts. */
  lemma HitsFacilityBooked(x: Interval, bookings: seq<Booking>, facility: nat, date: int, utcOffset: int)
    ensures HitsAny(x, FacilityBooked(bookings, facility, date, utcOffset)) <==>
            exists b :: b in bookings && CountsForFacility(b, facility, date, utcOffset) && Overlaps(x, SpanOf(b))
  {
    var r := FacilityBooked(bookings, facility, date, utcOffset);
    if exists b :: b in bookings && CountsForFacility(b, facility, date, utcOffset) && Overlaps(x, SpanOf(b)) {
      var b :| b in bookings && CountsForFacility(b, facility, date, utcOffset) && Overlaps(x, SpanOf(b));
      assert SpanOf(b) in r;
      var i :| 0 <= i < |r| && r[i] == SpanOf(b);
      assert Overlaps(x, r[i]);
    }
  }

  lemma HitsCourtBooked(x: Interval, bookings: seq<Booking>, court: nat, date: int, utcOffset: int)
    ensures HitsAny(x, CourtBooked(bookings, court, date, utcOffset)) <==>
            exists b :: b in bookings && CountsForCourt(b, court, date, utcOffset) && Overlaps(x, SpanOf(b))
  {
    var r := CourtBooked(bookings, court, date, utcOffset);
    if exists b :: b in bookings && CountsForCourt(b, court, date, utcOffset) && Overlaps(x, SpanOf(b)) {
      var b :| b in bookings && CountsForCourt(b, court, date, utcOffset) && Overlaps(x, SpanOf(b));
      assert SpanOf(b) in r;
      var i :| 0 <= i < |r| && r[i] == SpanOf(b);
      assert Overlaps(x, r[i]);
    }
  }

  lemma HitsBlockedOn(x: Interval, blackouts: seq<Blackout>, facility: nat, date: int, utcOffset: int)
    ensures HitsAny(x, BlockedOn(blackouts, facility, date, utcOffset)) <==>
            exists o :: o in blackouts && BlackoutOnDate(o, facility, date, utcOffset) && Overlaps(x, BlackoutSpan(o))
  {
    var r := BlockedOn(blackouts, facility, date, utcOffset);
    if exists o :: o in blackouts && BlackoutOnDate(o, facility, date, utcOffset) && Overlaps(x, BlackoutSpan(o)) {
      var o :| o in blackouts && BlackoutOnDate(o, facility, date, utcOffset) && Overlaps(x, BlackoutSpan(o));
      assert BlackoutSpan(o) in r;
      var i :| 0 <= i < |r| && r[i] == BlackoutSpan(o);
      assert Overlaps(x, r[i]);
    }
  }

  /**
   * A slot is offered at facility level iff it is one of the day's slots,
   * starts at least an hour after `now`, and overlaps no confirmed
   * facility-level booking starting that date and no blackout of the
   * facility spanning that date.
   */
  lemma FacilityAvailabilityMeaning(x: Interval, f: Facility, date: int, bookings: seq<Booking>, blackouts: seq<Blackout>, now: int, utcOffset: int)
    requires CanGenerate(f)
    ensures x in FacilityAvailability(f, date, bookings, blackouts, now, utcOffset) <==>
            x in DaySlots(f, date, utcOffset) && InAdvance(x.start, now) &&
            (forall b :: b in bookings && CountsForFacility(b, f.id, date, utcOffset) ==> !Overlaps(x, SpanOf(b))) &&
            (forall o :: o in blackouts && BlackoutOnDate(o, f.id, date, utcOffset) ==> !Overlaps(x, BlackoutSpan(o)))
  {
    HitsFacilityBooked(x, bookings, f.id, date, utcOffset);
    HitsBlockedOn(x, blackouts, f.id, date, utcOffset);
  }

  /** The same for one court: only confirmed bookings of that court count. */
  lemma CourtAvailabilityMeaning(x: Interval, f: Facility, court: Court, date: int, bookings: seq<Booking>, blackouts: seq<Blackout>, now: int, utcOffset: int)
    requires CanGenerate(f)
    ensures x in CourtAvailability(f, court, date, bookings, blackouts, now, utcOffset) <==>
            x in DaySlots(f, date, utcOffset) && InAdvance(x.start, now) &&
            (forall b :: b in bookings && CountsForCourt(b, court.id, date, utcOffset) ==> !Overlaps(x, SpanOf(b))) &&
            (forall o :: o in blackouts && BlackoutOnDate(o, f.id, date, utcOffset) ==> !Overlaps(x, BlackoutSpan(o)))
  {
    HitsCourtBooked(x, bookings, court.id, date, utcOffset);
    HitsBlockedOn(x, blackouts, f.id, date, utcOffset);
  }

  /** `available_slots(facility, date)`. */
  method AvailableSlots(f: Facility, date: int, bookings: seq<Booking>, blackouts: seq<Blackout>, now: int, utcOffset: int)
    returns (free: seq<Interval>)
    requires CanGenerate(f)
    ensures free == FacilityAvailability(f, date, bookings, blackouts, now, utcOffset)
    ensures IsSubsequence(free, DaySlots(f, date, utcOffset))
    ensures forall x :: x in free <==>
              x in DaySlots(f, date, utcOffset) && InAdvance(x.start, now) &&
              (forall b :: b in bookings && CountsForFacility(b, f.id, date, utcOffset) ==> !Overlaps(x, SpanOf(b))) &&
              (forall o :: o in blackouts && BlackoutOnDate(o, f.id, date, utcOffset) ==> !Overlaps(x, BlackoutSpan(o)))
  {
    var slots := GenerateSlots(f, date, utcOffset);
    var booked := FacilityBooked(bookings, f.id, date, utcOffset);
    var blocked := BlockedOn(blackouts, f.id, date, utcOffset);
    free := FilterFree(slots, booked, blocked, now);
    FilterFreeIsSubsequence(slots, booked, blocked, now);
    forall x ensures x in free <==>
              x in DaySlots(f, date, utcOffset) && InAdvance(x.start, now) &&
              (forall b :: b in bookings && CountsForFacility(b, f.id, date, utcOffset) ==> !Overlaps(x, SpanOf(b))) &&
              (forall o :: o in blackouts && BlackoutOnDate(o, f.id, date, utcOffset) ==> !Overlaps(x, BlackoutSpan(o)))
    {
      FacilityAvailabilityMeaning(x, f, date, bookings, blackouts, now, utcOffset);
    }
  }

  /** `available_slots_court(court, date)`; `f` is `court.facility`. */
  method AvailableCourtSlots(f: Facility, court: Court, date: int, bookings: seq<Booking>, blackouts: seq<Blackout>, now: int, utcOffset: int)
    returns (free: seq<Interval>)
    requires court.facility == f.id && CanGenerate(f)
    ensures free == CourtAvailability(f, court, date, bookings, blackouts, now, utcOffset)
    ensures IsSubsequence(free, DaySlots(f, date, utcOffset))
    ensures forall x :: x in free <==>
              x in DaySlots(f, date, utcOffset) && InAdvance(x.start, now) &&
              (forall b :: b in bookings && CountsForCourt(b, court.id, date, utcOffset) ==> !Overlaps(x, SpanOf(b))) &&
              (forall o :: o in blackouts && BlackoutOnDate(o, f.id, date, utcOffset) ==> !Overlaps(x, BlackoutSpan(o)))
  {
    var slots := GenerateSlots(f, date, utcOffset);
    var booked := CourtBooked(bookings, court.id, date, utcOffset);
    var blocked := BlockedOn(blackouts, f.id, date, utcOffset);
    free := FilterFree(slots, booked, blocked, now);
    FilterFreeIsSubsequence(slots, booked, blocked, now);
    forall x ensures x in free <==>
              x in DaySlots(f, date, utcOffset) && InAdvance(x.start, now) &&
              (forall b :: b in bookings && CountsForCourt(b, court.id, date, utcOffset) ==> !Overlaps(x, SpanOf(b))) &&
              (forall o :: o in blackouts && BlackoutOnDate(o, f.id, date, utcOffset) ==> !Overlaps(x, BlackoutSpan(o)))
    {
      CourtAvailabilityMeaning(x, f, court, date, bookings, blackouts, now, utcOffset);
    }
  }

  // ---------------------------------------------------------------------
  // Consequences of the scope selectors
  // ---------------------------------------------------------------------

  /**
   * A booking that starts on another date (for instance the previous evening,
   * spilling past midnight) does not remove facility slots, nor does a
   * cancelled one, nor a court booking.
   */
  lemma UncountedBookingKeepsFacilitySlots(f: Facility, date: int, bookings: seq<Booking>, b: Booking, blackouts: seq<Blackout>, now: int, utcOffset: int)
    requires CanGenerate(f)
    requires LocalDate(b.start, utcOffset) != date || b.status == Cancelled || b.court.Some?
    ensures FacilityAvailability(f, date, bookings + [b], blackouts, now, utcOffset) ==
            FacilityAvailability(f, date, bookings, blackouts, now, utcOffset)
  {
    FacilityBookedAppend(bookings, b, f.id, date, utcOffset);
  }

  /** A facility-level booking (no court) never removes a court's slots; neither does a cancelled one. */
  lemma FacilityLevelBookingKeepsCourtSlots(f: Facility, court: Court, date: int, bookings: seq<Booking>, b: Booking, blackouts: seq<Blackout>, now: int, utcOffset: int)
    requires CanGenerate(f)
    requires b.court.None? || b.status == Cancelled
    ensures CourtAvailability(f, court, date, bookings + [b], blackouts, now, utcOffset) ==
            CourtAvailability(f, court, date, bookings, blackouts, now, utcOffset)
  {
    CourtBookedAppend(bookings, b, court.id, date, utcOffset);
  }

  /** A confirmed facility-level booking removes every day slot it overlaps, in particular its own interval. */
  lemma BookedIntervalIsNotOffered(f: Facility, date: int, bookings: seq<Booking>, b: Booking, blackouts: seq<Blackout>, now: int, utcOffset: int, x: Interval)
    requires CanGenerate(f)
    requires b in bookings && CountsForFacility(b, f.id, date, utcOffset)
    requires Overlaps(x, SpanOf(b))
    ensures x !in FacilityAvailability(f, date, bookings, blackouts, now, utcOffset)
  {
    FacilityAvailabilityMeaning(x, f, date, bookings, blackouts, now, utcOffset);
  }

  /** Opening 08:00, closing 22:00, 60-minute slots: fourteen slots, the first at 08:00. */
  lemma FourteenHourlySlots(date: int, utcOffset: int)
    ensures var f := Facility(1, "Arena", None, 60, 8 * 60, 22 * 60);
            |DaySlots(f, date, utcOffset)| == 14 &&
            DaySlots(f, date, utcOffset)[0].start == Combine(date, 8 * 60, utcOffset) &&
            DaySlots(f, date, utcOffset)[13] == Interval(Combine(date, 21 * 60, utcOffset), Combine(date, 22 * 60, utcOffset))
  {
    var f := Facility(1, "Arena", None, 60, 8 * 60, 22 * 60);
    var t, e := OpeningInstant(f, date, utcOffset), ClosingInstant(f, date, utcOffset);
    SlotsFromShape(t, e, 3600);
    assert e - t == 14 * 3600;
    DivModUnique(e - t, 3600, 14, 0);
  }
}
