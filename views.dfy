/**
 * The decision and state-change logic of the booking views in
 * mysite/images/views.py: `book_view`, `cancel_booking`, `modify_booking`
 * and `provider_delete_facility`, over a store holding the facility and
 * court tables (keyed by id) and the booking and blackout tables (in
 * insertion order).
 */
module Views {
  import opened Time
  import opened Records
  import opened Validation
  import AltValidation

  // ---------------------------------------------------------------------
  // Store invariants
  // ---------------------------------------------------------------------

  /** No two rows of the booking table share a primary key. */
  predicate UniqueIds(bs: seq<Booking>)
  {
    forall i, j :: 0 <= i < j < |bs| ==> bs[i].id != bs[j].id
  }

  /** Same facility and same court (or both facility-level). */
  predicate SameScope(a: Booking, b: Booking)
  {
    a.facility == b.facility && a.court == b.court
  }

  /**
   * No double booking: two different confirmed bookings of the same court,
   * or two confirmed facility-level bookings of the same facility, never
   * overlap.
   */
  predicate NoDoubleBooking(bs: seq<Booking>)
  {
    forall a, b ::
      (a in bs && b in bs && a.id != b.id && a.status == Confirmed && b.status == Confirmed && SameScope(a, b)) ==>
        !Overlaps(SpanOf(a), SpanOf(b))
  }

  // ---------------------------------------------------------------------
  // book_view
  // ---------------------------------------------------------------------

  /**
   * The POST clash query: any booking of the facility, whatever its status,
   * with `start_dt < end` and `end_dt > start`, narrowed to the court when a
   * court is given.
   */
  predicate BookClash(bookings: seq<Booking>, facility: nat, court: Option<nat>, span: Interval)
  {
    exists i :: 0 <= i < |bookings| && bookings[i].facility == facility &&
      (court.Some? ==> bookings[i].court == court) && Overlaps(SpanOf(bookings[i]), span)
  }

  datatype BookOutcome =
    | FacilityNotFound   // get_object_or_404(Facility, ...)
    | CourtNotFound      // get_object_or_404(Court, pk=court_id, facility=facility)
    | MissingTime        // "Missing start or end time."
    | StartNotBeforeEnd  // "Start must be before end."
    | ConfirmPage        // GET: render the confirmation page
    | SlotUnavailable    // "That slot is no longer available."
    | Created            // Booking.objects.create(...)

  /** The branch `book_view` takes, in its order of tests. */
  function BookVerdict(facilities: map<nat, Facility>, courts: map<nat, Court>, bookings: seq<Booking>,
                       isPost: bool, facility: nat, court: Option<nat>, start: Option<int>, end: Option<int>): (r: BookOutcome)
    ensures r == Created ==> isPost
    ensures r == Created <==>
              && isPost && facility in facilities
              && (court.Some? ==> court.value in courts && courts[court.value].facility == facility)
              && start.Some? && end.Some? && start.value < end.value
              && forall b :: b in bookings && b.facility == facility && (court.Some? ==> b.court == court) ==>
                   !Overlaps(SpanOf(b), Interval(start.value, end.value))
  {
    if facility !in facilities then FacilityNotFound
    else if court.Some? && (court.value !in courts || courts[court.value].facility != facility) then CourtNotFound
    else if start.None? || end.None? then MissingTime
    else if start.value >= end.value then StartNotBeforeEnd
    else if !isPost then ConfirmPage
    else if BookClash(bookings, facility, court, Interval(start.value, end.value)) then SlotUnavailable
    else Created
  }

  /** A request with start >= end is refused the same way whatever the booking table holds. */
  lemma EmptyIntervalRefusedBeforeStoreAccess(facilities: map<nat, Facility>, courts: map<nat, Court>, bs1: seq<Booking>, bs2: seq<Booking>,
                                              isPost: bool, facility: nat, court: Option<nat>, start: int, end: int)
    requires facility in facilities && (court.Some? ==> court.value in courts && courts[court.value].facility == facility)
    requires start >= end
    ensures BookVerdict(facilities, courts, bs1, isPost, facility, court, Some(start), Some(end)) == StartNotBeforeEnd
    ensures BookVerdict(facilities, courts, bs1, isPost, facility, court, Some(start), Some(end)) ==
            BookVerdict(facilities, courts, bs2, isPost, facility, court, Some(start), Some(end))
  {
  }

  /** A cancelled booking still blocks `book_view`: the clash query ignores status. */
  lemma CancelledBookingStillBlocks(facilities: map<nat, Facility>, courts: map<nat, Court>, bookings: seq<Booking>,
                                    facility: nat, court: Option<nat>, start: int, end: int, b: Booking)
    requires facility in facilities && (court.Some? ==> court.value in courts && courts[court.value].facility == facility)
    requires start < end
    requires b in bookings && b.status == Cancelled && b.facility == facility && (court.Some? ==> b.court == court)
    requires Overlaps(SpanOf(b), Interval(start, end))
    ensures BookVerdict(facilities, courts, bookings, true, facility, court, Some(start), Some(end)) == SlotUnavailable
  {
    var i :| 0 <= i < |bookings| && bookings[i] == b;
  }

  /**
   * `objects.create` does not run `Booking.clean`: at 09:30 (local offset 0)
   * `book_view` creates a 10:00-11:00 booking that `clean` rejects as less
   * than an hour ahead.
   */
  lemma BookViewSkipsClean()
    ensures var f := Facility(1, "Arena", None, 60, 8 * 60, 22 * 60);
            var now, s, e := 9 * 3600 + 1800, 10 * 3600, 11 * 3600;
            && BookVerdict(map[1 := f], map[], [], true, 1, None, Some(s), Some(e)) == Created
            && Clean(Draft(None, Some(f), None, Some(s), Some(e)), [], [], now, 0) == Fail(TooSoon)
  {
    var s, e := 10 * 3600, 11 * 3600;
    assert WholeMinutes(e - s) == 60;
    assert TimeOfDay(s, 0) == 36000 && TimeOfDay(e, 0) == 39600;
  }

  /** Appending a booking the POST clash query did not find keeps the store free of double bookings. */
  lemma InsertKeepsNoDoubleBooking(bs: seq<Booking>, nb: Booking)
    requires NoDoubleBooking(bs)
    requires !BookClash(bs, nb.facility, nb.court, SpanOf(nb))
    ensures NoDoubleBooking(bs + [nb])
  {
    forall a, b | a in bs + [nb] && b in bs + [nb] && a.id != b.id && a.status == Confirmed && b.status == Confirmed && SameScope(a, b)
      ensures !Overlaps(SpanOf(a), SpanOf(b))
    {
      if a == nb && b in bs {
        var j :| 0 <= j < |bs| && bs[j] == b;
        assert !(bs[j].facility == nb.facility && (nb.court.Some? ==> bs[j].court == nb.court) && Overlaps(SpanOf(bs[j]), SpanOf(nb)));
      } else if b == nb && a in bs {
        var j :| 0 <= j < |bs| && bs[j] == a;
        assert !(bs[j].facility == nb.facility && (nb.court.Some? ==> bs[j].court == nb.court) && Overlaps(SpanOf(bs[j]), SpanOf(nb)));
      }
    }
  }

  // ---------------------------------------------------------------------
  // Looking a booking up (get_object_or_404 with pk and user)
  // ---------------------------------------------------------------------

  /** `pk=pk, user=request.user` and, when asked, `status="confirmed"`. */
  predicate Owned(b: Booking, pk: nat, user: nat, confirmedOnly: bool)
  {
    b.id == pk && b.user == user && (confirmedOnly ==> b.status == Confirmed)
  }

  /** The position of the requested booking, if it exists and belongs to the requester. */
  function FindOwned(bs: seq<Booking>, pk: nat, user: nat, confirmedOnly: bool): (r: Option<nat>)
    ensures r.Some? ==> r.value < |bs| && Owned(bs[r.value], pk, user, confirmedOnly)
    ensures r.None? <==> forall i :: 0 <= i < |bs| ==> !Owned(bs[i], pk, user, confirmedOnly)
  {
    if |bs| == 0 then None
    else if Owned(bs[0], pk, user, confirmedOnly) then Some(0)
    else
      var r := FindOwned(bs[1..], pk, user, confirmedOnly);
      if r.None? then None else Some(r.value + 1)
  }

  /**
   * What `modify_booking` validates: the stored booking with its own pk,
   * facility and court (all locked) and the submitted times.
   */
  function ModifyDraft(b: Booking, facilities: map<nat, Facility>, courts: map<nat, Court>, newStart: Option<int>, newEnd: Option<int>): Draft
    requires b.facility in facilities && (b.court.Some? ==> b.court.value in courts)
  {
    Draft(Some(b.id), Some(facilities[b.facility]), if b.court.Some? then Some(courts[b.court.value]) else None, newStart, newEnd)
  }

  /** Setting one booking's status to cancelled keeps the store free of double bookings. */
  lemma CancelKeepsNoDoubleBooking(bs: seq<Booking>, i: nat)
    requires i < |bs| && UniqueIds(bs) && NoDoubleBooking(bs)
    ensures NoDoubleBooking(bs[i := bs[i].(status := Cancelled)])
  {
    var after := bs[i := bs[i].(status := Cancelled)];
    forall a, b | a in after && b in after && a.id != b.id && a.status == Confirmed && b.status == Confirmed && SameScope(a, b)
      ensures !Overlaps(SpanOf(a), SpanOf(b))
    {
      var j :| 0 <= j < |after| && after[j] == a;
      var k :| 0 <= k < |after| && after[k] == b;
      assert j != i && k != i;
      assert bs[j] == a && bs[k] == b;
    }
  }

  /**
   * Moving booking `i` to a span that `clean` accepted (with the booking's
   * own pk excluded) keeps the store free of double bookings.
   */
  lemma ModifyKeepsNoDoubleBooking(bs: seq<Booking>, blackouts: seq<Blackout>, i: nat, f: Facility, court: Option<Court>,
                                   s: int, e: int, now: int, utcOffset: int)
    requires i < |bs| && UniqueIds(bs) && NoDoubleBooking(bs)
    requires bs[i].id != 0 && bs[i].facility == f.id
    requires if court.Some? then bs[i].court == Some(court.value.id) else bs[i].court.None?
    requires Clean(Draft(Some(bs[i].id), Some(f), court, Some(s), Some(e)), bs, blackouts, now, utcOffset) == Pass
    ensures NoDoubleBooking(bs[i := bs[i].(start := s, end := e)])
  {
    var nb := bs[i].(start := s, end := e);
    var after := bs[i := nb];
    forall a, b | a in after && b in after && a.id != b.id && a.status == Confirmed && b.status == Confirmed && SameScope(a, b)
      ensures !Overlaps(SpanOf(a), SpanOf(b))
    {
      var j :| 0 <= j < |after| && after[j] == a;
      var k :| 0 <= k < |after| && after[k] == b;
      if j == i {
        assert k != i && bs[k] == b && b.id != nb.id;
        assert !Rival(b, Some(bs[i].id), f.id, court, Interval(s, e));
      } else if k == i {
        assert bs[j] == a && a.id != nb.id;
        assert !Rival(a, Some(bs[i].id), f.id, court, Interval(s, e));
      } else {
        assert bs[j] == a && bs[k] == b;
      }
    }
  }

  // ---------------------------------------------------------------------
  // provider_delete_facility
  // ---------------------------------------------------------------------

  /** Some confirmed booking of the facility starts at or after `now`. */
  predicate HasFutureBookings(bookings: seq<Booking>, facility: nat, now: int)
  {
    exists i :: 0 <= i < |bookings| && bookings[i].facility == facility &&
      bookings[i].status == Confirmed && bookings[i].start >= now
  }

  /** The booking table after a facility is deleted (cascade), in the same order. */
  function DropFacilityBookings(bs: seq<Booking>, facility: nat): (r: seq<Booking>)
    ensures forall b :: b in r <==> b in bs && b.facility != facility
  {
    if |bs| == 0 then []
    else
      var rest := DropFacilityBookings(bs[1..], facility);
      assert forall b :: b in bs <==> b == bs[0] || b in bs[1..];
      if bs[0].facility == facility then rest else [bs[0]] + rest
  }

  function DropFacilityBlackouts(os: seq<Blackout>, facility: nat): (r: seq<Blackout>)
    ensures forall o :: o in r <==> o in os && o.facility != facility
  {
    if |os| == 0 then []
    else
      var rest := DropFacilityBlackouts(os[1..], facility);
      assert forall o :: o in os <==> o == os[0] || o in os[1..];
      if os[0].facility == facility then rest else [os[0]] + rest
  }

  lemma {:induction false} DropKeepsUniqueIds(bs: seq<Booking>, facility: nat)
    requires UniqueIds(bs)
    ensures UniqueIds(DropFacilityBookings(bs, facility))
  {
    if |bs| > 0 {
      var rest := bs[1..];
      assert UniqueIds(rest) by {
        forall i, j | 0 <= i < j < |rest| ensures rest[i].id != rest[j].id {
          assert rest[i] == bs[i + 1] && rest[j] == bs[j + 1];
        }
      }
      DropKeepsUniqueIds(rest, facility);
      var r := DropFacilityBookings(rest, facility);
      if bs[0].facility != facility {
        var all := [bs[0]] + r;
        forall i, j | 0 <= i < j < |all| ensures all[i].id != all[j].id {
          if i == 0 {
            assert all[j] in r;
            assert all[j] in rest;
            var k :| 0 <= k < |rest| && rest[k] == all[j];
            assert bs[k + 1] == all[j];
          } else {
            assert all[i] == r[i - 1] && all[j] == r[j - 1];
          }
        }
      }
    }
  }

  // ---------------------------------------------------------------------
  // The store
  // ---------------------------------------------------------------------

  datatype CancelOutcome =
    | CancelNotFound     // not the requester's booking
    | TooLateToCancel    // "Cancellations must be at least 1 hour in advance."
    | BookingCancelled

  datatype ModifyOutcome =
    | ModifyNotFound     // not the requester's confirmed booking
    | TooLateToModify    // "Modifications must be at least 1 hour in advance."
    | EditForm           // GET: render the form
    | Rejected(error: CleanError)
    | BookingUpdated

  datatype DeleteOutcome =
    | NotProvider        // "Only providers can access this page."
    | DeleteNotFound     // not a facility of the requester
    | HasFuture          // "You cannot delete a facility with future confirmed bookings."
    | FacilityDeleted

  class Store {
    var facilities: map<nat, Facility>
    var courts: map<nat, Court>
    var bookings: seq<Booking>
    var blackouts: seq<Blackout>
    var nextId: nat

    /** Keys match ids, every reference resolves, booking ids are unique and below `nextId`. */
    ghost predicate Valid()
      reads this
    {
      && 1 <= nextId
      && (forall k :: k in facilities ==> facilities[k].id == k)
      && (forall k :: k in courts ==> courts[k].id == k && courts[k].facility in facilities)
      && (forall b :: b in bookings ==>
            && 1 <= b.id < nextId
            && b.facility in facilities
            && (b.court.Some? ==> b.court.value in courts && courts[b.court.value].facility == b.facility))
      && (forall o :: o in blackouts ==> o.facility in facilities)
      && UniqueIds(bookings)
    }

    constructor (facilities: map<nat, Facility>, courts: map<nat, Court>, blackouts: seq<Blackout>)
      requires forall k :: k in facilities ==> facilities[k].id == k
      requires forall k :: k in courts ==> courts[k].id == k && courts[k].facility in facilities
      requires forall o :: o in blackouts ==> o.facility in facilities
      ensures Valid() && NoDoubleBooking(this.bookings)
      ensures this.facilities == facilities && this.courts == courts && this.blackouts == blackouts
      ensures this.bookings == [] && nextId == 1
    {
      this.facilities := facilities;
      this.courts := courts;
      this.blackouts := blackouts;
      this.bookings := [];
      this.nextId := 1;
    }

    /** `book_view`: on POST with no clash, append one confirmed booking at price 0. */
    method BookView(isPost: bool, user: nat, facility: nat, court: Option<nat>, start: Option<int>, end: Option<int>)
      returns (r: BookOutcome)
      requires Valid()
      modifies this
      ensures Valid()
      ensures r == BookVerdict(old(facilities), old(courts), old(bookings), isPost, facility, court, start, end)
      ensures facilities == old(facilities) && courts == old(courts) && blackouts == old(blackouts)
      ensures r == Created ==>
                bookings == old(bookings) + [Booking(old(nextId), user, facility, court, start.value, end.value, 0, Confirmed)] &&
                nextId == old(nextId) + 1
      ensures r != Created ==> bookings == old(bookings) && nextId == old(nextId)
      ensures NoDoubleBooking(old(bookings)) ==> NoDoubleBooking(bookings)
    {
      r := BookVerdict(facilities, courts, bookings, isPost, facility, court, start, end);
      if r == Created {
        var nb := Booking(nextId, user, facility, court, start.value, end.value, 0, Confirmed);
        if NoDoubleBooking(bookings) {
          InsertKeepsNoDoubleBooking(bookings, nb);
        }
        forall i | 0 <= i < |bookings| ensures bookings[i].id < nextId {
          assert bookings[i] in bookings;
        }
        bookings := bookings + [nb];
        nextId := nextId + 1;
      }
    }

    /** `cancel_booking`: the requester's own booking, at least an hour ahead, becomes cancelled. */
    method CancelBooking(pk: nat, requester: nat, now: int) returns (r: CancelOutcome)
      requires Valid()
      modifies this
      ensures Valid()
      ensures facilities == old(facilities) && courts == old(courts) && blackouts == old(blackouts) && nextId == old(nextId)
      ensures var i := FindOwned(old(bookings), pk, requester, false);
              && (r == CancelNotFound <==> i.None?)
              && (r == TooLateToCancel <==> i.Some? && !AltValidation.CancelAllowed(old(bookings)[i.value], now))
              && (r == BookingCancelled ==>
                    bookings == old(bookings)[i.value := old(bookings)[i.value].(status := Cancelled)])
              && (r == BookingCancelled && old(bookings)[i.value].status == Cancelled ==> bookings == old(bookings))
      ensures r != BookingCancelled ==> bookings == old(bookings)
      ensures NoDoubleBooking(old(bookings)) ==> NoDoubleBooking(bookings)
    {
      var found := FindOwned(bookings, pk, requester, false);
      if found.None? {
        return CancelNotFound;
      }
      var i := found.value;
      var b := bookings[i];
      if !AltValidation.CancelAllowed(b, now) {
        return TooLateToCancel;
      }
      if NoDoubleBooking(bookings) {
        CancelKeepsNoDoubleBooking(bookings, i);
      }
      assert forall x :: x in bookings[i := b.(status := Cancelled)] ==> x in bookings || x == b.(status := Cancelled);
      bookings := bookings[i := b.(status := Cancelled)];
      r := BookingCancelled;
    }

    /**
     * `modify_booking`: the requester's confirmed booking, at least an hour
     * ahead, is re-validated with `clean` (its own pk excluded) at the new
     * times; on success only start and end change, while user, facility,
     * court, price and status are kept.
     */
    method ModifyBooking(pk: nat, requester: nat, now: int, isPost: bool, newStart: Option<int>, newEnd: Option<int>, utcOffset: int)
      returns (r: ModifyOutcome)
      requires Valid()
      modifies this
      ensures Valid()
      ensures facilities == old(facilities) && courts == old(courts) && blackouts == old(blackouts) && nextId == old(nextId)
      ensures var i := FindOwned(old(bookings), pk, requester, true);
              && (r == ModifyNotFound <==> i.None?)
              && (r == TooLateToModify <==> i.Some? && !InAdvance(old(bookings)[i.value].start, now))
              && (r == BookingUpdated ==>
                    && isPost && newStart.Some? && newEnd.Some?
                    && var b := old(bookings)[i.value];
                       && Clean(ModifyDraft(b, old(facilities), old(courts), newStart, newEnd),
                                old(bookings), old(blackouts), now, utcOffset) == Pass
                       && bookings == old(bookings)[i.value := b.(start := newStart.value, end := newEnd.value)])
      ensures var i := FindOwned(old(bookings), pk, requester, true);
              i.Some? && InAdvance(old(bookings)[i.value].start, now) ==>
                && (r == EditForm <==> !isPost)
                && (isPost ==>
                      var v := Clean(ModifyDraft(old(bookings)[i.value], old(facilities), old(courts), newStart, newEnd),
                                     old(bookings), old(blackouts), now, utcOffset);
                      && (v.Pass? ==> r == BookingUpdated)
                      && (v.Fail? ==> r == Rejected(v.error)))
      ensures r.Rejected? ==> isPost
      ensures r != BookingUpdated ==> bookings == old(bookings)
      ensures NoDoubleBooking(old(bookings)) ==> NoDoubleBooking(bookings)
    {
      var found := FindOwned(bookings, pk, requester, true);
      if found.None? {
        return ModifyNotFound;
      }
      var i := found.value;
      var b := bookings[i];
      if !InAdvance(b.start, now) {
        return TooLateToModify;
      }
      if !isPost {
        return EditForm;
      }
      assert b in bookings;
      var f := facilities[b.facility];
      var court := if b.court.Some? then Some(courts[b.court.value]) else None;
      var verdict := Clean(ModifyDraft(b, facilities, courts, newStart, newEnd), bookings, blackouts, now, utcOffset);
      if verdict.Fail? {
        return Rejected(verdict.error);
      }
      var nb := b.(start := newStart.value, end := newEnd.value);
      if NoDoubleBooking(bookings) {
        ModifyKeepsNoDoubleBooking(bookings, blackouts, i, f, court, newStart.value, newEnd.value, now, utcOffset);
      }
      assert forall x :: x in bookings[i := nb] ==> x in bookings || x == nb;
      var after := bookings[i := nb];
      assert UniqueIds(after) by {
        forall j, k | 0 <= j < k < |after| ensures after[j].id != after[k].id {
          assert after[j].id == bookings[j].id && after[k].id == bookings[k].id;
        }
      }
      bookings := bookings[i := nb];
      r := BookingUpdated;
    }

    /**
     * `provider_delete_facility`: a provider may delete their own facility
     * unless a confirmed booking of it starts at or after `now`; deletion
     * cascades to its courts, bookings and blackouts.
     */
    method ProviderDeleteFacility(isProvider: bool, requester: nat, facility: nat, now: int) returns (r: DeleteOutcome)
      requires Valid()
      modifies this
      ensures Valid()
      ensures r == NotProvider <==> !isProvider
      ensures r == DeleteNotFound <==>
                isProvider && (facility !in old(facilities) || old(facilities)[facility].owner != Some(requester))
      ensures r == HasFuture <==>
                isProvider && facility in old(facilities) && old(facilities)[facility].owner == Some(requester) &&
                HasFutureBookings(old(bookings), facility, now)
      ensures r == FacilityDeleted ==>
                && facilities == old(facilities) - {facility}
                && courts == (map k | k in old(courts) && old(courts)[k].facility != facility :: old(courts)[k])
                && bookings == DropFacilityBookings(old(bookings), facility)
                && blackouts == DropFacilityBlackouts(old(blackouts), facility)
      ensures r != FacilityDeleted ==>
                facilities == old(facilities) && courts == old(courts) && bookings == old(bookings) && blackouts == old(blackouts)
      ensures nextId == old(nextId)
      ensures NoDoubleBooking(old(bookings)) ==> NoDoubleBooking(bookings)
    {
      if !isProvider {
        return NotProvider;
      }
      if facility !in facilities || facilities[facility].owner != Some(requester) {
        return DeleteNotFound;
      }
      if HasFutureBookings(bookings, facility, now) {
        return HasFuture;
      }
      DropKeepsUniqueIds(bookings, facility);
      facilities := facilities - {facility};
      courts := map k | k in courts && courts[k].facility != facility :: courts[k];
      bookings := DropFacilityBookings(bookings, facility);
      blackouts := DropFacilityBlackouts(blackouts, facility);
      r := FacilityDeleted;
    }
  }
}
