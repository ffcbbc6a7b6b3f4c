# Sports reservation: availability and booking-conflict engine

This project is a Dafny model of the scheduling core of the sports-reservation
Django app:

- how a facility's day is cut into bookable slots;
- which slots stay free once bookings, blackouts and the one-hour lead time
  are taken into account;
- the two booking validators (`Booking.clean` in `models.py` and the one in
  the alternate `model.py`);
- the decision and state-change logic of the booking views (book, cancel,
  modify, delete a facility);
- the per-(facility, day) usage report.

Conventions:

- Instants are whole seconds in UTC.
- Local wall-clock time is the instant shifted by a fixed `utcOffset`.
- Opening hours are minutes since midnight.
- "Now" is always an explicit parameter.
- The database tables are sequences (bookings, blackouts) or maps keyed by
  primary key (facilities, courts).

Modules, one per file:

| file | module | models |
|---|---|---|
| `time.dfy` | `Time` | date and time-of-day arithmetic, the one-hour lead time |
| `records.dfy` | `Records` | the `Facility`, `Court`, `Booking` and `Blackout` rows; half-open overlap |
| `services.dfy` | `Services` | `generate_slots`, `_filter_free`, `available_slots`, `available_slots_court` |
| `validation.dfy` | `Validation` | `Booking.clean` of `models.py` |
| `alt_validation.dfy` | `AltValidation` | `Booking.clean`, `Booking.cancel_allowed` and `Blackout.clean` of `model.py` |
| `views.dfy` | `Views` | `book_view`, `cancel_booking`, `modify_booking`, `provider_delete_facility` over a `Store` class |
| `reports.dfy` | `Reports` | `usage_report_csv`, in both `view-reports.py` and `views.py` |

Source behaviour that shapes the model:

- **Zero slot length.** `slot_length_minutes` is a `PositiveIntegerField`, and
  Django's version of it admits 0. In both validators `minutes % 0` then
  raises `ZeroDivisionError` instead of a validation error. The model keeps
  this as a separate error (`ZeroSlotLength`, `SlotLengthZero`).
- **The `generate_slots` loop.** It never ends when the step is 0 and the
  facility opens no later than it closes. `GenerateSlots` therefore requires
  a positive slot length or an opening time after the closing time (in which
  case the loop never runs).
- **Excluding the booking itself.** In `models.py`, `if self.pk:` treats a
  pk of 0 as "not saved", so a pk of 0 excludes nothing. In `model.py`,
  `.exclude(id=None)` excludes nothing. `models.py` tests `facility_id` and
  `court_id` the same way: a facility of id 0 counts as not set, and a
  court of id 0 as no court (so the facility scope applies).
- **Crashes in `model.py`.** A missing time makes the subtraction raise
  `TypeError`, and an unset facility raises `RelatedObjectDoesNotExist` when
  it is read after the length test. The model keeps each as an error
  constructor (`TimesMissing`, `FacilityMissing`).
- **Report dates.** The report key uses `b.start_dt.date()` of an aware
  value, which is the UTC date. The from/to filter (`start_dt__date`) uses
  the local date. The two can differ near midnight.
- **`book_view` skips validation.** It calls `objects.create`, which never
  runs `clean`. `Views.BookViewSkipsClean` exhibits a booking that it creates
  although `clean` rejects it.
- **`book_view` ignores status.** Its clash query does not filter on status,
  so a cancelled booking still blocks the slot there
  (`Views.CancelledBookingStillBlocks`). It does not block the slot in
  `clean` or in the availability lists.
- **The modify form.** `modify_booking` builds `BookingForm(...,
  facility=...)`, and the form does not accept a `facility` argument
  (`forms.py:12-19`). The model follows the evident intent instead: the
  model form's validation runs `Booking.clean` of `models.py` on the
  instance with its new times and its own pk excluded, and only the times
  change.
- **No double booking.** `Views.NoDoubleBooking` says that two different
  confirmed bookings of the same court, or two confirmed facility-level
  bookings of the same facility, never overlap. Every `Store` method keeps
  it. `BookView` keeps it because its clash query is at least as broad as
  the condition.

## Model

| member | source | states |
|---|---|---|
| `Time.TimeOfDay` | mysite/images/models.py:76-78 | the local time of day of an instant lies in [0, 86400) seconds |
| `Time.CombineRoundTrip` | mysite/images/services.py:7-8 | combining a date with a valid time of day and reading the instant back in local time gives the same date and time of day |
| `Time.WholeMinutes` | mysite/images/models.py:73 | `total_seconds() // 60` is the floor: m*60 <= seconds < (m+1)*60 |
| `Records.OverlapsSymmetricAndOpen` | mysite/images/services.py:24-27 | the overlap test is symmetric, and intervals that only touch at an endpoint never overlap |
| `Services.SlotsFromShape` | mysite/images/services.py:10-14 | stepping from t while t+step <= end yields floor((end-t)/step) slots (none if t > end), slot i being [t+i*step, t+(i+1)*step) inside [t, end] |
| `Services.DaySlotsShape` | mysite/images/services.py:6-14 | a day has floor((close-open)/slot) slots (none if close < open); the first starts at opening; each lasts the slot length; consecutive slots are contiguous; all lie within opening hours |
| `Services.GenerateSlots` | mysite/images/services.py:6-14 | the while loop returns exactly the day's slots, with the count, first start, length, contiguity and bounds above |
| `Services.FilterFree` | mysite/images/services.py:17-31 | a slot is kept iff it is one of the input slots, starts at least an hour after now, and overlaps no booked and no blocked interval; the output is no longer than the input |
| `Services.FilterFreeIsSubsequence` | mysite/images/services.py:31 | the comprehension returns an order-preserving subsequence of the input slots |
| `Services.TouchingSlotIsKept` | mysite/images/services.py:20-29 | a kept slot stays kept when a booked interval that only touches it at an endpoint is added |
| `Services.FacilityBooked` | mysite/images/services.py:36-43 | exactly the spans of confirmed, court-less bookings of the facility starting on the date are selected |
| `Services.CourtBooked` | mysite/images/services.py:57-61 | exactly the spans of confirmed bookings of that court starting on the date are selected |
| `Services.BlockedOn` | mysite/images/services.py:44-50 | exactly the blackouts of the facility with start date <= date <= end date are selected |
| `Services.FacilityBookedAppend` | mysite/images/services.py:36-43 | a booking that does not match the facility query leaves the selected intervals unchanged |
| `Services.CourtBookedAppend` | mysite/images/services.py:57-61 | a booking that does not match the court query leaves the selected intervals unchanged |
| `Services.HitsFacilityBooked` | mysite/images/services.py:23-25 | a slot hits a selected interval iff it overlaps a booking matching the facility query |
| `Services.HitsCourtBooked` | mysite/images/services.py:23-25 | a slot hits a selected interval iff it overlaps a booking matching the court query |
| `Services.HitsBlockedOn` | mysite/images/services.py:26-28 | a slot hits a selected interval iff it overlaps a blackout relevant on the date |
| `Services.FacilityAvailabilityMeaning` | mysite/images/services.py:34-51 | a slot is offered iff it is a day slot, is an hour ahead, overlaps no counted booking and overlaps no relevant blackout |
| `Services.CourtAvailabilityMeaning` | mysite/images/services.py:54-69 | the same for one court: only that court's confirmed bookings of the date and the facility's blackouts remove slots |
| `Services.AvailableSlots` | mysite/images/services.py:34-51 | returns the facility's free slots: a subsequence of the day's slots, with the membership characterisation above |
| `Services.AvailableCourtSlots` | mysite/images/services.py:54-69 | returns the court's free slots over its facility's day: a subsequence of the day's slots, with the membership characterisation above |
| `Services.UncountedBookingKeepsFacilitySlots` | mysite/images/services.py:36-43 | a booking that starts on another date (for instance the previous evening, running past midnight), is cancelled, or belongs to a court removes no facility slot |
| `Services.FacilityLevelBookingKeepsCourtSlots` | mysite/images/services.py:57-61 | a facility-level or cancelled booking removes no court slot |
| `Services.BookedIntervalIsNotOffered` | mysite/images/services.py:20-25 | no slot overlapping a counted booking is offered |
| `Services.FourteenHourlySlots` | mysite/images/services.py:6-14 | 08:00 to 22:00 with 60-minute slots gives fourteen slots, from 08:00-09:00 to 21:00-22:00 |
| `Validation.Clean` | mysite/images/models.py:64-88 | passes iff the facility is set (a non-zero id), the court (when its id is set) belongs to it, both times are set with start < end, the length is a positive multiple of the slot length, it lies within opening hours, it is an hour ahead, it overlaps no blackout of the facility, and it overlaps no other confirmed booking in its scope |
| `Validation.TooSoonReportedBeforeConflicts` | mysite/images/models.py:80-88 | once shape and hours pass, less than an hour ahead is reported as too soon, whatever the blackouts and bookings |
| `Validation.BlackoutReportedBeforeOverlap` | mysite/images/models.py:82-88 | a candidate overlapping a blackout is reported as in a blackout, whatever the bookings |
| `Validation.BookingClashAppend` | mysite/images/models.py:84-87 | adding a booking that is not a rival does not change whether the overlap query finds one |
| `Validation.NonRivalIgnored` | mysite/images/models.py:84-88 | adding a booking that is not a rival does not change the verdict |
| `Validation.CancelledNeverConflicts` | mysite/images/models.py:84 | a cancelled booking never changes the verdict |
| `Validation.OwnRecordExcluded` | mysite/images/models.py:85 | a saved record (non-zero pk) is never in conflict with itself |
| `Validation.TouchingBookingNoConflict` | mysite/images/models.py:87 | a booking ending at the start, or starting at the end, never changes the verdict |
| `Validation.CourtScopeIgnoresFacilityLevel` | mysite/images/models.py:86 | with a court of non-zero id set, a facility-level booking never changes the verdict |
| `Validation.ZeroCourtIdMeansFacilityScope` | mysite/images/models.py:67-86 | a court whose id is 0 is judged exactly as no court: no court check, facility scope |
| `Validation.ZeroFacilityIdRejected` | mysite/images/models.py:65-66 | a facility whose id is 0 is rejected as not set |
| `Validation.FacilityScopeIncludesCourtBookings` | mysite/images/models.py:86-88 | without a court, an overlapping confirmed court booking of the same facility is reported as an overlap |
| `Validation.NinetyMinutesOnHourlySlotsRejected` | mysite/images/models.py:73-75 | 90 minutes on a facility with 60-minute slots is rejected for its length |
| `AltValidation.AltClean` | mysite/images/model.py:53-88 | passes iff both times and the facility are set, the floored length is a positive multiple of a positive slot length, open <= start time < end time <= close, a confirmed record is an hour ahead, no other confirmed booking of the facility overlaps, and no blackout of the facility overlaps |
| `AltValidation.LengthCheckedBeforeFacilityRead` | mysite/images/model.py:55-57 | start >= end is reported as a wrong length before the facility is read, even when none is set |
| `AltValidation.CancelledSkipsLeadTime` | mysite/images/model.py:67-69 | a cancelled record is never rejected for lead time |
| `AltValidation.OverlapReportedBeforeBlackout` | mysite/images/model.py:71-88 | a candidate overlapping both a booking and a blackout is reported as already booked |
| `AltValidation.DayLongBookingSplitsValidators` | mysite/images/model.py:59-65 | a 24-hour booking passes every check of `models.py` but fails the strict hours test of `model.py` |
| `AltValidation.CleanBlackout` | mysite/images/model.py:35-37 | a blackout is accepted iff it covers at least one instant (start < end) |
| `AltValidation.CancelAllowedIsCleanLeadTime` | mysite/images/model.py:67-91 | `cancel_allowed` (model.py:90-91) is the same rule as the lead-time guard of `clean` (model.py:67-69): a confirmed booking whose length and hours pass is rejected as too close exactly when it may no longer be cancelled |
| `Views.BookVerdict` | mysite/images/views.py:366-427 | GET never creates; a booking is created iff it is a POST, the facility exists, the court (if any) belongs to it, both times are given with start < end, and no booking of the facility (of the court, if given), of any status, overlaps |
| `Views.EmptyIntervalRefusedBeforeStoreAccess` | mysite/images/views.py:395-397 | start >= end is refused, and the answer does not depend on the booking table |
| `Views.CancelledBookingStillBlocks` | mysite/images/views.py:407-416 | an overlapping cancelled booking still makes a POST fail with "no longer available" |
| `Views.BookViewSkipsClean` | mysite/images/views.py:418-425 | a booking 30 minutes ahead is created although `clean` reports it as too soon |
| `Views.InsertKeepsNoDoubleBooking` | mysite/images/views.py:407-425 | appending a booking that the clash query did not find keeps the no-double-booking invariant |
| `Views.FindOwned` | mysite/images/views.py:87 | finds a booking with that pk owned by the requester (confirmed, if asked), or reports that none exists |
| `Views.CancelKeepsNoDoubleBooking` | mysite/images/views.py:91-92 | cancelling one booking keeps the no-double-booking invariant |
| `Views.ModifyKeepsNoDoubleBooking` | mysite/images/views.py:437-447 | moving a booking to times that `clean` accepted, with its own pk excluded, keeps the no-double-booking invariant |
| `Views.DropFacilityBookings` | mysite/images/views.py:500 | after the cascade, the booking table holds exactly the bookings of other facilities |
| `Views.DropFacilityBlackouts` | mysite/images/views.py:500 | after the cascade, the blackout table holds exactly the blackouts of other facilities |
| `Views.DropKeepsUniqueIds` | mysite/images/views.py:500 | the cascade keeps booking ids unique |
| `Views.Store.constructor` | mysite/images/models.py:51-60 | an empty booking table over consistent facility, court and blackout tables is valid and free of double bookings |
| `Views.Store.BookView` | mysite/images/views.py:366-427 | follows `BookVerdict`; on creation, exactly one confirmed booking with price 0, the given user, facility, court and times is appended under a fresh id, and nothing else changes |
| `Views.Store.CancelBooking` | mysite/images/views.py:84-101 | only the requester's own booking; within an hour of its start nothing changes; otherwise only its status becomes cancelled, and re-cancelling leaves it as it was |
| `Views.Store.ModifyBooking` | mysite/images/views.py:430-454 | only the requester's confirmed booking; refused within an hour of its original start; otherwise a GET shows the form, and a POST is applied iff `clean` accepts the booking at the new times (its own pk excluded), else rejected with `clean`'s error; on success only start and end change, while user, facility, court, price and status are kept |
| `Views.Store.ProviderDeleteFacility` | mysite/images/views.py:479-502 | refused for non-providers and for facilities missing or not owned; blocked iff some confirmed booking of the facility starts at or after now; otherwise it deletes the facility, its courts, its bookings and its blackouts |
| `Reports.StrLessIrreflexive` | mysite/images/view-reports.py:27 | no facility name sorts before itself |
| `Reports.StrLessTotal` | mysite/images/view-reports.py:27 | of two different names, one sorts before the other |
| `Reports.StrLessTransitive` | mysite/images/view-reports.py:27 | the name order is transitive |
| `Reports.KeyLessStrictTotalOrder` | mysite/images/view-reports.py:27 | the (name, date) tuple order is a strict total order |
| `Reports.InsertRow` | mysite/images/view-reports.py:27 | inserting a row with a new key keeps the rows strictly sorted, and adds exactly that row |
| `Reports.ReportFilter` | mysite/images/view-reports.py:11-13 | exactly the confirmed bookings whose local start date lies within the given inclusive bounds are selected |
| `Reports.CountOf` | mysite/images/view-reports.py:20-24 | a key's count is at most the number of bookings, and positive iff some booking has that key |
| `Reports.CountByKey` | mysite/images/view-reports.py:20-25 | the setdefault-and-increment loop leaves each key's counter equal to the number of bookings with that key, and holds no other key |
| `Reports.EmitSorted` | mysite/images/view-reports.py:27-28 | each dictionary entry is emitted exactly once, in strictly ascending key order |
| `Reports.DistinctOccurrences` | mysite/images/view-reports.py:27 | in sorted output a key occurs at most once |
| `Reports.SumOverCovers` | mysite/images/view-reports.py:21-24 | over rows with distinct keys covering every booking's key, the per-key counts add up to the number of bookings |
| `Reports.SumCountsIsSumOver` | mysite/images/view-reports.py:21-24 | rows whose counts are the per-key counts add up to the sum of those counts |
| `Reports.UsageReport` | mysite/images/view-reports.py:8-30 | rows are strictly sorted by (name, date); a key has a row iff some selected booking has it; each count is the number of selected bookings with that key; the counts add up to the number of selected bookings |
| `Reports.UnboundedSelectsConfirmed` | mysite/images/views.py:112 | with no bounds, exactly the confirmed bookings are selected |
| `Reports.UsageReportAll` | mysite/images/views.py:104-122 | the same guarantees over every confirmed booking |

## Left out

- HTTP plumbing is not modelled: request parsing, `render`, `redirect`, `messages` and the login, staff and POST-only decorators. A view's answer is a result value, and a GET that renders a page is one outcome constructor.
- ISO date parsing in `book_view` and the "Invalid date/time format" branch (`views.py:384-393`) are not modelled. The view receives instants or `None`, and a value that fails to parse has no counterpart.
- Time zones are reduced to one fixed offset. There is no daylight-saving change and no time-zone database; `make_aware` and `localtime` become addition of the offset.
- Sub-second precision is dropped: instants are whole seconds.
- Revenue is left out. `float(b.price)` sums (`views.py:117`, `view-reports.py:25`) are floating point, and the report rows carry counts only. No price is ever computed: `BookView` stores price 0 and `ModifyBooking` keeps the old price.
- The cancellation email (`views.py:93-99`) is fire-and-forget I/O and is not modelled.
- Concurrency is not modelled: there is no locking, and the store methods run one at a time.
- `Services.GenerateSlots`: requires a positive slot length or an opening time after the closing time. Otherwise the source loop never terminates.
- `Views.Store.ModifyBooking`: models the evident intent, validation through `Booking.clean` of `models.py` with the pk excluded. As written, `BookingForm` is constructed with a `facility` argument it does not accept, which raises `TypeError` on every request that reaches the form. The form's own field parsing is not modelled: in the model a time that is not supplied is `None` and `clean` rejects it as missing. Django instead drops an unparsable field from the form data and keeps the old time on the instance, and the request is still rejected.
- `Reports.KeyOf`: models `b.start_dt.date()` as the UTC date, which assumes the project setting `USE_TZ = True` (the settings module is not part of this model).
- The alternate `model.py` bookings have no court field. `AltValidation` ignores `Booking.court`, and its `Facility` is the shared record.
- The sport dropdown de-duplication (`casefold`) and the case-insensitive court-name check in the court management view are not modelled. They depend on Unicode case folding.
- The rest of the app is CRUD or configuration and is not modelled: registration, provider signup and approval, the profile signal (`models.py:105-107`), facility, court and blackout editing, admin, URLs, forms other than the one above, and the demo seeding command.
- Booking list ordering (`Meta.ordering`, `order_by`) is not modelled. The pure parts of the model read the tables in insertion order, and the results are sets or are sorted separately.
- `Views.Store.Valid` does not model Django's uniqueness constraints on facility names and on (facility, court name). Only primary keys and foreign keys are modelled.
