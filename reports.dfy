/**
 * The usage report: `usage_report_csv` in mysite/images/view-reports.py
 * (optional inclusive from/to bounds on the local start date) and its
 * unfiltered twin in mysite/images/views.py.  Confirmed bookings are
 * counted per (facility name, start date) in a dictionary built by a loop,
 * and the rows are emitted in ascending key order.
 */
module Reports {
  import opened Time
  import opened Records

  /** A dictionary key: the facility's name and the booking's start date (UTC day number). */
  datatype Key = Key(facility: string, day: int)

  /** One CSV row: the key and the number of bookings under it. */
  datatype Row = Row(key: Key, count: nat)

  // ---------------------------------------------------------------------
  // The order `sorted` uses on keys
  // ---------------------------------------------------------------------

  /** Python's string order: by code point, a proper prefix first. */
  predicate StrLess(a: string, b: string)
  {
    if |a| == 0 then |b| > 0
    else |b| > 0 && (a[0] < b[0] || (a[0] == b[0] && StrLess(a[1..], b[1..])))
  }

  lemma {:induction false} StrLessIrreflexive(a: string)
    ensures !StrLess(a, a)
  {
    if |a| > 0 {
      StrLessIrreflexive(a[1..]);
    }
  }

  lemma {:induction false} StrLessTotal(a: string, b: string)
    ensures a == b || StrLess(a, b) || StrLess(b, a)
  {
    if |a| > 0 && |b| > 0 && a[0] == b[0] {
      StrLessTotal(a[1..], b[1..]);
      assert a == [a[0]] + a[1..] && b == [b[0]] + b[1..];
    }
  }

  lemma {:induction false} StrLessTransitive(a: string, b: string, c: string)
    requires StrLess(a, b) && StrLess(b, c)
    ensures StrLess(a, c)
  {
    if |a| > 0 && a[0] == b[0] && b[0] == c[0] {
      StrLessTransitive(a[1..], b[1..], c[1..]);
    }
  }

  /** Tuple order on (facility name, date). */
  predicate KeyLess(a: Key, b: Key)
  {
    StrLess(a.facility, b.facility) || (a.facility == b.facility && a.day < b.day)
  }

  lemma KeyLessStrictTotalOrder()
    ensures forall a :: !KeyLess(a, a)
    ensures forall a, b :: a == b || KeyLess(a, b) || KeyLess(b, a)
    ensures forall a, b, c :: KeyLess(a, b) && KeyLess(b, c) ==> KeyLess(a, c)
  {
    forall a: Key ensures !KeyLess(a, a) {
      StrLessIrreflexive(a.facility);
    }
    forall a: Key, b: Key ensures a == b || KeyLess(a, b) || KeyLess(b, a) {
      StrLessTotal(a.facility, b.facility);
    }
    forall a: Key, b: Key, c: Key | KeyLess(a, b) && KeyLess(b, c) ensures KeyLess(a, c) {
      if StrLess(a.facility, b.facility) && StrLess(b.facility, c.facility) {
        StrLessTransitive(a.facility, b.facility, c.facility);
      }
    }
  }

  /** Rows in strictly ascending key order (so no key appears twice). */
  predicate Sorted(rs: seq<Row>)
  {
    forall i, j :: 0 <= i < j < |rs| ==> KeyLess(rs[i].key, rs[j].key)
  }

  /** Insert a row with a new key at its place in the order. */
  function InsertRow(rs: seq<Row>, r: Row): (out: seq<Row>)
    requires Sorted(rs)
    requires forall x :: x in rs ==> x.key != r.key
    ensures Sorted(out)
    ensures |out| == |rs| + 1
    ensures forall x :: x in out <==> x in rs || x == r
  {
    KeyLessStrictTotalOrder();
    if |rs| == 0 then [r]
    else if KeyLess(r.key, rs[0].key) then [r] + rs
    else
      var rest := InsertRow(rs[1..], r);
      assert forall x :: x in rest ==> KeyLess(rs[0].key, x.key) by {
        forall x | x in rest ensures KeyLess(rs[0].key, x.key) {
          if x != r {
            var j :| 1 <= j < |rs| && rs[j] == x;
          }
        }
      }
      assert forall j :: 1 <= j < |rest| + 1 ==> ([rs[0]] + rest)[j] in rest;
      [rs[0]] + rest
  }

  // ---------------------------------------------------------------------
  // Filtering and counting
  // ---------------------------------------------------------------------

  /** Every booking's facility resolves (the foreign key). */
  predicate Joined(bs: seq<Booking>, facilities: map<nat, Facility>)
  {
    forall i :: 0 <= i < |bs| ==> bs[i].facility in facilities
  }

  /** `(b.facility.name, b.start_dt.date())`; the date of an aware UTC value is the UTC date. */
  function KeyOf(b: Booking, facilities: map<nat, Facility>): Key
    requires b.facility in facilities
  {
    Key(facilities[b.facility].name, UtcDate(b.start))
  }

  /** Confirmed, with `start_dt__date` (the local start date) within the bounds that are given. */
  predicate Selected(b: Booking, from: Option<int>, to: Option<int>, utcOffset: int)
  {
    && b.status == Confirmed
    && (from.Some? ==> LocalDate(b.start, utcOffset) >= from.value)
    && (to.Some? ==> LocalDate(b.start, utcOffset) <= to.value)
  }

  /** The report's queryset, in table order. */
  function ReportFilter(bs: seq<Booking>, from: Option<int>, to: Option<int>, utcOffset: int): (r: seq<Booking>)
    ensures forall b :: b in r <==> b in bs && Selected(b, from, to, utcOffset)
    ensures |r| <= |bs|
  {
    if |bs| == 0 then []
    else
      var rest := ReportFilter(bs[1..], from, to, utcOffset);
      assert forall b :: b in bs <==> b == bs[0] || b in bs[1..];
      if Selected(bs[0], from, to, utcOffset) then [bs[0]] + rest else rest
  }

  /** How many of `qs` fall under key `k`. */
  function CountOf(qs: seq<Booking>, facilities: map<nat, Facility>, k: Key): (n: nat)
    requires Joined(qs, facilities)
    ensures n <= |qs|
    ensures n > 0 <==> exists i :: 0 <= i < |qs| && KeyOf(qs[i], facilities) == k
  {
    if |qs| == 0 then 0
    else
      var p := qs[..|qs| - 1];
      var n := CountOf(p, facilities, k) + (if KeyOf(qs[|qs| - 1], facilities) == k then 1 else 0);
      assert forall i :: 0 <= i < |p| ==> p[i] == qs[i];
      n
  }

  /**
   * The loop `rows.setdefault(key, ...); rows[key]["count"] += 1` over the
   * queryset: afterwards the keys are exactly the keys of `qs` and each
   * counter is the number of bookings under its key.
   */
  method CountByKey(qs: seq<Booking>, facilities: map<nat, Facility>) returns (rows: map<Key, nat>)
    requires Joined(qs, facilities)
    ensures forall k :: CountOf(qs, facilities, k) == (if k in rows then rows[k] else 0)
    ensures forall k :: k in rows ==> rows[k] > 0
  {
    rows := map[];
    for i := 0 to |qs|
      invariant forall k :: CountOf(qs[..i], facilities, k) == (if k in rows then rows[k] else 0)
      invariant forall k :: k in rows ==> rows[k] > 0
    {
      var key := KeyOf(qs[i], facilities);
      if key !in rows {
        rows := rows[key := 0];
      }
      rows := rows[key := rows[key] + 1];
      assert qs[..i + 1][..i] == qs[..i];
    }
    assert qs[..|qs|] == qs;
  }

  /** `sorted(rows.items())`: every entry once, in ascending key order. */
  method EmitSorted(rows: map<Key, nat>) returns (out: seq<Row>)
    ensures Sorted(out)
    ensures forall x :: x in out ==> x.key in rows && x.count == rows[x.key]
    ensures forall k :: k in rows ==> Row(k, rows[k]) in out
  {
    out := [];
    var remaining := rows.Keys;
    while remaining != {}
      invariant remaining <= rows.Keys
      invariant Sorted(out)
      invariant forall x :: x in out ==> x.key in rows && x.count == rows[x.key] && x.key !in remaining
      invariant forall k :: k in rows ==> k in remaining || Row(k, rows[k]) in out
      decreases remaining
    {
      var k :| k in remaining;
      out := InsertRow(out, Row(k, rows[k]));
      remaining := remaining - {k};
    }
  }

  // ---------------------------------------------------------------------
  // Every filtered booking is counted exactly once
  // ---------------------------------------------------------------------

  function SumCounts(rs: seq<Row>): nat
  {
    if |rs| == 0 then 0 else rs[0].count + SumCounts(rs[1..])
  }

  /** The sum over the rows' keys of the number of bookings of `qs` under each. */
  function SumOver(rs: seq<Row>, qs: seq<Booking>, facilities: map<nat, Facility>): nat
    requires Joined(qs, facilities)
  {
    if |rs| == 0 then 0 else CountOf(qs, facilities, rs[0].key) + SumOver(rs[1..], qs, facilities)
  }

  /** The number of rows whose key is `k`. */
  function Occurrences(rs: seq<Row>, k: Key): nat
  {
    if |rs| == 0 then 0 else (if rs[0].key == k then 1 else 0) + Occurrences(rs[1..], k)
  }

  lemma {:induction false} SumOverEmpty(rs: seq<Row>, facilities: map<nat, Facility>)
    ensures SumOver(rs, [], facilities) == 0
  {
    if |rs| > 0 {
      SumOverEmpty(rs[1..], facilities);
    }
  }

  lemma {:induction false} SumOverSnoc(rs: seq<Row>, qs: seq<Booking>, b: Booking, facilities: map<nat, Facility>)
    requires Joined(qs, facilities) && b.facility in facilities
    ensures Joined(qs + [b], facilities)
    ensures SumOver(rs, qs + [b], facilities) == SumOver(rs, qs, facilities) + Occurrences(rs, KeyOf(b, facilities))
  {
    assert forall i :: 0 <= i < |qs| ==> (qs + [b])[i] == qs[i];
    assert (qs + [b])[|qs|] == b;
    assert (qs + [b])[..|qs|] == qs;
    if |rs| > 0 {
      SumOverSnoc(rs[1..], qs, b, facilities);
    }
  }

  lemma {:induction false} DistinctOccurrences(rs: seq<Row>, k: Key)
    requires Sorted(rs)
    ensures Occurrences(rs, k) == if exists x :: x in rs && x.key == k then 1 else 0
  {
    if |rs| > 0 {
      KeyLessStrictTotalOrder();
      assert Sorted(rs[1..]);
      DistinctOccurrences(rs[1..], k);
      if rs[0].key == k {
        assert forall x :: x in rs[1..] ==> x.key != k by {
          forall x | x in rs[1..] ensures x.key != k {
            var j :| 0 <= j < |rs[1..]| && rs[1..][j] == x;
            assert KeyLess(rs[0].key, rs[j + 1].key);
          }
        }
      }
      assert forall x :: x in rs <==> x == rs[0] || x in rs[1..];
    }
  }

  /** Rows with distinct keys covering every key of `qs` account for every booking once. */
  lemma {:induction false} SumOverCovers(rs: seq<Row>, qs: seq<Booking>, facilities: map<nat, Facility>)
    requires Joined(qs, facilities) && Sorted(rs)
    requires forall i :: 0 <= i < |qs| ==> exists x :: x in rs && x.key == KeyOf(qs[i], facilities)
    ensures SumOver(rs, qs, facilities) == |qs|
  {
    if |qs| == 0 {
      SumOverEmpty(rs, facilities);
    } else {
      var p, b := qs[..|qs| - 1], qs[|qs| - 1];
      assert p + [b] == qs;
      assert forall i :: 0 <= i < |p| ==> p[i] == qs[i];
      SumOverSnoc(rs, p, b, facilities);
      SumOverCovers(rs, p, facilities);
      DistinctOccurrences(rs, KeyOf(b, facilities));
    }
  }

  lemma {:induction false} SumCountsIsSumOver(rs: seq<Row>, qs: seq<Booking>, facilities: map<nat, Facility>)
    requires Joined(qs, facilities)
    requires forall x :: x in rs ==> x.count == CountOf(qs, facilities, x.key)
    ensures SumCounts(rs) == SumOver(rs, qs, facilities)
  {
    if |rs| > 0 {
      assert rs[0] in rs;
      assert forall x :: x in rs[1..] ==> x in rs;
      SumCountsIsSumOver(rs[1..], qs, facilities);
    }
  }

  // ---------------------------------------------------------------------
  // The two views
  // ---------------------------------------------------------------------

  /**
   * `usage_report_csv` of view-reports.py (counts only): the rows are in
   * strictly ascending key order, a key has a row iff some selected booking
   * falls under it, each row's count is the number of selected bookings
   * under its key, and the counts add up to the number of selected bookings.
   */
  method UsageReport(bookings: seq<Booking>, facilities: map<nat, Facility>, from: Option<int>, to: Option<int>, utcOffset: int)
    returns (out: seq<Row>)
    requires Joined(bookings, facilities)
    ensures Sorted(out)
    ensures var qs := ReportFilter(bookings, from, to, utcOffset);
            && Joined(qs, facilities)
            && (forall x :: x in out ==> x.count == CountOf(qs, facilities, x.key) && x.count > 0)
            && (forall k :: CountOf(qs, facilities, k) > 0 ==> Row(k, CountOf(qs, facilities, k)) in out)
            && SumCounts(out) == |qs|
  {
    var qs := ReportFilter(bookings, from, to, utcOffset);
    assert Joined(qs, facilities) by {
      forall i | 0 <= i < |qs| ensures qs[i].facility in facilities {
        assert qs[i] in bookings;
      }
    }
    var rows := CountByKey(qs, facilities);
    out := EmitSorted(rows);
    forall i | 0 <= i < |qs| ensures exists x :: x in out && x.key == KeyOf(qs[i], facilities) {
      var k := KeyOf(qs[i], facilities);
      assert CountOf(qs, facilities, k) > 0;
      assert Row(k, rows[k]) in out;
    }
    SumCountsIsSumOver(out, qs, facilities);
    SumOverCovers(out, qs, facilities);
  }

  /** Without bounds the report selects exactly the confirmed bookings, whatever the offset. */
  lemma UnboundedSelectsConfirmed(b: Booking, utcOffset: int)
    ensures Selected(b, None, None, utcOffset) <==> b.status == Confirmed
  {
  }

  /**
   * `usage_report_csv` of views.py: the same aggregation with no date
   * bounds, over every confirmed booking.
   */
  method UsageReportAll(bookings: seq<Booking>, facilities: map<nat, Facility>) returns (out: seq<Row>)
    requires Joined(bookings, facilities)
    ensures Sorted(out)
    ensures var qs := ReportFilter(bookings, None, None, 0);
            && (forall b :: b in qs <==> b in bookings && b.status == Confirmed)
            && Joined(qs, facilities)
            && (forall x :: x in out ==> x.count == CountOf(qs, facilities, x.key) && x.count > 0)
            && (forall k :: CountOf(qs, facilities, k) > 0 ==> Row(k, CountOf(qs, facilities, k)) in out)
            && SumCounts(out) == |qs|
  {
    out := UsageReport(bookings, facilities, None, None, 0);
  }
}
