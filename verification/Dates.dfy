/** Workday arithmetic. Four differently shaped loops refine one specification: the days of a range
    that qualify, in order. */
module Dates {
  import opened Wrappers

  /** A calendar tells workdays from weekends and holidays; at least one day in `gap` is a workday. */
  datatype Calendar = Calendar(isWorkday: Day -> bool, gap: nat)

  ghost predicate WorkdayWithinGap(cal: Calendar, d: Day) {
    exists w: Day :: d <= w < d + cal.gap && cal.isWorkday(w)
  }

  ghost predicate Bounded(cal: Calendar) {
    forall d: Day :: WorkdayWithinGap(cal, d)
  }

  predicate Qualifies(cal: Calendar, includeAll: bool, d: Day) {
    includeAll || cal.isWorkday(d)
  }

  /** The qualifying days from lo up to, but not including, hi. */
  function Range(cal: Calendar, includeAll: bool, lo: Day, hi: Day): seq<Day>
    decreases hi - lo
  {
    if hi <= lo then []
    else Range(cal, includeAll, lo, hi - 1) + if Qualifies(cal, includeAll, hi - 1) then [hi - 1] else []
  }

  /** dates are the first n qualifying days from start on. */
  ghost predicate Forward(cal: Calendar, includeAll: bool, start: Day, n: nat, dates: seq<Day>) {
    |dates| == n && (n > 0 ==> dates == Range(cal, includeAll, start, dates[n - 1] + 1))
  }

  /** dates are the last n qualifying days up to and including start. */
  ghost predicate Backward(cal: Calendar, includeAll: bool, start: Day, n: nat, dates: seq<Day>) {
    |dates| == n && (n > 0 ==> dates == Range(cal, includeAll, dates[0], start + 1))
  }

  lemma {:induction false} RangeConcatenates(cal: Calendar, includeAll: bool, lo: Day, mid: Day, hi: Day)
    requires lo <= mid <= hi
    ensures Range(cal, includeAll, lo, hi) == Range(cal, includeAll, lo, mid) + Range(cal, includeAll, mid, hi)
    decreases hi - mid
  {
    if mid < hi {
      RangeConcatenates(cal, includeAll, lo, mid, hi - 1);
    }
  }

  lemma {:induction false} RangeMembers(cal: Calendar, includeAll: bool, lo: Day, hi: Day)
    ensures var r := Range(cal, includeAll, lo, hi);
      && (forall d :: d in r <==> lo <= d < hi && Qualifies(cal, includeAll, d))
      && (forall i, j :: 0 <= i < j < |r| ==> r[i] < r[j])
    decreases hi - lo
  {
    if lo < hi {
      RangeMembers(cal, includeAll, lo, hi - 1);
      var before := Range(cal, includeAll, lo, hi - 1);
      assert forall i :: 0 <= i < |before| ==> before[i] in before;
    }
  }

  lemma {:induction false} EmptyRange(cal: Calendar, includeAll: bool, lo: Day, hi: Day)
    requires forall d :: lo <= d < hi ==> !Qualifies(cal, includeAll, d)
    ensures Range(cal, includeAll, lo, hi) == []
    decreases hi - lo
  {
    if lo < hi {
      EmptyRange(cal, includeAll, lo, hi - 1);
    }
  }

  lemma ForwardIsUnique(cal: Calendar, includeAll: bool, start: Day, n: nat, a: seq<Day>, b: seq<Day>)
    requires Forward(cal, includeAll, start, n, a) && Forward(cal, includeAll, start, n, b)
    ensures a == b
  {
    if n > 0 {
      var x, y := a[n - 1], b[n - 1];
      RangeMembers(cal, includeAll, start, x + 1);
      RangeMembers(cal, includeAll, start, y + 1);
      assert x in a && y in b;
      RangeConcatenates(cal, includeAll, start, if x < y then x + 1 else y + 1, if x < y then y + 1 else x + 1);
    }
  }

  lemma BackwardIsUnique(cal: Calendar, includeAll: bool, start: Day, n: nat, a: seq<Day>, b: seq<Day>)
    requires Backward(cal, includeAll, start, n, a) && Backward(cal, includeAll, start, n, b)
    ensures a == b
  {
    if n > 0 {
      var x, y := a[0], b[0];
      RangeMembers(cal, includeAll, x, start + 1);
      RangeMembers(cal, includeAll, y, start + 1);
      assert x in a && y in b;
      RangeConcatenates(cal, includeAll, if x < y then x else y, if x < y then y else x, start + 1);
      RangeMembers(cal, includeAll, if x < y then x else y, if x < y then y else x);
      assert x < y ==> x in Range(cal, includeAll, x, y);
      assert y < x ==> y in Range(cal, includeAll, y, x);
    }
  }

  /** The half-open range from a forward list's first day to the day after its last is the list. */
  lemma ForwardListIsItsRange(cal: Calendar, includeAll: bool, start: Day, n: nat, dates: seq<Day>)
    requires n >= 1 && Forward(cal, includeAll, start, n, dates)
    ensures dates == Range(cal, includeAll, dates[0], dates[n - 1] + 1)
  {
    var first, last := dates[0], dates[n - 1];
    RangeMembers(cal, includeAll, start, last + 1);
    assert first in dates;
    assert forall d :: d in dates ==> first <= d;
    EmptyRange(cal, includeAll, start, first);
    RangeConcatenates(cal, includeAll, start, first, last + 1);
  }

  /** Going back n days from the last day of a forward list gives that list. */
  lemma PastInvertsFuture(cal: Calendar, includeAll: bool, start: Day, n: nat, future: seq<Day>, past: seq<Day>)
    requires n >= 1 && Forward(cal, includeAll, start, n, future)
    requires Backward(cal, includeAll, future[n - 1], n, past)
    ensures past == future
  {
    ForwardListIsItsRange(cal, includeAll, start, n, future);
    BackwardIsUnique(cal, includeAll, future[n - 1], n, past, future);
  }

  /** A backward list is also the range up to its last day. */
  lemma BackwardListIsForward(cal: Calendar, includeAll: bool, start: Day, n: nat, dates: seq<Day>)
    requires n >= 1 && Backward(cal, includeAll, start, n, dates)
    ensures Forward(cal, includeAll, dates[0], n, dates)
  {
    var first, last := dates[0], dates[n - 1];
    RangeMembers(cal, includeAll, first, start + 1);
    hide Range;
    assert last in dates;
    assert forall d :: d in dates ==> d <= last;
    EmptyRange(cal, includeAll, last + 1, start + 1);
    RangeConcatenates(cal, includeAll, first, last + 1, start + 1);
  }

  /** Going forward n days from the first day of a backward list gives that list. */
  lemma FutureInvertsPast(cal: Calendar, includeAll: bool, start: Day, n: nat, past: seq<Day>, future: seq<Day>)
    requires n >= 1 && Backward(cal, includeAll, start, n, past)
    requires Forward(cal, includeAll, past[0], n, future)
    ensures future == past
  {
    hide Range;
    BackwardListIsForward(cal, includeAll, start, n, past);
    ForwardIsUnique(cal, includeAll, past[0], n, future, past);
  }

  method CreateFutureMoveDates(startDate: Day, numDays: nat, includeWeekendsAndHolidays: bool, calendar: Calendar)
    returns (dates: seq<Day>)
    requires includeWeekendsAndHolidays || Bounded(calendar)
    ensures Forward(calendar, includeWeekendsAndHolidays, startDate, numDays, dates)
  {
    dates := [];
    var daysAdded := 0;
    var d := startDate;
    ghost var next := Upcoming(calendar, includeWeekendsAndHolidays, d);
    while daysAdded < numDays
      invariant 0 <= daysAdded == |dates| <= numDays && startDate <= d <= next
      invariant Qualifies(calendar, includeWeekendsAndHolidays, next)
      invariant dates == Range(calendar, includeWeekendsAndHolidays, startDate, d)
      invariant Forward(calendar, includeWeekendsAndHolidays, startDate, daysAdded, dates)
      decreases numDays - daysAdded, next - d
    {
      if includeWeekendsAndHolidays || calendar.isWorkday(d) {
        dates := dates + [d];
        daysAdded := daysAdded + 1;
        next := Upcoming(calendar, includeWeekendsAndHolidays, d + 1);
      }
      d := d + 1;
    }
  }

  /** Some qualifying day at or after d. */
  lemma Upcoming(cal: Calendar, includeAll: bool, d: Day) returns (w: Day)
    requires includeAll || Bounded(cal)
    ensures w >= d && Qualifies(cal, includeAll, w)
  {
    if includeAll {
      w := d;
    } else {
      assert WorkdayWithinGap(cal, d);
      w :| d <= w < d + cal.gap && cal.isWorkday(w);
    }
  }

  /** Some qualifying day at or before d: the gap bound works in both directions. */
  lemma Preceding(cal: Calendar, includeAll: bool, d: Day) returns (w: Day)
    requires includeAll || Bounded(cal)
    ensures w <= d && Qualifies(cal, includeAll, w)
  {
    if includeAll {
      w := d;
    } else {
      assert WorkdayWithinGap(cal, d - cal.gap);
      w :| d - cal.gap <= w < d && cal.isWorkday(w);
    }
  }

  method CreatePastMoveDates(startDate: Day, numDays: nat, includeWeekendsAndHolidays: bool, calendar: Calendar)
    returns (dates: array<Day>)
    requires includeWeekendsAndHolidays || Bounded(calendar)
    ensures fresh(dates) && Backward(calendar, includeWeekendsAndHolidays, startDate, numDays, dates[..])
  {
    hide Found, Range, Backward, Bounded, LastOf;
    dates := new Day[numDays];
    var daysAdded := 0;
    var d := startDate;
    ghost var found: seq<Day> := [];
    ghost var next := Preceding(calendar, includeWeekendsAndHolidays, d);
    FoundNothing(calendar, includeWeekendsAndHolidays, startDate);
    LastOfNone(dates);
    while daysAdded < numDays
      invariant 0 <= daysAdded == |found| <= numDays && next <= d <= startDate
      invariant Qualifies(calendar, includeWeekendsAndHolidays, next)
      invariant Found(calendar, includeWeekendsAndHolidays, d, startDate, found)
      invariant LastOf(dates, daysAdded) == found
      decreases numDays - daysAdded, d - next
    {
      OneDayBack(calendar, includeWeekendsAndHolidays, d, startDate, found);
      if includeWeekendsAndHolidays || calendar.isWorkday(d) {
        // Working backwards, so fill the slice from its end.
        PutInFront(dates, daysAdded, d);
        found := [d] + found;
        daysAdded := daysAdded + 1;
        next := Preceding(calendar, includeWeekendsAndHolidays, d - 1);
      }
      d := d - 1;
    }
    LastOfAll(dates);
    FoundIsBackward(calendar, includeWeekendsAndHolidays, d, startDate, found);
  }

  /** What the backward loop has found when it has come down to day d. */
  ghost predicate Found(cal: Calendar, includeAll: bool, d: Day, start: Day, found: seq<Day>) {
    && found == Range(cal, includeAll, d + 1, start + 1)
    && Backward(cal, includeAll, start, |found|, found)
  }

  lemma FoundNothing(cal: Calendar, includeAll: bool, start: Day)
    ensures Found(cal, includeAll, start, start, [])
  {
  }

  lemma FoundIsBackward(cal: Calendar, includeAll: bool, d: Day, start: Day, found: seq<Day>)
    requires Found(cal, includeAll, d, start, found)
    ensures Backward(cal, includeAll, start, |found|, found)
  {
  }

  /** The last k elements. */
  ghost function LastOf(dates: array<Day>, k: nat): seq<Day>
    requires k <= dates.Length
    reads dates
  {
    dates[dates.Length - k..]
  }

  lemma LastOfNone(dates: array<Day>)
    ensures LastOf(dates, 0) == []
  {
  }

  lemma LastOfAll(dates: array<Day>)
    ensures LastOf(dates, dates.Length) == dates[..]
  {
  }

  method PutInFront(dates: array<Day>, k: nat, d: Day)
    requires k < dates.Length
    modifies dates
    ensures LastOf(dates, k + 1) == [d] + old(LastOf(dates, k))
  {
    dates[dates.Length - k - 1] := d;
  }

  lemma OneDayBack(cal: Calendar, includeAll: bool, d: Day, start: Day, found: seq<Day>)
    requires d <= start && Found(cal, includeAll, d, start, found)
    ensures Found(cal, includeAll, d - 1, start, if Qualifies(cal, includeAll, d) then [d] + found else found)
  {
    DayInFront(cal, includeAll, d, start + 1);
  }

  lemma DayInFront(cal: Calendar, includeAll: bool, d: Day, hi: Day)
    requires d < hi
    ensures Range(cal, includeAll, d, hi) ==
            (if Qualifies(cal, includeAll, d) then [d] else []) + Range(cal, includeAll, d + 1, hi)
  {
    RangeConcatenates(cal, includeAll, d, d + 1, hi);
    assert Range(cal, includeAll, d, d) == [];
  }

  method CreateValidDatesBetweenTwoDates(startDate: Day, endDate: Day, includeWeekendsAndHolidays: bool,
                                         allowEarlierOrSameEndDate: bool, calendar: Calendar)
    returns (r: Result<seq<Day>, string>)
    ensures r.Err? <==> endDate <= startDate && !allowEarlierOrSameEndDate
    ensures r.Ok? ==> r.value == Range(calendar, includeWeekendsAndHolidays, startDate, endDate)
  {
    if startDate > endDate || startDate == endDate {
      if allowEarlierOrSameEndDate {
        return Ok([]);
      }
      return Err("End date cannot be before or equal to start date");
    }
    var dates := [];
    var dateToAdd := startDate;
    while dateToAdd < endDate
      invariant startDate <= dateToAdd <= endDate
      invariant dates == Range(calendar, includeWeekendsAndHolidays, startDate, dateToAdd)
    {
      if includeWeekendsAndHolidays || calendar.isWorkday(dateToAdd) {
        dates := dates + [dateToAdd];
      }
      dateToAdd := dateToAdd + 1;
    }
    return Ok(dates);
  }

  method NextWorkday(calendar: Calendar, date: Day) returns (r: Day)
    requires exists w: Day :: date < w && calendar.isWorkday(w)
    ensures Forward(calendar, false, date + 1, 1, [r])
  {
    ghost var w: Day :| date < w && calendar.isWorkday(w);
    r := date;
    while true
      invariant date <= r < w && Range(calendar, false, date + 1, r + 1) == []
      decreases w - r
    {
      r := r + 1;
      if calendar.isWorkday(r) {
        return;
      }
    }
  }

  method NextNonWorkday(calendar: Calendar, date: Day) returns (r: Day)
    requires exists w: Day :: date < w && !calendar.isWorkday(w)
    ensures date < r && !calendar.isWorkday(r) && |Range(calendar, false, date + 1, r)| == r - date - 1
  {
    ghost var w: Day :| date < w && !calendar.isWorkday(w);
    r := date;
    while true
      invariant date <= r < w && |Range(calendar, false, date + 1, r + 1)| == r - date
      decreases w - r
    {
      r := r + 1;
      if !calendar.isWorkday(r) {
        return;
      }
    }
  }

  /** The dates of one move, as values. */
  datatype Plan = Plan(packDays: seq<Day>, pickupDays: seq<Day>, transitDays: seq<Day>, deliveryDays: seq<Day>)

  ghost predicate IsPlan(cal: Calendar, moveDate: Day, packDays: nat, transitDays: nat, p: Plan)
    requires transitDays > 0
  {
    && Backward(cal, false, moveDate - 1, packDays, p.packDays)
    && Forward(cal, false, moveDate, 1, p.pickupDays)
    && Forward(cal, true, p.pickupDays[0] + 1, transitDays, p.transitDays)
    && Forward(cal, false, p.transitDays[transitDays - 1] + 1, 1, p.deliveryDays)
  }

  /** The dates a move summary holds; ReportDays is set by others. */
  class MoveDatesSummary {
    var moveDate: Day
    var packDays: seq<Day>
    var estimatedPackDays: int
    var pickupDays: seq<Day>
    var transitDays: seq<Day>
    var estimatedTransitDays: int
    var deliveryDays: seq<Day>
    var reportDays: seq<Day>

    constructor ()
    {
      moveDate, estimatedPackDays, estimatedTransitDays := 0, 0, 0;
      packDays, pickupDays, transitDays, deliveryDays, reportDays := [], [], [], [], [];
    }

    method CalculateMoveDates(moveDate: Day, estimatedPackDays: nat, estimatedTransitDays: nat, calendar: Calendar)
      requires Bounded(calendar) && estimatedTransitDays > 0
      modifies this
      ensures this.moveDate == moveDate && this.estimatedPackDays == estimatedPackDays
      ensures this.estimatedTransitDays == estimatedTransitDays && reportDays == old(reportDays)
      ensures IsPlan(calendar, moveDate, estimatedPackDays, estimatedTransitDays,
                     Plan(packDays, pickupDays, transitDays, deliveryDays))
    {
      this.moveDate := moveDate;
      this.estimatedPackDays := estimatedPackDays;
      this.estimatedTransitDays := estimatedTransitDays;
      var lastPossiblePackDay := moveDate - 1;
      var past := CreatePastMoveDates(lastPossiblePackDay, estimatedPackDays, false, calendar);
      packDays := past[..];
      pickupDays := CreateFutureMoveDates(moveDate, 1, false, calendar);
      var firstPossibleTransitDay := pickupDays[|pickupDays| - 1] + 1;
      transitDays := CreateFutureMoveDates(firstPossibleTransitDay, estimatedTransitDays, true, calendar);
      var firstPossibleDeliveryDay := transitDays[|transitDays| - 1] + 1;
      deliveryDays := CreateFutureMoveDates(firstPossibleDeliveryDay, 1, false, calendar);
    }
  }

  /** A forward list of one day is the first qualifying day from its start. */
  lemma FirstDay(cal: Calendar, includeAll: bool, start: Day, dates: seq<Day>)
    requires Forward(cal, includeAll, start, 1, dates)
    ensures start <= dates[0] && Qualifies(cal, includeAll, dates[0])
    ensures forall d :: start <= d < dates[0] ==> !Qualifies(cal, includeAll, d)
  {
    RangeMembers(cal, includeAll, start, dates[0] + 1);
    assert dates[0] in dates;
    assert forall d :: d in dates ==> d == dates[0];
  }

  lemma {:induction false} EveryDay(cal: Calendar, lo: Day, hi: Day)
    requires lo <= hi
    ensures |Range(cal, true, lo, hi)| == hi - lo
    ensures forall i :: 0 <= i < hi - lo ==> Range(cal, true, lo, hi)[i] == lo + i
    decreases hi - lo
  {
    if lo < hi {
      EveryDay(cal, lo, hi - 1);
    }
  }

  lemma TransitIsConsecutive(cal: Calendar, start: Day, n: nat, dates: seq<Day>)
    requires Forward(cal, true, start, n, dates)
    ensures forall i :: 0 <= i < n ==> dates[i] == start + i
  {
    if n > 0 {
      RangeMembers(cal, true, start, dates[n - 1] + 1);
      assert dates[n - 1] in dates;
      EveryDay(cal, start, dates[n - 1] + 1);
    }
  }

  ghost predicate Ascending(days: seq<Day>) {
    forall i, j :: 0 <= i < j < |days| ==> days[i] < days[j]
  }

  lemma AscendingJoin(a: seq<Day>, b: seq<Day>)
    requires Ascending(a) && Ascending(b) && a != [] && b != [] && a[|a| - 1] < b[0]
    ensures Ascending(a + b)
  {
    assert forall i :: 0 <= i < |a| ==> a[i] <= a[|a| - 1];
    assert forall j :: 0 <= j < |b| ==> b[0] <= b[j];
  }

  /** Packing takes exactly the workdays before the move date; pickup is the first workday from it;
      transit days are consecutive; delivery is the first workday after them. */
  lemma PlanDays(cal: Calendar, moveDate: Day, packDays: nat, transitDays: nat, p: Plan)
    requires packDays > 0 && transitDays > 0 && IsPlan(cal, moveDate, packDays, transitDays, p)
    ensures |p.packDays| == packDays && p.packDays == Range(cal, false, p.packDays[0], moveDate)
    ensures |p.pickupDays| == 1 && moveDate <= p.pickupDays[0] && cal.isWorkday(p.pickupDays[0])
    ensures Range(cal, false, moveDate, p.pickupDays[0]) == []
    ensures |p.transitDays| == transitDays && forall i :: 0 <= i < transitDays ==>
      p.transitDays[i] == p.pickupDays[0] + 1 + i
    ensures |p.deliveryDays| == 1 && p.pickupDays[0] + transitDays < p.deliveryDays[0] && cal.isWorkday(p.deliveryDays[0])
    ensures Range(cal, false, p.pickupDays[0] + transitDays + 1, p.deliveryDays[0]) == []
  {
    FirstDay(cal, false, moveDate, p.pickupDays);
    EmptyRange(cal, false, moveDate, p.pickupDays[0]);
    TransitIsConsecutive(cal, p.pickupDays[0] + 1, transitDays, p.transitDays);
    FirstDay(cal, false, p.transitDays[transitDays - 1] + 1, p.deliveryDays);
    EmptyRange(cal, false, p.transitDays[transitDays - 1] + 1, p.deliveryDays[0]);
  }

  /** Day w is the first workday from day d on. */
  predicate FirstWorkday(cal: Calendar, d: Day, w: Day) {
    d <= w && cal.isWorkday(w) && forall x :: d <= x < w ==> !cal.isWorkday(x)
  }

  /** The workdays that a plan fixes, told by the calendar alone. */
  lemma PlanWorkdays(cal: Calendar, moveDate: Day, packDays: nat, transitDays: nat, p: Plan)
    requires packDays > 0 && transitDays > 0 && IsPlan(cal, moveDate, packDays, transitDays, p)
    ensures |p.packDays| > 0 && cal.isWorkday(p.packDays[0])
    ensures |Range(cal, false, p.packDays[0], moveDate)| == packDays
    ensures |p.pickupDays| == 1 && FirstWorkday(cal, moveDate, p.pickupDays[0])
    ensures |p.deliveryDays| == 1 && FirstWorkday(cal, p.pickupDays[0] + transitDays + 1, p.deliveryDays[0])
  {
    hide Range, Forward, FirstWorkday;
    PlanDays(cal, moveDate, packDays, transitDays, p);
    BeginsWithWorkday(cal, p.packDays, moveDate);
    OneDayIsFirst(cal, moveDate, p.pickupDays);
    OneDayIsFirst(cal, p.transitDays[transitDays - 1] + 1, p.deliveryDays);
  }

  lemma BeginsWithWorkday(cal: Calendar, days: seq<Day>, hi: Day)
    requires days != [] && days == Range(cal, false, days[0], hi)
    ensures cal.isWorkday(days[0])
  {
    RangeMembers(cal, false, days[0], hi);
    assert days[0] in days;
  }

  lemma OneDayIsFirst(cal: Calendar, start: Day, days: seq<Day>)
    requires Forward(cal, false, start, 1, days)
    ensures |days| == 1 && FirstWorkday(cal, start, days[0])
  {
    hide Range;
    FirstDay(cal, false, start, days);
    forall x | start <= x < days[0] ensures !cal.isWorkday(x) {
      assert !Qualifies(cal, false, x);
    }
  }

  /** The days of a plan follow one another strictly. */
  lemma PlanInOrder(cal: Calendar, moveDate: Day, packDays: nat, transitDays: nat, p: Plan)
    requires packDays > 0 && transitDays > 0 && IsPlan(cal, moveDate, packDays, transitDays, p)
    ensures Ascending(p.packDays + p.pickupDays + p.transitDays + p.deliveryDays)
  {
    PlanDays(cal, moveDate, packDays, transitDays, p);
    RangeMembers(cal, false, p.packDays[0], moveDate);
    assert p.packDays[packDays - 1] in p.packDays;
    AscendingJoin(p.packDays, p.pickupDays);
    AscendingJoin(p.packDays + p.pickupDays, p.transitDays);
    AscendingJoin(p.packDays + p.pickupDays + p.transitDays, p.deliveryDays);
  }

  /** A later move date or a longer transit never brings delivery forward. */
  lemma DeliveryIsMonotone(cal: Calendar, m: Day, pack: nat, t: nat, p: Plan, m': Day, pack': nat, t': nat, p': Plan)
    requires 0 < t <= t' && m <= m' && IsPlan(cal, m, pack, t, p) && IsPlan(cal, m', pack', t', p')
    ensures p.deliveryDays[0] <= p'.deliveryDays[0]
  {
    FirstDay(cal, false, m, p.pickupDays);
    FirstDay(cal, false, m', p'.pickupDays);
    TransitIsConsecutive(cal, p.pickupDays[0] + 1, t, p.transitDays);
    TransitIsConsecutive(cal, p'.pickupDays[0] + 1, t', p'.transitDays);
    FirstDay(cal, false, p.transitDays[t - 1] + 1, p.deliveryDays);
    FirstDay(cal, false, p'.transitDays[t' - 1] + 1, p'.deliveryDays);
  }

  /** The plan is a function of the move date and the two durations. */
  lemma PlanIsUnique(cal: Calendar, moveDate: Day, pack: nat, transit: nat, p: Plan, q: Plan)
    requires transit > 0 && IsPlan(cal, moveDate, pack, transit, p) && IsPlan(cal, moveDate, pack, transit, q)
    ensures p == q
  {
    BackwardIsUnique(cal, false, moveDate - 1, pack, p.packDays, q.packDays);
    ForwardIsUnique(cal, false, moveDate, 1, p.pickupDays, q.pickupDays);
    ForwardIsUnique(cal, true, p.pickupDays[0] + 1, transit, p.transitDays, q.transitDays);
    ForwardIsUnique(cal, false, p.transitDays[transit - 1] + 1, 1, p.deliveryDays, q.deliveryDays);
  }
}
