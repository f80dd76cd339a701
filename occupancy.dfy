/** `calculateOccupancyRate` of the listing page: the share of the days of the
    reference month booked by the reservations that start in that month, as
    a rounded percentage. Dates are read in UTC; the reference month is
    passed in instead of being read from the clock. */
module Occupancy {
  import opened Calendar

  /** A stored reservation, its `start_date` and `end_date` read as dates. */
  datatype StoredReservation = StoredReservation(startDate: Date, endDate: Date)

  /** Which days the walk records. The page records every day whose month is
      the reference month, in whatever year (`MonthOnly`); `MonthAndYear`
      also asks for the reference year. */
  datatype DayFilter = MonthOnly | MonthAndYear

  /** Whether the walk records day `d` for the reference month (y, m). */
  predicate Recorded(filter: DayFilter, d: Date, y: int, m: int) {
    d.month == m && (filter.MonthAndYear? ==> d.year == y)
  }

  /** The most days a month can hold under the filter: `MonthOnly` lets the
      29 February of another year into a 28-day February. */
  function MonthCap(filter: DayFilter, y: int, m: int): (n: int)
    requires 1 <= m <= 12
    ensures DaysInMonth(y, m) <= n <= 31
  {
    if filter.MonthOnly? && m == 2 then 29 else DaysInMonth(y, m)
  }

  /** The reservation-level filter: the start date lies in the reference month
      of the reference year. */
  predicate StartsIn(r: StoredReservation, y: int, m: int) {
    r.startDate.year == y && r.startDate.month == m
  }

  /** `reservations.filter(...)`: the reservations starting in the reference
      month, in their original order. */
  function MonthReservations(rs: seq<StoredReservation>, y: int, m: int): (r: seq<StoredReservation>)
    ensures |r| <= |rs|
    ensures forall x :: x in r <==> x in rs && StartsIn(x, y, m)
    decreases |rs|
  {
    if rs == [] then []
    else
      var init := MonthReservations(rs[..|rs| - 1], y, m);
      var last := rs[|rs| - 1];
      assert rs == rs[..|rs| - 1] + [last];
      if StartsIn(last, y, m) then init + [last] else init
  }

  /** The day numbers the walk from `d` to `end` (inclusive) records. */
  function DaysFrom(d: Date, end: Date, y: int, m: int, filter: DayFilter): (r: set<int>)
    requires 1 <= m <= 12
    ensures forall x :: x in r ==> 1 <= x <= MonthCap(filter, y, m)
    decreases DayNumber(end) - DayNumber(d)
  {
    if DayNumber(d) > DayNumber(end) then {}
    else (if Recorded(filter, d, y, m) then {d.day} else {}) + DaysFrom(NextDay(d), end, y, m, filter)
  }

  /** The set of booked day numbers after walking every reservation of `ms`. */
  function BookedDays(ms: seq<StoredReservation>, y: int, m: int, filter: DayFilter): (r: set<int>)
    requires 1 <= m <= 12
    ensures forall x :: x in r ==> 1 <= x <= MonthCap(filter, y, m)
    decreases |ms|
  {
    if ms == [] then {}
    else
      var last := ms[|ms| - 1];
      BookedDays(ms[..|ms| - 1], y, m, filter) + DaysFrom(last.startDate, last.endDate, y, m, filter)
  }

  /** `Math.round(booked / days * 100)`, computed exactly: the integer nearest
      to 100 * booked / days, halves rounded up. */
  function RoundedPercent(booked: nat, days: int): (r: int)
    requires days > 0
    ensures 2 * days * r <= 200 * booked + days < 2 * days * (r + 1)
    ensures 0 <= r
    ensures booked <= days ==> r <= 100
  {
    RoundingBracket(booked, days);
    (200 * booked + days) / (2 * days)
  }

  lemma RoundingBracket(booked: nat, days: int)
    requires days > 0
    ensures var q := (200 * booked + days) / (2 * days);
            2 * days * q <= 200 * booked + days < 2 * days * (q + 1) &&
            0 <= q && (booked <= days ==> q <= 100)
  {
    var n := 200 * booked + days;
    var d := 2 * days;
    var q := n / d;
    QuotientBracket(n, d);
    if q < 0 {
      ScaleMonotone(d, q, -1);
    }
    if booked <= days && q > 100 {
      ScaleMonotone(d, 101, q);
    }
  }

  /** Euclidean division brackets its dividend. */
  lemma QuotientBracket(n: int, d: int)
    requires d > 0
    ensures d * (n / d) <= n < d * (n / d) + d
  {
  }

  lemma ScaleMonotone(d: int, a: int, b: int)
    requires d > 0 && a <= b
    ensures d * a <= d * b
  {
    assert d * b - d * a == d * (b - a);
  }

  /** The specification of the occupancy rate for the reference month (y, m),
      `m` being 1-based (the page's `getMonth() + 1`). */
  function Occupancy(rs: seq<StoredReservation>, y: int, m: int, filter: DayFilter): (r: int)
    requires 1 <= m <= 12
    ensures 0 <= r
    ensures r == 0 <==> BookedDays(MonthReservations(rs, y, m), y, m, filter) == {}
  {
    if rs == [] then 0
    else
      var booked := BookedDays(MonthReservations(rs, y, m), y, m, filter);
      ZeroPercentIffNothingBooked(|booked|, DaysInMonth(y, m));
      RoundedPercent(|booked|, DaysInMonth(y, m))
  }

  /** A month has too few days for a single booked day to round to 0%. */
  lemma ZeroPercentIffNothingBooked(booked: nat, days: int)
    requires 0 < days <= 200
    ensures RoundedPercent(booked, days) == 0 <==> booked == 0
  {
    var r := RoundedPercent(booked, days);
    if booked == 0 && r > 0 {
      ScaleMonotone(2 * days, 1, r);
    }
  }

  /** `calculateOccupancyRate`: 0 without reservations; otherwise the month
      length from day 0 of the next month, the reservations starting in the
      month, a walk over each of them adding day numbers to a set, and the
      rounded share. */
  method OccupancyRate(reservations: seq<StoredReservation>, currentYear: int, currentMonth: int, filter: DayFilter)
    returns (rate: int)
    requires 1 <= currentMonth <= 12
    ensures rate == Occupancy(reservations, currentYear, currentMonth, filter)
  {
    if |reservations| == 0 {
      return 0;
    }
    var (ny, nm) := NextMonth(currentYear, currentMonth);
    // `new Date(y, m + 1, 0)`; the clock's year is never in 0..99, where the
    // two-digit year rule would apply, so the year is taken as given.
    var daysInMonth := NormalizeDay(ny, nm, 0).day;
    DayZeroIsLastDay(currentYear, currentMonth);

    var monthReservations := FilterStartMonth(reservations, currentYear, currentMonth);
    var bookedDays: set<int> := {};
    var j := 0;
    while j < |monthReservations|
      invariant 0 <= j <= |monthReservations|
      invariant bookedDays == BookedDays(monthReservations[..j], currentYear, currentMonth, filter)
    {
      bookedDays := WalkStay(bookedDays, monthReservations[j], currentYear, currentMonth, filter);
      assert monthReservations[..j + 1][..j] == monthReservations[..j];
      j := j + 1;
    }
    assert monthReservations[..j] == monthReservations;
    rate := RoundedPercent(|bookedDays|, daysInMonth);
  }

  /** `reservations.filter(...)` on the start month. */
  method FilterStartMonth(reservations: seq<StoredReservation>, currentYear: int, currentMonth: int)
    returns (monthReservations: seq<StoredReservation>)
    ensures monthReservations == MonthReservations(reservations, currentYear, currentMonth)
  {
    monthReservations := [];
    var i := 0;
    while i < |reservations|
      invariant 0 <= i <= |reservations|
      invariant monthReservations == MonthReservations(reservations[..i], currentYear, currentMonth)
    {
      assert reservations[..i + 1][..i] == reservations[..i];
      if StartsIn(reservations[i], currentYear, currentMonth) {
        monthReservations := monthReservations + [reservations[i]];
      }
      i := i + 1;
    }
    assert reservations[..i] == reservations;
  }

  /** The `forEach` callback: walks one stay a day at a time from its start
      to its end inclusive, adding the day number of every recorded day. */
  method WalkStay(bookedDays: set<int>, reservation: StoredReservation, currentYear: int, currentMonth: int, filter: DayFilter)
    returns (booked: set<int>)
    requires 1 <= currentMonth <= 12
    ensures booked == bookedDays + DaysFrom(reservation.startDate, reservation.endDate, currentYear, currentMonth, filter)
  {
    booked := bookedDays;
    var date := reservation.startDate;
    var end := reservation.endDate;
    while DayNumber(date) <= DayNumber(end)
      invariant booked + DaysFrom(date, end, currentYear, currentMonth, filter)
                == bookedDays + DaysFrom(reservation.startDate, end, currentYear, currentMonth, filter)
      decreases DayNumber(end) - DayNumber(date)
    {
      if Recorded(filter, date, currentYear, currentMonth) {
        booked := booked + {date.day};
      }
      date := NextDay(date);
    }
  }

  // ---- What the walk records ----------------------------------------------

  /** The walk from `d` to `end` records exactly the day numbers of the dates
      between them that the filter accepts. */
  lemma {:induction false} DaysFromMembers(d: Date, end: Date, y: int, m: int, filter: DayFilter, x: int)
    requires 1 <= m <= 12
    ensures x in DaysFrom(d, end, y, m, filter) <==>
            exists e: Date :: DayNumber(d) <= DayNumber(e) <= DayNumber(end) && Recorded(filter, e, y, m) && e.day == x
    decreases DayNumber(end) - DayNumber(d)
  {
    if DayNumber(d) <= DayNumber(end) {
      var n := NextDay(d);
      DaysFromMembers(n, end, y, m, filter, x);
      if x in DaysFrom(d, end, y, m, filter) {
        if !(Recorded(filter, d, y, m) && d.day == x) {
          assert x in DaysFrom(n, end, y, m, filter);
        }
      }
      if exists e: Date :: DayNumber(d) <= DayNumber(e) <= DayNumber(end) && Recorded(filter, e, y, m) && e.day == x {
        var e: Date :| DayNumber(d) <= DayNumber(e) <= DayNumber(end) && Recorded(filter, e, y, m) && e.day == x;
        if DayNumber(e) == DayNumber(d) {
          DayNumberInjective(e, d);
        } else {
          assert DayNumber(n) <= DayNumber(e);
        }
      }
    }
  }

  /** A walk inside one month records the days from its first to its last. */
  lemma WalkWithinMonth(a: Date, b: Date, filter: DayFilter)
    requires a.year == b.year && a.month == b.month && a.day <= b.day
    ensures DaysFrom(a, b, a.year, a.month, filter) == Interval(a.day, b.day)
  {
    var y, m := a.year, a.month;
    forall x | x in DaysFrom(a, b, y, m, filter)
      ensures a.day <= x <= b.day
    {
      DaysFromMembers(a, b, y, m, filter, x);
      var e: Date :| DayNumber(a) <= DayNumber(e) <= DayNumber(b) && Recorded(filter, e, y, m) && e.day == x;
      DayNumberOrder(e, a);
      DayNumberOrder(b, e);
    }
    forall x | a.day <= x <= b.day
      ensures x in DaysFrom(a, b, y, m, filter)
    {
      var e: Date := CalendarDate(y, m, x);
      DayNumberOrder(a, e);
      DayNumberOrder(e, b);
      DaysFromMembers(a, b, y, m, filter, x);
    }
  }

  /** A booked day number comes from the walk of one of the reservations. */
  lemma {:induction false} BookedDaysMembers(ms: seq<StoredReservation>, y: int, m: int, filter: DayFilter, x: int)
    requires 1 <= m <= 12
    ensures x in BookedDays(ms, y, m, filter) <==>
            exists r :: r in ms && x in DaysFrom(r.startDate, r.endDate, y, m, filter)
    decreases |ms|
  {
    if ms != [] {
      var init, last := ms[..|ms| - 1], ms[|ms| - 1];
      assert ms == init + [last];
      BookedDaysMembers(init, y, m, filter, x);
      if x in BookedDays(init, y, m, filter) {
        var r :| r in init && x in DaysFrom(r.startDate, r.endDate, y, m, filter);
        assert r in ms;
      }
    }
  }

  // ---- Counting ----------------------------------------------------------

  /** A set of integers inside [lo, hi] has at most hi - lo + 1 elements. */
  lemma {:induction false} CardinalityAtMost(s: set<int>, lo: int, hi: int)
    requires lo <= hi + 1
    requires forall x :: x in s ==> lo <= x <= hi
    ensures |s| <= hi - lo + 1
    decreases hi - lo + 1
  {
    if lo <= hi {
      CardinalityAtMost(s - {hi}, lo, hi - 1);
    } else {
      assert forall x :: x !in s;
      assert s == {};
    }
  }

  /** The integers from `lo` to `hi`. */
  function Interval(lo: int, hi: int): (r: set<int>)
    ensures forall x :: x in r <==> lo <= x <= hi
    ensures lo <= hi + 1 ==> |r| == hi - lo + 1
    decreases hi - lo
  {
    if lo > hi then {} else Interval(lo, hi - 1) + {hi}
  }

  // ---- Properties --------------------------------------------------------

  /** With the reference year checked, the rate lies in [0, 100]. */
  lemma OccupancyAtMostHundred(rs: seq<StoredReservation>, y: int, m: int)
    requires 1 <= m <= 12
    ensures 0 <= Occupancy(rs, y, m, MonthAndYear) <= 100
  {
    if rs != [] {
      CardinalityAtMost(BookedDays(MonthReservations(rs, y, m), y, m, MonthAndYear), 1, DaysInMonth(y, m));
    }
  }

  /** As the page does it (month only), the rate can exceed 100 but never 104,
      and only in a 28-day February. */
  lemma OccupancyAtMost104(rs: seq<StoredReservation>, y: int, m: int)
    requires 1 <= m <= 12
    ensures 0 <= Occupancy(rs, y, m, MonthOnly) <= 104
    ensures Occupancy(rs, y, m, MonthOnly) > 100 ==> m == 2 && DaysInMonth(y, m) == 28
  {
    if rs != [] {
      var b := BookedDays(MonthReservations(rs, y, m), y, m, MonthOnly);
      CardinalityAtMost(b, 1, MonthCap(MonthOnly, y, m));
      if m == 2 && DaysInMonth(y, m) == 28 {
        assert RoundedPercent(|b|, 28) <= RoundedPercent(29, 28);
      }
    }
  }

  lemma {:induction false} NoStartsNoMonthReservations(rs: seq<StoredReservation>, y: int, m: int)
    requires forall r :: r in rs ==> !StartsIn(r, y, m)
    ensures MonthReservations(rs, y, m) == []
    decreases |rs|
  {
    if rs != [] {
      var init := rs[..|rs| - 1];
      assert forall r :: r in init ==> r in rs;
      NoStartsNoMonthReservations(init, y, m);
      assert rs[|rs| - 1] in rs;
    }
  }

  /** No reservations, or none starting in the reference month, give 0: a
      reservation that starts in an earlier month counts for nothing, however
      much of the reference month it covers. */
  lemma NothingStartsInMonth(rs: seq<StoredReservation>, y: int, m: int, filter: DayFilter)
    requires 1 <= m <= 12
    requires forall r :: r in rs ==> !StartsIn(r, y, m)
    ensures Occupancy(rs, y, m, filter) == 0
  {
    NoStartsNoMonthReservations(rs, y, m);
  }

  /** The rate depends only on which reservations there are: order and
      repetitions do not matter, since every day is counted once. */
  lemma OccupancyIgnoresOrderAndRepeats(rs1: seq<StoredReservation>, rs2: seq<StoredReservation>, y: int, m: int, filter: DayFilter)
    requires 1 <= m <= 12
    requires forall r :: r in rs1 <==> r in rs2
    ensures Occupancy(rs1, y, m, filter) == Occupancy(rs2, y, m, filter)
  {
    if rs1 != [] {
      assert rs1[0] in rs2;
    }
    if rs2 != [] {
      assert rs2[0] in rs1;
    }
    var ms1, ms2 := MonthReservations(rs1, y, m), MonthReservations(rs2, y, m);
    forall x
      ensures x in BookedDays(ms1, y, m, filter) <==> x in BookedDays(ms2, y, m, filter)
    {
      BookedDaysMembers(ms1, y, m, filter, x);
      BookedDaysMembers(ms2, y, m, filter, x);
    }
    assert BookedDays(ms1, y, m, filter) == BookedDays(ms2, y, m, filter);
  }

  /** One stay inside the reference month books its days from first to last. */
  lemma StayWithinMonth(a: Date, b: Date, filter: DayFilter)
    requires a.year == b.year && a.month == b.month && a.day <= b.day
    ensures Occupancy([StoredReservation(a, b)], a.year, a.month, filter)
            == RoundedPercent(b.day - a.day + 1, DaysInMonth(a.year, a.month))
  {
    var r := StoredReservation(a, b);
    LoneReservation(r, a.year, a.month, filter);
    WalkWithinMonth(a, b, filter);
  }

  /** A lone reservation starting in the month books the days its walk records. */
  lemma LoneReservation(r: StoredReservation, y: int, m: int, filter: DayFilter)
    requires 1 <= m <= 12 && StartsIn(r, y, m)
    ensures Occupancy([r], y, m, filter)
            == RoundedPercent(|DaysFrom(r.startDate, r.endDate, y, m, filter)|, DaysInMonth(y, m))
  {
    assert [r][..0] == [];
    assert MonthReservations([r], y, m) == [r];
    assert BookedDays([r], y, m, filter) == DaysFrom(r.startDate, r.endDate, y, m, filter);
  }

  /** In a 30-day month, one reservation from the 10th to the 15th (or any
      other six consecutive days of the month) books six days:
      round(100 * 6 / 30) = 20. */
  lemma SixDaysOfThirty(a: Date, b: Date, filter: DayFilter)
    requires a.year == b.year && a.month == b.month && DaysInMonth(a.year, a.month) == 30
    requires b.day == a.day + 5
    ensures Occupancy([StoredReservation(a, b)], a.year, a.month, filter) == 20
  {
    StayWithinMonth(a, b, filter);
    SixOfThirtyIsTwenty();
  }

  lemma SixOfThirtyIsTwenty()
    ensures RoundedPercent(6, 30) == 20
  {
  }

  /** A day of February reached from 1 February of a common year by a walk
      that goes on to 29 February of a later leap year. */
  lemma LeapDayWalkReaches(a: Date, b: Date, filter: DayFilter, x: int)
    requires a.month == 2 && a.day == 1 && !IsLeapYear(a.year)
    requires b.month == 2 && b.day == 29 && b.year > a.year
    requires 1 <= x <= (if filter.MonthOnly? then 29 else 28)
    ensures x in DaysFrom(a, b, a.year, 2, filter)
  {
    if x <= 28 {
      var e: Date := CalendarDate(a.year, 2, x);
      DayNumberOrder(a, e);
      DayNumberOrder(e, b);
      WalkPasses(a, b, e, filter);
    } else {
      DayNumberOrder(a, b);
      WalkPasses(a, b, b, filter);
    }
  }

  /** A walk records the day of every recorded date it passes. */
  lemma WalkPasses(a: Date, b: Date, e: Date, filter: DayFilter)
    requires 1 <= a.month <= 12
    requires DayNumber(a) <= DayNumber(e) <= DayNumber(b) && Recorded(filter, e, a.year, a.month)
    ensures e.day in DaysFrom(a, b, a.year, a.month, filter)
  {
    DaysFromMembers(a, b, a.year, a.month, filter, e.day);
  }

  lemma LeapDayWalk(a: Date, b: Date, filter: DayFilter)
    requires a.month == 2 && a.day == 1 && !IsLeapYear(a.year)
    requires b.month == 2 && b.day == 29 && b.year > a.year
    ensures |DaysFrom(a, b, a.year, 2, filter)| == if filter.MonthOnly? then 29 else 28
  {
    var cap := if filter.MonthOnly? then 29 else 28;
    forall x | 1 <= x <= (if filter.MonthOnly? then 29 else 28)
      ensures x in DaysFrom(a, b, a.year, 2, filter)
    {
      LeapDayWalkReaches(a, b, filter, x);
    }
    assert DaysFrom(a, b, a.year, 2, filter) == Interval(1, cap);
  }

  /** The month-only walk of a stay from 1 February of a common year to
      29 February of a later leap year records the days 1 to 29 of a 28-day
      February: the page reports 104%. Checking the year as well records the
      days 1 to 28: 100%. */
  lemma LeapDayOverflow(a: Date, b: Date)
    requires a.month == 2 && a.day == 1 && !IsLeapYear(a.year)
    requires b.month == 2 && b.day == 29 && b.year > a.year
    ensures Occupancy([StoredReservation(a, b)], a.year, 2, MonthOnly) == 104
    ensures Occupancy([StoredReservation(a, b)], a.year, 2, MonthAndYear) == 100
  {
    var r := StoredReservation(a, b);
    assert [r][..0] == [];
    assert MonthReservations([r], a.year, 2) == [r];
    LeapDayWalk(a, b, MonthOnly);
    LeapDayWalk(a, b, MonthAndYear);
    assert BookedDays([r], a.year, 2, MonthOnly) == DaysFrom(a, b, a.year, 2, MonthOnly);
    assert BookedDays([r], a.year, 2, MonthAndYear) == DaysFrom(a, b, a.year, 2, MonthAndYear);
    assert RoundedPercent(29, 28) == 104;
    assert RoundedPercent(28, 28) == 100;
  }

  /** The stay from 1 February 2023 to 29 February 2024. */
  lemma LeapDayOverflowExample(a: Date, b: Date)
    requires a == CalendarDate(2023, 2, 1) && b == CalendarDate(2024, 2, 29)
    ensures Occupancy([StoredReservation(a, b)], 2023, 2, MonthOnly) == 104
  {
    LeapDayOverflow(a, b);
  }
}
