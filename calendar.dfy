/** The proleptic Gregorian calendar in UTC, and the parts of ECMAScript's
    `Date` arithmetic the model needs: MakeDay, MakeTime, MakeDate and TimeClip
    (section 21.4.1 of ECMA-262), `new Date(y, m, d, h, mi, s)` and the
    breakdown of a time value into calendar fields. */
module Calendar {
  import opened Common

  predicate IsLeapYear(y: int) {
    y % 4 == 0 && (y % 100 != 0 || y % 400 == 0)
  }

  function DaysInYear(y: int): int {
    if IsLeapYear(y) then 366 else 365
  }

  function DaysInMonth(y: int, m: int): (n: int)
    requires 1 <= m <= 12
    ensures 28 <= n <= 31
  {
    if m == 2 then (if IsLeapYear(y) then 29 else 28)
    else if m == 4 || m == 6 || m == 9 || m == 11 then 30
    else 31
  }

  /** A day of the calendar; `month` is 1-based. */
  datatype CalendarDate = CalendarDate(year: int, month: int, day: int)

  predicate ValidDate(d: CalendarDate) {
    1 <= d.month <= 12 && 1 <= d.day <= DaysInMonth(d.year, d.month)
  }

  type Date = d: CalendarDate | ValidDate(d) witness CalendarDate(1970, 1, 1)

  /** Leap years in [0, y) for y >= 0, and minus the leap years in [y, 0) for y < 0. */
  function LeapYearsBefore(y: int): int {
    (y + 3) / 4 - (y + 99) / 100 + (y + 399) / 400
  }

  /** Days from 1 January of year 0 to 1 January of year `y`. */
  function DaysBeforeYear(y: int): int {
    365 * y + LeapYearsBefore(y)
  }

  /** Days from 1 January of year `y` to the first day of month `m`
      (`m == 13` stands for the first day of the next year). */
  function DaysBeforeMonth(y: int, m: int): int
    requires 1 <= m <= 13
  {
    [0, 31, 59, 90, 120, 151, 181, 212, 243, 273, 304, 334, 365][m - 1]
    + (if m > 2 && IsLeapYear(y) then 1 else 0)
  }

  /** Number of the first day of month `m` of year `y`, counted from 1 January of year 0. */
  function MonthStart(y: int, m: int): int
    requires 1 <= m <= 12
  {
    DaysBeforeYear(y) + DaysBeforeMonth(y, m)
  }

  /** Number of a day counted from 1 January of year 0. */
  function DayNumber(d: CalendarDate): int
    requires 1 <= d.month <= 12
  {
    MonthStart(d.year, d.month) + d.day - 1
  }

  /** The day number of 1 January 1970, where ECMAScript time values start. */
  const UnixEpochDay: int := 719528

  lemma UnixEpochDayIsJanuaryFirst1970()
    ensures DayNumber(CalendarDate(1970, 1, 1)) == UnixEpochDay
  {
  }

  /** A year is as long as its leap-year status says. */
  lemma DaysBeforeNextYear(y: int)
    ensures DaysBeforeYear(y + 1) == DaysBeforeYear(y) + DaysInYear(y)
  {
    LeapYearsBeforeStep(y);
  }

  /** Moving one year on adds one leap year exactly when the year is a leap year. */
  lemma LeapYearsBeforeStep(y: int)
    ensures LeapYearsBefore(y + 1) == LeapYearsBefore(y) + (if IsLeapYear(y) then 1 else 0)
  {
    QuotientStep4(y);
    QuotientStep100(y);
    QuotientStep400(y);
    if y % 400 == 0 {
      DivisibleBy400(y);
    } else if y % 100 == 0 {
      DivisibleBy100(y);
    }
  }

  lemma QuotientStep4(y: int)
    ensures (y + 4) / 4 == (y + 3) / 4 + (if y % 4 == 0 then 1 else 0)
  {
  }

  lemma QuotientStep100(y: int)
    ensures (y + 100) / 100 == (y + 99) / 100 + (if y % 100 == 0 then 1 else 0)
  {
  }

  lemma QuotientStep400(y: int)
    ensures (y + 400) / 400 == (y + 399) / 400 + (if y % 400 == 0 then 1 else 0)
  {
  }

  lemma DivisibleBy400(y: int)
    requires y % 400 == 0
    ensures y % 100 == 0 && y % 4 == 0
  {
    var k := y / 400;
    assert y == 400 * k;
    assert y / 100 == 4 * k;
    assert y / 4 == 100 * k;
  }

  lemma DivisibleBy100(y: int)
    requires y % 100 == 0
    ensures y % 4 == 0
  {
    var k := y / 100;
    assert y / 4 == 25 * k;
  }

  /** The cumulative month table agrees with the month lengths. */
  lemma DaysBeforeMonthStep(y: int, m: int)
    requires 1 <= m <= 12
    ensures DaysBeforeMonth(y, m + 1) == DaysBeforeMonth(y, m) + DaysInMonth(y, m)
    ensures DaysBeforeMonth(y, 13) == DaysInYear(y)
  {
  }

  /** The month after (y, m). */
  function NextMonth(y: int, m: int): (r: (int, int))
    requires 1 <= m <= 12
    ensures 1 <= r.1 <= 12
  {
    if m == 12 then (y + 1, 1) else (y, m + 1)
  }

  /** Month (y, m) has as many days as lie between its first day and the next month's. */
  lemma MonthStartStep(y: int, m: int)
    requires 1 <= m <= 12
    ensures MonthStart(NextMonth(y, m).0, NextMonth(y, m).1) == MonthStart(y, m) + DaysInMonth(y, m)
  {
    DaysBeforeMonthStep(y, m);
    if m == 12 {
      DaysBeforeNextYear(y);
    }
  }

  /** Later years start later. */
  lemma {:induction false} DaysBeforeYearMonotone(a: int, b: int)
    requires a <= b
    ensures DaysBeforeYear(a) <= DaysBeforeYear(b)
    ensures a < b ==> DaysBeforeYear(a) + 365 <= DaysBeforeYear(b)
    decreases b - a
  {
    if a < b {
      DaysBeforeNextYear(a);
      DaysBeforeYearMonotone(a + 1, b);
    }
  }

  /** A valid date lies inside its month and inside its year. */
  lemma DayNumberBounds(d: Date)
    ensures MonthStart(d.year, d.month) <= DayNumber(d) < MonthStart(d.year, d.month) + DaysInMonth(d.year, d.month)
    ensures DaysBeforeYear(d.year) <= DayNumber(d) < DaysBeforeYear(d.year + 1)
  {
    DaysBeforeMonthStep(d.year, d.month);
    DaysBeforeNextYear(d.year);
  }

  /** Calendar order: earlier year, or same year and earlier month, or same month and earlier day. */
  predicate Before(a: CalendarDate, b: CalendarDate) {
    a.year < b.year || (a.year == b.year && (a.month < b.month || (a.month == b.month && a.day < b.day)))
  }

  /** Day numbers follow calendar order, so comparing the midnight time values of
      two dates compares the dates. */
  lemma DayNumberOrder(a: Date, b: Date)
    ensures Before(a, b) ==> DayNumber(a) < DayNumber(b)
    ensures DayNumber(a) == DayNumber(b) ==> a == b
  {
    if a.year < b.year {
      LaterYearLater(a, b);
    } else if a.year > b.year {
      LaterYearLater(b, a);
    } else if a.month < b.month {
      LaterMonthLater(a, b);
    } else if a.month > b.month {
      LaterMonthLater(b, a);
    }
  }

  lemma LaterYearLater(a: Date, b: Date)
    requires a.year < b.year
    ensures DayNumber(a) < DayNumber(b)
  {
    DayNumberBounds(a);
    DayNumberBounds(b);
    DaysBeforeYearMonotone(a.year + 1, b.year);
  }

  lemma LaterMonthLater(a: Date, b: Date)
    requires a.year == b.year && a.month < b.month
    ensures DayNumber(a) < DayNumber(b)
  {
    LaterMonthStartsLater(a.year, a.month, b.month);
  }

  /** A later month of the same year starts after an earlier month has ended. */
  lemma LaterMonthStartsLater(y: int, m1: int, m2: int)
    requires 1 <= m1 < m2 <= 12
    ensures MonthStart(y, m1) + DaysInMonth(y, m1) <= MonthStart(y, m2)
  {
    DaysBeforeMonthStep(y, m1);
  }

  /** Day numbers are one-to-one on valid dates. */
  lemma DayNumberInjective(a: Date, b: Date)
    requires DayNumber(a) == DayNumber(b)
    ensures a == b
  {
    DayNumberOrder(a, b);
  }

  /** The following day (what `date.setDate(date.getDate() + 1)` moves to). */
  function NextDay(d: Date): (r: Date)
    ensures DayNumber(r) == DayNumber(d) + 1
  {
    if d.day < DaysInMonth(d.year, d.month) then CalendarDate(d.year, d.month, d.day + 1)
    else
      MonthStartStep(d.year, d.month);
      var (y, m) := NextMonth(d.year, d.month);
      CalendarDate(y, m, 1)
  }

  /** The month before (y, m). */
  function PrevMonth(y: int, m: int): (r: (int, int))
    requires 1 <= m <= 12
    ensures 1 <= r.1 <= 12 && NextMonth(r.0, r.1) == (y, m)
  {
    if m == 1 then (y - 1, 12) else (y, m - 1)
  }

  /** The valid date `d - 1` days after the first of month (y, m), for any
      integer `d`: the arithmetic of ECMAScript's MakeDay, which lets days
      overflow into later months and underflow into earlier ones. */
  function NormalizeDay(y: int, m: int, d: int): (r: Date)
    requires 1 <= m <= 12
    ensures DayNumber(r) == MonthStart(y, m) + d - 1
    decreases if d < 1 then 32 - d else d
  {
    if d < 1 then
      var (py, pm) := PrevMonth(y, m);
      MonthStartStep(py, pm);
      NormalizeDay(py, pm, d + DaysInMonth(py, pm))
    else if d <= DaysInMonth(y, m) then
      CalendarDate(y, m, d)
    else
      MonthStartStep(y, m);
      var (ny, nm) := NextMonth(y, m);
      NormalizeDay(ny, nm, d - DaysInMonth(y, m))
  }

  /** Day 0 of the month after (y, m) is the last day of (y, m): `new Date(y, m, 0)`
      with a 0-based month `m` gives the length of 1-based month `m`. */
  lemma DayZeroIsLastDay(y: int, m: int)
    requires 1 <= m <= 12
    ensures NormalizeDay(NextMonth(y, m).0, NextMonth(y, m).1, 0) == CalendarDate(y, m, DaysInMonth(y, m))
  {
    MonthStartStep(y, m);
    var last: Date := CalendarDate(y, m, DaysInMonth(y, m));
    DayNumberInjective(NormalizeDay(NextMonth(y, m).0, NextMonth(y, m).1, 0), last);
  }

  // ---- Time values -------------------------------------------------------

  const MsPerDay: int := 86400000
  /** The largest magnitude of a time value (TimeClip). */
  const MaxTimeValue: int := 8640000000000000

  /** A date-time in UTC, as `Date.prototype.toISOString` breaks it down. */
  datatype DateTime = DateTime(year: int, month: int, day: int,
                               hour: int, minute: int, second: int, millisecond: int)

  function DateOf(t: DateTime): CalendarDate {
    CalendarDate(t.year, t.month, t.day)
  }

  predicate ValidFields(t: DateTime) {
    ValidDate(DateOf(t)) && 0 <= t.hour < 24 && 0 <= t.minute < 60 &&
    0 <= t.second < 60 && 0 <= t.millisecond < 1000
  }

  /** Milliseconds since 1970-01-01T00:00:00Z. */
  function TimeValue(t: DateTime): int
    requires 1 <= t.month <= 12
  {
    (DayNumber(DateOf(t)) - UnixEpochDay) * MsPerDay +
    t.hour * 3600000 + t.minute * 60000 + t.second * 1000 + t.millisecond
  }

  /** What a JavaScript `Date` can hold: valid fields whose time value TimeClip keeps. */
  predicate ValidInstant(t: DateTime) {
    ValidFields(t) && -MaxTimeValue <= TimeValue(t) <= MaxTimeValue
  }

  type Instant = t: DateTime | ValidInstant(t) witness DateTime(1970, 1, 1, 0, 0, 0, 0)

  /** The UTC breakdown of a time value (YearFromTime, MonthFromTime, ...). */
  function FromTimeValue(tv: int): (r: Instant)
    requires -MaxTimeValue <= tv <= MaxTimeValue
    ensures TimeValue(r) == tv
  {
    BreakdownIsInstant(tv);
    Breakdown(tv)
  }

  /** The fields of a time value: the day it falls on, counted from 1 January
      1970, and the hours, minutes, seconds and milliseconds into that day. */
  function Breakdown(tv: int): DateTime {
    var day := tv / MsPerDay;
    var tod := tv % MsPerDay;
    var date := NormalizeDay(1970, 1, 1 + day);
    var secs := tod / 1000;
    var mins := secs / 60;
    DateTime(date.year, date.month, date.day, mins / 60, mins % 60, secs % 60, tod % 1000)
  }

  lemma BreakdownIsInstant(tv: int)
    requires -MaxTimeValue <= tv <= MaxTimeValue
    ensures ValidInstant(Breakdown(tv)) && TimeValue(Breakdown(tv)) == tv
  {
    var day := tv / MsPerDay;
    var tod := tv % MsPerDay;
    var t := Breakdown(tv);
    UnixEpochDayIsJanuaryFirst1970();
    assert DayNumber(DateOf(t)) - UnixEpochDay == day;
    DayAndTimeOfDay(tv);
    TimeOfDayParts(tod);
    assert TimeValue(t) == day * MsPerDay + tod;
  }

  /** A time value is a whole number of days plus a time of day. */
  lemma DayAndTimeOfDay(tv: int)
    ensures tv == (tv / MsPerDay) * MsPerDay + tv % MsPerDay
    ensures 0 <= tv % MsPerDay < MsPerDay
  {
  }

  /** A time of day splits into hours, minutes, seconds and milliseconds. */
  lemma TimeOfDayParts(tod: int)
    requires 0 <= tod < MsPerDay
    ensures var secs := tod / 1000; var mins := secs / 60;
            0 <= mins / 60 < 24 && 0 <= mins % 60 < 60 && 0 <= secs % 60 < 60 && 0 <= tod % 1000 < 1000 &&
            tod == (mins / 60) * 3600000 + (mins % 60) * 60000 + (secs % 60) * 1000 + tod % 1000
  {
    var secs := tod / 1000;
    var mins := secs / 60;
    assert tod == secs * 1000 + tod % 1000;
    assert secs == mins * 60 + secs % 60;
    assert mins == (mins / 60) * 60 + mins % 60;
    assert secs < 86400;
    assert mins < 1440;
  }

  /** Two instants with the same time value are the same instant. */
  lemma TimeValueInjective(a: Instant, b: Instant)
    requires TimeValue(a) == TimeValue(b)
    ensures a == b
  {
    var ta := a.hour * 3600000 + a.minute * 60000 + a.second * 1000 + a.millisecond;
    var tb := b.hour * 3600000 + b.minute * 60000 + b.second * 1000 + b.millisecond;
    var da, db := DayNumber(DateOf(a)) - UnixEpochDay, DayNumber(DateOf(b)) - UnixEpochDay;
    assert 0 <= ta < MsPerDay && 0 <= tb < MsPerDay;
    assert da * MsPerDay + ta == db * MsPerDay + tb;
    assert da == db;
    DayNumberInjective(DateOf(a), DateOf(b));
  }

  /** Breaking a time value down and reading it back are inverse. */
  lemma FromTimeValueOfInstant(t: Instant)
    ensures FromTimeValue(TimeValue(t)) == t
  {
    TimeValueInjective(FromTimeValue(TimeValue(t)), t);
  }

  /** ECMAScript's two-digit year rule in the `Date` constructor: years 0 to 99
      mean 1900 to 1999. */
  function JsYear(y: int): int {
    if 0 <= y <= 99 then 1900 + y else y
  }

  /** MakeDate(MakeDay(year, monthIndex, date), MakeTime(h, mi, s, 0)), with
      the year first passed through the two-digit rule. */
  function MakeTimeValue(year: int, monthIndex: int, date: int, h: int, mi: int, s: int): int {
    var ym := JsYear(year) + monthIndex / 12;
    var mn := monthIndex % 12 + 1;
    (MonthStart(ym, mn) + date - 1 - UnixEpochDay) * MsPerDay + h * 3600000 + mi * 60000 + s * 1000
  }

  /** `new Date(year, monthIndex, date, h, mi, s)` read in UTC: `None` when
      TimeClip turns the value into NaN (an Invalid Date). */
  function ConstructDate(year: int, monthIndex: int, date: int, h: int, mi: int, s: int): (r: Option<Instant>)
    ensures r.Some? <==> -MaxTimeValue <= MakeTimeValue(year, monthIndex, date, h, mi, s) <= MaxTimeValue
    ensures r.Some? ==> TimeValue(r.value) == MakeTimeValue(year, monthIndex, date, h, mi, s)
  {
    var tv := MakeTimeValue(year, monthIndex, date, h, mi, s);
    if -MaxTimeValue <= tv <= MaxTimeValue then Some(FromTimeValue(tv)) else None
  }

  /** For in-range fields with a year of at least 100 the constructor denotes
      exactly those fields, so a well-formed compact date-time is read as written. */
  lemma ConstructDateOfValidFields(t: Instant)
    requires t.millisecond == 0 && (t.year < 0 || t.year >= 100)
    ensures ConstructDate(t.year, t.month - 1, t.day, t.hour, t.minute, t.second) == Some(t)
  {
    var tv := MakeTimeValue(t.year, t.month - 1, t.day, t.hour, t.minute, t.second);
    assert (t.month - 1) / 12 == 0 && (t.month - 1) % 12 + 1 == t.month;
    assert tv == TimeValue(t);
    FromTimeValueOfInstant(t);
  }

  /** A day of the month past its end (or 0) rolls over into the neighbouring
      month: the constructor lands at midnight of the normalised date. */
  lemma ConstructDateNormalizesDay(y: int, m: int, day: int)
    requires 100 <= y <= 9999 && 1 <= m <= 12 && 0 <= day <= 99
    ensures ConstructDate(y, m - 1, day, 0, 0, 0).Some?
    ensures var t := ConstructDate(y, m - 1, day, 0, 0, 0).value;
            DateOf(t) == NormalizeDay(y, m, day) &&
            t.hour == 0 && t.minute == 0 && t.second == 0 && t.millisecond == 0
  {
    var nd := NormalizeDay(y, m, day);
    MidnightOfNormalizedDay(y, m, day);
    var u := DateTime(nd.year, nd.month, nd.day, 0, 0, 0, 0);
    assert TimeValue(u) == MakeTimeValue(y, m - 1, day, 0, 0, 0);
    TimeValueInjective(ConstructDate(y, m - 1, day, 0, 0, 0).value, u);
  }

  lemma MidnightOfNormalizedDay(y: int, m: int, day: int)
    requires 100 <= y <= 9999 && 1 <= m <= 12 && 0 <= day <= 99
    ensures MakeTimeValue(y, m - 1, day, 0, 0, 0) == (DayNumber(NormalizeDay(y, m, day)) - UnixEpochDay) * MsPerDay
    ensures -MaxTimeValue <= MakeTimeValue(y, m - 1, day, 0, 0, 0) <= MaxTimeValue
  {
    assert (m - 1) / 12 == 0 && (m - 1) % 12 + 1 == m;
    var n := MonthStart(y, m) + day - 1 - UnixEpochDay;
    assert MakeTimeValue(y, m - 1, day, 0, 0, 0) == n * MsPerDay;
    MonthStartInRange(y, m);
    ScaledDayInRange(n);
  }

  /** The first day of any month of the years 100 to 9999 lies within a
      hundred million days of the epoch. */
  lemma MonthStartInRange(y: int, m: int)
    requires 100 <= y <= 9999 && 1 <= m <= 12
    ensures -100000000 + UnixEpochDay <= MonthStart(y, m) - 1 && MonthStart(y, m) + 98 <= 100000000 + UnixEpochDay
  {
    DaysBeforeYearMonotone(100, y);
    DaysBeforeYearMonotone(y, 9999);
    DaysBeforeMonthStep(y, m);
  }

  lemma ScaledDayInRange(n: int)
    requires -100000000 <= n <= 100000000
    ensures -MaxTimeValue <= n * MsPerDay <= MaxTimeValue
  {
  }

  /** Years 0 to 99 are read as 1900 to 1999 by the constructor. */
  lemma ConstructDateTwoDigitYear(t: Instant)
    requires t.millisecond == 0 && 1900 <= t.year <= 1999
    ensures ConstructDate(t.year - 1900, t.month - 1, t.day, t.hour, t.minute, t.second) == Some(t)
  {
    var tv := MakeTimeValue(t.year - 1900, t.month - 1, t.day, t.hour, t.minute, t.second);
    assert (t.month - 1) / 12 == 0 && (t.month - 1) % 12 + 1 == t.month;
    assert tv == TimeValue(t);
    FromTimeValueOfInstant(t);
  }
}
