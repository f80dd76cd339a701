/** The date normaliser of the iCalendar scanner (deno/main.ts): a DTSTART or
    DTEND value becomes an ISO-8601 instant string. `Date.parse` is an oracle
    supplied by the caller; when it fails, the token is read positionally as a
    DATE-TIME `YYYYMMDDTHHMMSS` (section 3.3.5 of RFC 5545) when it contains a
    `T`, or as a DATE `YYYYMMDD` (section 3.3.4) otherwise, and the components
    are given to the `Date` constructor, read here in UTC. */
module DateToken {
  import opened Common
  import opened JsNumber
  import opened Calendar
  import opened IsoFormat

  /** `s.slice(from, to)` for 0 <= from <= to: both ends are clamped to the length. */
  function Slice(s: string, from: nat, to: nat): (r: string)
    requires from <= to
    ensures |r| <= to - from
  {
    var a := if from < |s| then from else |s|;
    var b := if to < |s| then to else |s|;
    s[a..b]
  }

  /** `new Date(y, mo - 1, d, h, mi, se)` on the parsed fields: `None` when one
      of them is NaN, or when the result is an Invalid Date, which makes
      `toISOString` throw. */
  function DateOfFields(y: Option<int>, mo: Option<int>, d: Option<int>,
                        h: Option<int>, mi: Option<int>, se: Option<int>): Option<Instant> {
    if y.Some? && mo.Some? && d.Some? && h.Some? && mi.Some? && se.Some? then
      ConstructDate(y.value, mo.value - 1, d.value, h.value, mi.value, se.value)
    else None
  }

  /** The positional read, once `Date.parse` has failed: `YYYYMMDDTHHMMSS` when
      the token contains a `T`, `YYYYMMDD` (at midnight) otherwise. */
  function CompactInstant(s: string): Option<Instant> {
    var y, mo, d := ParseInt(Slice(s, 0, 4)), ParseInt(Slice(s, 4, 6)), ParseInt(Slice(s, 6, 8));
    if 'T' in s then
      DateOfFields(y, mo, d, ParseInt(Slice(s, 9, 11)), ParseInt(Slice(s, 11, 13)), ParseInt(Slice(s, 13, 15)))
    else
      DateOfFields(y, mo, d, Some(0), Some(0), Some(0))
  }

  /** What the `try` block of deno/main.ts stores for a token, or `None` when the
      field is left as it was. Without a `:` on the line the token is
      `undefined`: `Date.parse` then sees the text "undefined", and when that
      fails `undefined.includes` throws. */
  function NormalizeToken(token: Option<string>, parse: string -> Option<Instant>): (r: Option<string>)
    ensures var text := if token.Some? then token.value else "undefined";
            parse(text).Some? ==> r == Some(ToISOString(parse(text).value))
    ensures token.None? && parse("undefined").None? ==> r.None?
    ensures token.Some? && parse(token.value).None? ==>
              r == (if CompactInstant(token.value).Some? then Some(ToISOString(CompactInstant(token.value).value)) else None)
    ensures r.Some? ==> |r.value| > 0 && FromISOString(r.value).Some?
  {
    var text := if token.Some? then token.value else "undefined";
    match parse(text)
    case Some(i) =>
      ISOStringRoundTrip(i);
      Some(ToISOString(i))
    case None =>
      if token.None? then None
      else
        match CompactInstant(token.value)
        case Some(i) =>
          ISOStringRoundTrip(i);
          Some(ToISOString(i))
        case None => None
  }

  lemma DateOfPresentFields(y: int, mo: int, d: int, h: int, mi: int, se: int)
    ensures DateOfFields(Some(y), Some(mo), Some(d), Some(h), Some(mi), Some(se)) == ConstructDate(y, mo - 1, d, h, mi, se)
  {
  }

  /** How `CompactInstant` combines the fields of a token with a `T`. */
  lemma CompactInstantOfDateTimeFields(s: string, y: int, mo: int, d: int, h: int, mi: int, se: int)
    requires 'T' in s
    requires ParseInt(Slice(s, 0, 4)) == Some(y) && ParseInt(Slice(s, 4, 6)) == Some(mo)
    requires ParseInt(Slice(s, 6, 8)) == Some(d) && ParseInt(Slice(s, 9, 11)) == Some(h)
    requires ParseInt(Slice(s, 11, 13)) == Some(mi) && ParseInt(Slice(s, 13, 15)) == Some(se)
    ensures CompactInstant(s) == ConstructDate(y, mo - 1, d, h, mi, se)
  {
    DateOfPresentFields(y, mo, d, h, mi, se);
  }

  /** How `CompactInstant` combines the fields of a token without a `T`. */
  lemma CompactInstantOfDateFields(s: string, y: int, mo: int, d: int)
    requires 'T' !in s
    requires ParseInt(Slice(s, 0, 4)) == Some(y) && ParseInt(Slice(s, 4, 6)) == Some(mo)
    requires ParseInt(Slice(s, 6, 8)) == Some(d)
    ensures CompactInstant(s) == ConstructDate(y, mo - 1, d, 0, 0, 0)
  {
    DateOfPresentFields(y, mo, d, 0, 0, 0);
  }

  /** A date or date-time whose year has at most six digits fits in the range
      of JavaScript time values. */
  lemma SmallYearIsInstant(t: DateTime)
    requires ValidFields(t) && -200000 <= t.year <= 200000
    ensures ValidInstant(t)
  {
    DayNumberBounds(DateOf(t));
    DaysBeforeYearMonotone(-200000, t.year);
    DaysBeforeYearMonotone(t.year + 1, 200001);
  }

  /** Midnight UTC at the start of a date. */
  function Midnight(d: Date): (t: Instant)
    requires 100 <= d.year <= 9999
  {
    SmallYearIsInstant(DateTime(d.year, d.month, d.day, 0, 0, 0, 0));
    DateTime(d.year, d.month, d.day, 0, 0, 0, 0)
  }

  /** Eight digits `YYYYMMDD`, zero-padded, as a DATE value is written. */
  function DateDigits(y: nat, m: nat, d: nat): string {
    Digits(y, 4) + Digits(m, 2) + Digits(d, 2)
  }

  /** The compact DATE text `YYYYMMDD` of a date. */
  function CompactDate(d: Date): string
    requires 0 <= d.year <= 9999
  {
    DateDigits(d.year, d.month, d.day)
  }

  /** The clock digits `HHMMSS` of an instant. */
  function ClockDigits(t: Instant): string {
    Digits(t.hour, 2) + Digits(t.minute, 2) + Digits(t.second, 2)
  }

  /** The compact DATE-TIME text `YYYYMMDDTHHMMSS` of an instant. */
  function CompactDateTime(t: Instant): string
    requires 0 <= t.year <= 9999
  {
    CompactDate(DateOf(t)) + "T" + ClockDigits(t)
  }

  lemma DateDigitsParts(y: nat, m: nat, d: nat)
    ensures |DateDigits(y, m, d)| == 8
    ensures DateDigits(y, m, d)[0..4] == Digits(y, 4)
    ensures DateDigits(y, m, d)[4..6] == Digits(m, 2)
    ensures DateDigits(y, m, d)[6..8] == Digits(d, 2)
    ensures 'T' !in DateDigits(y, m, d)
  {
    DigitsHaveNoT(y, 4);
    DigitsHaveNoT(m, 2);
    DigitsHaveNoT(d, 2);
  }

  /** Where the positional read finds its fields in a text `a rest`. */
  lemma SlicesOfDateText(a: string, rest: string)
    requires |a| == 8
    ensures Slice(a + rest, 0, 4) == a[0..4]
    ensures Slice(a + rest, 4, 6) == a[4..6]
    ensures Slice(a + rest, 6, 8) == a[6..8]
  {
  }

  /** Eight digits not followed by a `T` are read as year, month and day and
      given to the constructor at midnight. */
  lemma DateDigitsRead(y: nat, m: nat, d: nat, rest: string)
    requires y <= 9999 && m <= 99 && d <= 99 && 'T' !in rest
    ensures CompactInstant(DateDigits(y, m, d) + rest) == ConstructDate(y, m - 1, d, 0, 0, 0)
  {
    DateDigitsParts(y, m, d);
    SlicesOfDateText(DateDigits(y, m, d), rest);
    ParseIntOfDigits(y, 4);
    ParseIntOfDigits(m, 2);
    ParseIntOfDigits(d, 2);
    CompactInstantOfDateFields(DateDigits(y, m, d) + rest, y, m, d);
  }

  /** A DATE value `YYYYMMDD` with a year from 100 on is read as midnight UTC of
      that day, whatever follows it (as long as no `T` does). */
  lemma CompactDateReadsAsWritten(d: Date, rest: string)
    requires 100 <= d.year <= 9999 && 'T' !in rest
    ensures CompactInstant(CompactDate(d) + rest) == Some(Midnight(d))
  {
    DateDigitsRead(d.year, d.month, d.day, rest);
    ConstructDateOfValidFields(Midnight(d));
  }

  lemma ClockDigitsParts(t: Instant)
    ensures |ClockDigits(t)| == 6
    ensures ClockDigits(t)[0..2] == Digits(t.hour, 2)
    ensures ClockDigits(t)[2..4] == Digits(t.minute, 2)
    ensures ClockDigits(t)[4..6] == Digits(t.second, 2)
  {
  }

  /** Where the positional read finds its fields in a text `a T b rest`. */
  lemma SlicesOfDateTimeText(a: string, b: string, rest: string)
    requires |a| == 8 && |b| == 6
    ensures 'T' in a + "T" + b + rest
    ensures Slice(a + "T" + b + rest, 0, 4) == a[0..4]
    ensures Slice(a + "T" + b + rest, 4, 6) == a[4..6]
    ensures Slice(a + "T" + b + rest, 6, 8) == a[6..8]
    ensures Slice(a + "T" + b + rest, 9, 11) == b[0..2]
    ensures Slice(a + "T" + b + rest, 11, 13) == b[2..4]
    ensures Slice(a + "T" + b + rest, 13, 15) == b[4..6]
  {
    var s := a + "T" + b + rest;
    assert s[8] == 'T';
  }

  /** A compact date-time is read field by field and given to the constructor. */
  lemma CompactDateTimeRead(t: Instant, rest: string)
    requires 0 <= t.year <= 9999
    ensures CompactInstant(CompactDateTime(t) + rest) == ConstructDate(t.year, t.month - 1, t.day, t.hour, t.minute, t.second)
  {
    DateDigitsParts(t.year, t.month, t.day);
    ClockDigitsParts(t);
    SlicesOfDateTimeText(CompactDate(DateOf(t)), ClockDigits(t), rest);
    ParseIntOfDigits(t.year, 4);
    ParseIntOfDigits(t.month, 2);
    ParseIntOfDigits(t.day, 2);
    ParseIntOfDigits(t.hour, 2);
    ParseIntOfDigits(t.minute, 2);
    ParseIntOfDigits(t.second, 2);
    CompactInstantOfDateTimeFields(CompactDateTime(t) + rest, t.year, t.month, t.day, t.hour, t.minute, t.second);
  }

  /** A DATE-TIME value `YYYYMMDDTHHMMSS` is read as that UTC instant; whatever
      follows the seconds (a `Z`, say) is ignored. */
  lemma CompactDateTimeReadsAsWritten(t: Instant, rest: string)
    requires 100 <= t.year <= 9999 && t.millisecond == 0
    ensures CompactInstant(CompactDateTime(t) + rest) == Some(t)
  {
    CompactDateTimeRead(t, rest);
    ConstructDateOfValidFields(t);
  }

  /** When `Date.parse` rejects it, a DATE value `YYYYMMDD` normalises to
      midnight UTC of that day. */
  lemma CompactDateNormalizes(d: Date, parse: string -> Option<Instant>)
    requires 100 <= d.year <= 9999
    requires parse(CompactDate(d)) == None
    ensures NormalizeToken(Some(CompactDate(d)), parse) == Some(ToISOString(Midnight(d)))
  {
    CompactDateReadsAsWritten(d, []);
    assert CompactDate(d) + [] == CompactDate(d);
  }

  /** When `Date.parse` rejects it, a DATE-TIME value `YYYYMMDDTHHMMSSZ`
      normalises to the ISO text of that UTC instant. */
  lemma CompactDateTimeNormalizes(t: Instant, parse: string -> Option<Instant>)
    requires 100 <= t.year <= 9999 && t.millisecond == 0
    requires parse(CompactDateTime(t) + "Z") == None
    ensures NormalizeToken(Some(CompactDateTime(t) + "Z"), parse) == Some(ToISOString(t))
  {
    CompactDateTimeReadsAsWritten(t, "Z");
  }

  /** When `Date.parse` rejects them, `YYYYMMDD` and `YYYYMMDDT000000Z` normalise
      to the same instant string, midnight UTC of that day. */
  lemma DateAndMidnightDateTimeAgree(d: Date, parse: string -> Option<Instant>)
    requires 100 <= d.year <= 9999
    requires parse(CompactDate(d)) == None
    requires parse(CompactDateTime(Midnight(d)) + "Z") == None
    ensures NormalizeToken(Some(CompactDate(d)), parse) == Some(ToISOString(Midnight(d)))
    ensures NormalizeToken(Some(CompactDateTime(Midnight(d)) + "Z"), parse) == Some(ToISOString(Midnight(d)))
  {
    CompactDateNormalizes(d, parse);
    CompactDateTimeReadsAsWritten(Midnight(d), "Z");
  }

  /** Years written 0000 to 0099 become 1900 to 1999, ECMAScript's two-digit
      year rule: a DATE value can never denote a year below 100. */
  lemma CompactDateTwoDigitYear(d: Date)
    requires 1900 <= d.year <= 1999
    ensures CompactInstant(DateDigits(d.year - 1900, d.month, d.day)) == Some(Midnight(d))
  {
    DateDigitsRead(d.year - 1900, d.month, d.day, []);
    assert DateDigits(d.year - 1900, d.month, d.day) + [] == DateDigits(d.year - 1900, d.month, d.day);
    ConstructDateTwoDigitYear(Midnight(d));
  }

  /** A day past the end of its month (or day 0) is not rejected: it overflows
      into the neighbouring month, as the `Date` constructor does. */
  lemma CompactDateOverflows(y: nat, m: nat, d: nat)
    requires 100 <= y <= 9999 && 1 <= m <= 12 && d <= 99
    ensures CompactInstant(DateDigits(y, m, d)).Some?
    ensures var t := CompactInstant(DateDigits(y, m, d)).value;
            DateOf(t) == NormalizeDay(y, m, d) &&
            t.hour == 0 && t.minute == 0 && t.second == 0 && t.millisecond == 0
  {
    DateDigitsRead(y, m, d, []);
    assert DateDigits(y, m, d) + [] == DateDigits(y, m, d);
    ConstructDateNormalizesDay(y, m, d);
  }

  /** A 30 February (such as `20230230`) is read as 2 March, or as 1 March
      in a leap year. */
  lemma FebruaryThirtiethIsEarlyMarch(y: int)
    ensures NormalizeDay(y, 2, 30) == CalendarDate(y, 3, if IsLeapYear(y) then 1 else 2)
  {
    var r := NormalizeDay(y, 2, 30);
    assert r == NormalizeDay(y, 3, 30 - DaysInMonth(y, 2));
  }

  /** A token too short to hold a month is NaN, and so is not stored. */
  lemma ShortTokenIsRejected(s: string)
    requires |s| <= 4
    ensures CompactInstant(s) == None
  {
    assert Slice(s, 4, 6) == [];
    ParseIntOfNonDigit('x', []);
  }
}
