/** `Date.prototype.toISOString`: the canonical text of an instant,
    `YYYY-MM-DDTHH:mm:ss.sssZ`, with a signed six-digit year outside 0..9999. */
module IsoFormat {
  import opened Common
  import opened JsNumber
  import opened Calendar
  import JsText

  /** Every instant a JavaScript `Date` can hold has a year of at most six digits. */
  lemma InstantYearBounds(i: Instant)
    ensures -1000000 < i.year < 1000000
  {
    var tod := i.hour * 3600000 + i.minute * 60000 + i.second * 1000 + i.millisecond;
    var days := DayNumber(DateOf(i)) - UnixEpochDay;
    assert 0 <= tod < MsPerDay;
    assert -100000001 <= days <= 100000000 by {
      assert -MaxTimeValue <= days * MsPerDay + tod <= MaxTimeValue;
    }
    DayNumberBounds(DateOf(i));
    if i.year >= 1000000 {
      DaysBeforeYearMonotone(1000000, i.year);
    }
    if i.year <= -1000000 {
      DaysBeforeYearMonotone(i.year + 1, -999999);
    }
  }

  function YearText(y: int): (r: string)
    requires -1000000 < y < 1000000
  {
    if 0 <= y <= 9999 then Digits(y, 4)
    else (if y < 0 then "-" else "+") + Digits(if y < 0 then -y else y, 6)
  }

  /** The date part, `YYYY-MM-DD`. */
  function DateText(d: Date): (r: string)
    requires -1000000 < d.year < 1000000
    ensures |r| == 10 || |r| == 13
  {
    YearText(d.year) + "-" + Digits(d.month, 2) + "-" + Digits(d.day, 2)
  }

  /** The time part after the `T`, `HH:mm:ss.sssZ`. */
  function TimeText(t: Instant): (r: string)
    ensures |r| == 13
  {
    Digits(t.hour, 2) + ":" + Digits(t.minute, 2) + ":" + Digits(t.second, 2) + "." +
    Digits(t.millisecond, 3) + "Z"
  }

  function ToISOString(t: Instant): (r: string)
    ensures |r| == 24 || |r| == 27
  {
    InstantYearBounds(t);
    DateText(DateOf(t)) + "T" + TimeText(t)
  }

  /** A field of decimal digits, read back as its value. */
  function DecimalField(s: string): Option<int> {
    if |s| > 0 && AllDigits(s, 10) then Some(ValueOf(s, 10)) else None
  }

  /** Reads a year as `YearText` writes it. */
  function ParseYearText(s: string): Option<int> {
    if |s| == 4 then DecimalField(s)
    else if |s| == 7 && (s[0] == '+' || s[0] == '-') then
      match DecimalField(s[1..])
      case None => None
      case Some(v) => Some(if s[0] == '-' then -v else v)
    else None
  }

  /** Reads `YYYY-MM-DD` (or a six-digit signed year) into a calendar date. */
  function ParseDateText(s: string): Option<CalendarDate> {
    if |s| < 6 then None
    else
      var n := |s| - 6;
      match (ParseYearText(s[..n]), DecimalField(s[n + 1..n + 3]), DecimalField(s[n + 4..]))
      case (Some(y), Some(m), Some(d)) =>
        if s[n] == '-' && s[n + 3] == '-' then Some(CalendarDate(y, m, d)) else None
      case _ => None
  }

  /** Reads `HH:mm:ss.sssZ` into hours, minutes, seconds and milliseconds. */
  function ParseTimeText(s: string): Option<(int, int, int, int)> {
    if |s| != 13 then None
    else
      match (DecimalField(s[..2]), DecimalField(s[3..5]), DecimalField(s[6..8]), DecimalField(s[9..12]))
      case (Some(h), Some(mi), Some(se), Some(ms)) =>
        if s[2] == ':' && s[5] == ':' && s[8] == '.' && s[12] == 'Z' then Some((h, mi, se, ms)) else None
      case _ => None
  }

  /** Reads the text `ToISOString` writes: a date part, `T`, and a time part. */
  function FromISOString(s: string): Option<DateTime> {
    if |s| < 14 || s[|s| - 14] != 'T' then None
    else
      match (ParseDateText(s[..|s| - 14]), ParseTimeText(s[|s| - 13..]))
      case (Some(d), Some((h, mi, se, ms))) => Some(DateTime(d.year, d.month, d.day, h, mi, se, ms))
      case _ => None
  }

  lemma DecimalFieldOfDigits(n: nat, width: nat)
    requires 1 <= width && n < Pow10(width)
    ensures DecimalField(Digits(n, width)) == Some(n)
  {
    DigitsValue(n, width);
  }

  lemma DigitsHaveNoT(n: nat, width: nat)
    ensures 'T' !in Digits(n, width)
  {
    DigitsExclude(n, width, 'T');
  }

  lemma YearTextRoundTrip(y: int)
    requires -1000000 < y < 1000000
    ensures ParseYearText(YearText(y)) == Some(y)
    ensures 'T' !in YearText(y)
  {
    if 0 <= y <= 9999 {
      DecimalFieldOfDigits(y, 4);
      DigitsHaveNoT(y, 4);
    } else {
      var a := if y < 0 then -y else y;
      var sign := if y < 0 then "-" else "+";
      DecimalFieldOfDigits(a, 6);
      DigitsHaveNoT(a, 6);
      assert YearText(y) == sign + Digits(a, 6);
      assert YearText(y)[1..] == Digits(a, 6);
    }
  }

  lemma DateTextRoundTrip(d: Date)
    requires -1000000 < d.year < 1000000
    ensures ParseDateText(DateText(d)) == Some(d)
    ensures 'T' !in DateText(d)
  {
    var yt, mo, dd := YearText(d.year), Digits(d.month, 2), Digits(d.day, 2);
    var s := DateText(d);
    YearTextRoundTrip(d.year);
    DecimalFieldOfDigits(d.month, 2);
    DecimalFieldOfDigits(d.day, 2);
    DigitsHaveNoT(d.month, 2);
    DigitsHaveNoT(d.day, 2);
    var n := |yt|;
    assert s == yt + "-" + mo + "-" + dd;
    assert s[..n] == yt;
    assert s[n + 1..n + 3] == mo;
    assert s[n + 4..] == dd;
  }

  lemma TimeTextRoundTrip(t: Instant)
    ensures ParseTimeText(TimeText(t)) == Some((t.hour, t.minute, t.second, t.millisecond))
  {
    var h, mi, se, ms := Digits(t.hour, 2), Digits(t.minute, 2), Digits(t.second, 2), Digits(t.millisecond, 3);
    var s := TimeText(t);
    DecimalFieldOfDigits(t.hour, 2);
    DecimalFieldOfDigits(t.minute, 2);
    DecimalFieldOfDigits(t.second, 2);
    DecimalFieldOfDigits(t.millisecond, 3);
    assert s == h + ":" + mi + ":" + se + "." + ms + "Z";
    assert s[..2] == h && s[3..5] == mi && s[6..8] == se && s[9..12] == ms;
  }

  /** `toISOString` loses nothing: the text reads back as the instant. */
  lemma ISOStringRoundTrip(t: Instant)
    ensures FromISOString(ToISOString(t)) == Some(t)
  {
    InstantYearBounds(t);
    var dt, tt := DateText(DateOf(t)), TimeText(t);
    var s := ToISOString(t);
    DateTextRoundTrip(DateOf(t));
    TimeTextRoundTrip(t);
    assert s == dt + "T" + tt;
    assert s[..|s| - 14] == dt;
    assert s[|s| - 13..] == tt;
  }

  /** Two instants with the same ISO text are the same instant. */
  lemma ToISOStringInjective(a: Instant, b: Instant)
    requires ToISOString(a) == ToISOString(b)
    ensures a == b
  {
    ISOStringRoundTrip(a);
    ISOStringRoundTrip(b);
  }

  /** The text before the first `T` of an ISO string is its date part. */
  lemma DatePartOfISOString(t: Instant)
    ensures JsText.FieldBefore(ToISOString(t), 'T') == (InstantYearBounds(t); DateText(DateOf(t)))
  {
    InstantYearBounds(t);
    var dt := DateText(DateOf(t));
    DateTextRoundTrip(DateOf(t));
    assert ToISOString(t) == dt + ['T'] + TimeText(t);
    JsText.FieldBeforeOfJoin(dt, 'T', TimeText(t));
  }
}
