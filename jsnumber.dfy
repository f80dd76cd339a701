/** JavaScript's `parseInt` with no radix argument, and fixed-width decimal
    rendering (the zero-padded fields of `Date.prototype.toISOString`). */
module JsNumber {
  import opened Common
  import JsText

  predicate IsDecimalDigit(c: char) {
    '0' <= c <= '9'
  }

  /** The value of `c` as a digit in base `radix`, or -1 when it is not one:
      `0`-`9` are 0 to 9 and letters of either case are 10 to 35. */
  function DigitValue(c: char, radix: int): int {
    var v := if '0' <= c <= '9' then c as int - '0' as int
             else if 'a' <= c <= 'z' then c as int - 'a' as int + 10
             else if 'A' <= c <= 'Z' then c as int - 'A' as int + 10
             else 36;
    if v < radix then v else -1
  }

  predicate AllDigits(s: string, radix: int) {
    forall i :: 0 <= i < |s| ==> DigitValue(s[i], radix) >= 0
  }

  /** Length of the longest prefix of `s` made of base-`radix` digits. */
  function DigitRun(s: string, radix: int): (n: nat)
    ensures n <= |s|
    ensures AllDigits(s[..n], radix)
    ensures n < |s| ==> DigitValue(s[n], radix) < 0
  {
    if |s| > 0 && DigitValue(s[0], radix) >= 0 then
      var n := 1 + DigitRun(s[1..], radix);
      assert forall i :: 1 <= i < n ==> s[..n][i] == s[1..][..n - 1][i - 1];
      n
    else 0
  }

  /** The number that the digit string `s` denotes in base `radix`. */
  function ValueOf(s: string, radix: int): int
    requires AllDigits(s, radix)
  {
    if s == [] then 0
    else ValueOf(s[..|s| - 1], radix) * radix + DigitValue(s[|s| - 1], radix)
  }

  /** Reads an unsigned number: base 16 after a `0x` or `0X` prefix, base 10
      otherwise, taking the longest run of digits; `None` when the run is empty. */
  function ParseUnsigned(u: string): Option<int> {
    var hex := |u| >= 2 && u[0] == '0' && (u[1] == 'x' || u[1] == 'X');
    var radix := if hex then 16 else 10;
    var v := if hex then u[2..] else u;
    var n := DigitRun(v, radix);
    if n == 0 then None else Some(ValueOf(v[..n], radix))
  }

  /** `parseInt(s)`: skip leading white space, read an optional sign, then an
      unsigned number; `None` stands for NaN. */
  function ParseInt(s: string): Option<int> {
    var t := JsText.TrimStart(s);
    var negative := |t| > 0 && t[0] == '-';
    var u := if |t| > 0 && (t[0] == '-' || t[0] == '+') then t[1..] else t;
    match ParseUnsigned(u)
    case None => None
    case Some(m) => Some(if negative then -m else m)
  }

  /** A string made only of digits is read whole. */
  lemma {:induction false} DigitRunOfAllDigits(s: string, radix: int)
    requires AllDigits(s, radix)
    ensures DigitRun(s, radix) == |s|
  {
    if |s| > 0 {
      assert AllDigits(s[1..], radix) by {
        forall i | 0 <= i < |s| - 1 ensures DigitValue(s[1..][i], radix) >= 0 {
          assert s[1..][i] == s[i + 1];
        }
      }
      DigitRunOfAllDigits(s[1..], radix);
    }
  }

  /** A decimal digit is no hexadecimal marker. */
  lemma DecimalDigitIsNoMarker(c: char)
    requires DigitValue(c, 10) >= 0
    ensures c != 'x' && c != 'X' && '0' <= c <= '9'
  {
  }

  /** A non-empty string of decimal digits is read in base 10 as its value. */
  lemma ParseUnsignedOfDecimal(d: string)
    requires |d| >= 1 && AllDigits(d, 10)
    ensures ParseUnsigned(d) == Some(ValueOf(d, 10))
  {
    if |d| >= 2 {
      DecimalDigitIsNoMarker(d[1]);
    }
    DigitRunOfAllDigits(d, 10);
    assert d[..|d|] == d;
  }

  function Pow10(k: nat): (p: nat)
    ensures p >= 1
  {
    if k == 0 then 1 else 10 * Pow10(k - 1)
  }

  function DigitChar(d: nat): (c: char)
    requires d < 10
    ensures IsDecimalDigit(c) && DigitValue(c, 10) == d
  {
    ('0' as int + d) as char
  }

  /** The last `width` decimal digits of `n`, padded with zeros on the left. */
  function Digits(n: nat, width: nat): (r: string)
    ensures |r| == width
    ensures forall i :: 0 <= i < |r| ==> IsDecimalDigit(r[i])
  {
    if width == 0 then [] else Digits(n / 10, width - 1) + [DigitChar(n % 10)]
  }

  /** A rendering holds nothing but digits. */
  lemma DigitsExclude(n: nat, width: nat, c: char)
    requires !IsDecimalDigit(c)
    ensures c !in Digits(n, width)
  {
    var r := Digits(n, width);
    assert forall k :: 0 <= k < |r| ==> IsDecimalDigit(r[k]);
  }

  /** Reading back a zero-padded rendering gives the number, when it fits. */
  lemma {:induction false} DigitsValue(n: nat, width: nat)
    requires n < Pow10(width)
    ensures AllDigits(Digits(n, width), 10)
    ensures ValueOf(Digits(n, width), 10) == n
  {
    if width > 0 {
      DigitsValue(n / 10, width - 1);
      var r := Digits(n, width);
      assert r[..|r| - 1] == Digits(n / 10, width - 1);
    }
  }

  /** `parseInt` inverts the zero-padded rendering: the fixed-width fields of a
      compact iCalendar date read back as the numbers they were written from. */
  lemma ParseIntOfDigits(n: nat, width: nat)
    requires 1 <= width && n < Pow10(width)
    ensures ParseInt(Digits(n, width)) == Some(n)
  {
    var s := Digits(n, width);
    DigitsValue(n, width);
    NoTrimOfDigit(s);
    ParseUnsignedOfDecimal(s);
    assert !(|s| > 0 && (s[0] == '-' || s[0] == '+'));
  }

  lemma NoTrimOfDigit(s: string)
    requires |s| > 0 && (IsDecimalDigit(s[0]) || s[0] == '-')
    ensures JsText.TrimStart(s) == s
  {
    assert !JsText.IsWhiteSpace(s[0]);
  }

  /** `parseInt` of a minus sign and an unsigned text negates what the
      text reads as. */
  lemma ParseIntOfMinus(u: string, m: int)
    requires ParseUnsigned(u) == Some(m)
    ensures ParseInt("-" + u) == Some(-m)
  {
    var s := "-" + u;
    assert s[0] == '-' && s[1..] == u;
    NoTrimOfDigit(s);
  }

  /** A leading minus sign negates the number read. */
  lemma ParseIntOfNegative(n: nat, width: nat)
    requires 1 <= width && n < Pow10(width)
    ensures ParseInt("-" + Digits(n, width)) == Some(-(n as int))
  {
    var d := Digits(n, width);
    DigitsValue(n, width);
    ParseUnsignedOfDecimal(d);
    ParseIntOfMinus(d, n);
  }

  /** The empty string and a string with no digit up front are NaN. */
  lemma ParseIntOfNonDigit(c: char, rest: string)
    requires DigitValue(c, 10) < 0 && !JsText.IsWhiteSpace(c) && c != '-' && c != '+'
    ensures ParseInt([]) == None
    ensures ParseInt([c] + rest) == None
  {
    var s := [c] + rest;
    assert JsText.TrimStart(s) == s;
    assert s[0] == c;
  }
}
