/**
 * Calendar dates and clock readings as Python's `datetime` module sees them: validity, proleptic
 * Gregorian ordinals (`date.toordinal()`), `strftime("%Y-%m-%d")`, `strftime("%Y-%m-%d %H:%M:%S")`
 * and `datetime.strptime(s, "%Y-%m-%d")`.
 */
module Dates {
  import opened Wrappers
  import opened Text
  import opened Lex

  datatype Date = Date(year: int, month: int, day: int)

  /** A clock reading, as returned by `datetime.now()`. */
  datatype Instant = Instant(date: Date, hour: int, minute: int, second: int, microsecond: int)

  const MinYear := 1
  const MaxYear := 9999
  /** `date(9999, 12, 31).toordinal()`. */
  const MaxOrdinal := 3652059

  predicate IsLeap(y: int) {
    y % 4 == 0 && (y % 100 != 0 || y % 400 == 0)
  }

  function DaysInMonth(y: int, m: int): int
    requires 1 <= m <= 12
  {
    if m == 2 then (if IsLeap(y) then 29 else 28)
    else if m == 4 || m == 6 || m == 9 || m == 11 then 30
    else 31
  }

  /** The dates `datetime.date` accepts. */
  predicate ValidDate(d: Date) {
    MinYear <= d.year <= MaxYear && 1 <= d.month <= 12 && 1 <= d.day <= DaysInMonth(d.year, d.month)
  }

  predicate ValidInstant(i: Instant) {
    ValidDate(i.date) && 0 <= i.hour < 24 && 0 <= i.minute < 60 && 0 <= i.second < 60
    && 0 <= i.microsecond < 1000000
  }

  function DaysBeforeYear(y: int): int {
    var y1 := y - 1;
    y1 * 365 + y1 / 4 - y1 / 100 + y1 / 400
  }

  function DaysBeforeMonth(y: int, m: int): int
    requires 1 <= m <= 12
  {
    var table := [0, 31, 59, 90, 120, 151, 181, 212, 243, 273, 304, 334];
    table[m - 1] + (if m > 2 && IsLeap(y) then 1 else 0)
  }

  /** `date.toordinal()`: day 1 is 0001-01-01. */
  function Ordinal(d: Date): (r: int)
    requires ValidDate(d)
    ensures 1 <= r <= MaxOrdinal
  {
    DaysBeforeYear(d.year) + DaysBeforeMonth(d.year, d.month) + d.day
  }

  /** Microseconds since midnight. */
  function TimeOfDay(i: Instant): int {
    ((i.hour * 60 + i.minute) * 60 + i.second) * 1000000 + i.microsecond
  }

  // ---------------------------------------------------------------------------
  // Formatting
  // ---------------------------------------------------------------------------

  function Pow10(w: nat): (r: nat)
    ensures r >= 1
  {
    if w == 0 then 1 else 10 * Pow10(w - 1)
  }

  /** The last `w` decimal digits of `n`, zero-padded (`%0wd` for `n < 10^w`). */
  function Pad(n: nat, w: nat): (r: string)
    ensures |r| == w && forall i :: 0 <= i < w ==> IsAsciiDigit(r[i])
  {
    if w == 0 then [] else Pad(n / 10, w - 1) + [DigitChar(n % 10)]
  }

  /** The value of a string of ASCII digits (Python's `int(...)` on it). */
  function DigitsValue(s: string): (r: nat)
    requires forall i :: 0 <= i < |s| ==> IsAsciiDigit(s[i])
  {
    if s == [] then 0
    else
      assert IsAsciiDigit(s[|s| - 1]);
      DigitsValue(s[..|s| - 1]) * 10 + (s[|s| - 1] as int - '0' as int)
  }

  /** `strftime("%Y-%m-%d")`, with the year written as four digits. */
  function FormatDate(d: Date): string
    requires ValidDate(d)
  {
    Pad(d.year, 4) + ("-" + (Pad(d.month, 2) + ("-" + Pad(d.day, 2))))
  }

  /** `strftime("%Y-%m-%d %H:%M:%S")`: the microseconds are dropped. */
  function FormatDateTime(i: Instant): string
    requires ValidInstant(i)
  {
    Pad(i.date.year, 4) + ("-" + (Pad(i.date.month, 2) + ("-" + (Pad(i.date.day, 2)
    + (" " + (Pad(i.hour, 2) + (":" + (Pad(i.minute, 2) + (":" + Pad(i.second, 2))))))))))
  }

  // ---------------------------------------------------------------------------
  // Parsing: datetime.strptime(s, "%Y-%m-%d")
  // ---------------------------------------------------------------------------

  function Digit(c: char): int {
    c as int - '0' as int
  }

  predicate IsNonZeroDigit(c: char) {
    '1' <= c <= '9'
  }

  /**
   * The `%m` directive at the start of `s`: the first of the alternatives `1[0-2]`, `0[1-9]`,
   * `[1-9]` that matches, as (value, characters consumed).
   */
  function MonthAt(s: string): Option<(int, nat)> {
    if |s| >= 2 && s[0] == '1' && '0' <= s[1] <= '2' then Some((10 + Digit(s[1]), 2))
    else if |s| >= 2 && s[0] == '0' && IsNonZeroDigit(s[1]) then Some((Digit(s[1]), 2))
    else if |s| >= 1 && IsNonZeroDigit(s[0]) then Some((Digit(s[0]), 1))
    else None
  }

  /**
   * The `%d` directive at the start of `s`: the first of the alternatives `3[01]`, `[12][0-9]`,
   * `0[1-9]`, `[1-9]`, ` [1-9]` that matches, as (value, characters consumed).
   */
  function DayAt(s: string): Option<(int, nat)> {
    if |s| >= 2 && s[0] == '3' && (s[1] == '0' || s[1] == '1') then Some((30 + Digit(s[1]), 2))
    else if |s| >= 2 && (s[0] == '1' || s[0] == '2') && IsAsciiDigit(s[1]) then Some((10 * Digit(s[0]) + Digit(s[1]), 2))
    else if |s| >= 2 && s[0] == '0' && IsNonZeroDigit(s[1]) then Some((Digit(s[1]), 2))
    else if |s| >= 1 && IsNonZeroDigit(s[0]) then Some((Digit(s[0]), 1))
    else if |s| >= 2 && s[0] == ' ' && IsNonZeroDigit(s[1]) then Some((Digit(s[1]), 2))
    else None
  }

  /**
   * `datetime.strptime(s, "%Y-%m-%d").date()`, or `None` where it raises `ValueError`: the text
   * does not match, characters are left over ("unconverted data remains"), or the date does not
   * exist (year 0, day 31 of a 30-day month, 29 February of a common year).
   */
  function ParseDate(s: string): (r: Option<Date>)
    ensures r.Some? ==> ValidDate(r.value)
  {
    if |s| < 5 || !(IsAsciiDigit(s[0]) && IsAsciiDigit(s[1]) && IsAsciiDigit(s[2]) && IsAsciiDigit(s[3]))
      || s[4] != '-'
    then None
    else
      var y := DigitsValue(s[..4]);
      match MonthAt(s[5..])
      case None => None
      case Some((m, k)) =>
        var t := s[5 + k..];
        if t == [] || t[0] != '-' then None
        else
          match DayAt(t[1..])
          case None => None
          case Some((d, j)) =>
            if j != |t| - 1 then None
            else if ValidDate(Date(y, m, d)) then Some(Date(y, m, d))
            else None
  }

  // ---------------------------------------------------------------------------
  // Properties
  // ---------------------------------------------------------------------------

  lemma {:induction false} DigitsValuePad(n: nat, w: nat)
    requires n < Pow10(w)
    ensures DigitsValue(Pad(n, w)) == n
  {
    if w > 0 {
      var p := Pad(n, w);
      assert p[..w - 1] == Pad(n / 10, w - 1);
      DigitsValuePad(n / 10, w - 1);
      assert p[w - 1] == DigitChar(n % 10);
    }
  }

  lemma Pad2(n: nat)
    requires n < 100
    ensures Pad(n, 2) == [DigitChar(n / 10), DigitChar(n % 10)]
  {
    var t := n / 10;
    assert t < 10;
    assert t % 10 == t && t / 10 == 0;
    assert Pad(t, 1) == Pad(0, 0) + [DigitChar(t)];
  }

  /** Formatting a date and parsing it back with `%Y-%m-%d` gives the same date. */
  lemma ParseFormatDate(d: Date)
    requires ValidDate(d)
    ensures ParseDate(FormatDate(d)) == Some(d)
  {
    var s := FormatDate(d);
    DigitsValuePad(d.year, 4);
    Pad2(d.month);
    Pad2(d.day);
    assert s[..4] == Pad(d.year, 4);
    assert s[5..] == Pad(d.month, 2) + ("-" + Pad(d.day, 2));
    assert MonthAt(s[5..]) == Some((d.month, 2));
    var t := s[7..];
    assert t == "-" + Pad(d.day, 2);
    assert t[1..] == Pad(d.day, 2);
    assert DayAt(t[1..]) == Some((d.day, 2));
  }

  /** On zero-padded numbers of the same width, string order is numeric order. */
  lemma {:induction false} PadOrder(n: nat, m: nat, w: nat)
    requires n < Pow10(w) && m < Pow10(w)
    ensures Less(Pad(n, w), Pad(m, w)) <==> n < m
    ensures Pad(n, w) == Pad(m, w) <==> n == m
  {
    if w > 0 {
      var a, b := Pad(n / 10, w - 1), Pad(m / 10, w - 1);
      var c, e := DigitChar(n % 10), DigitChar(m % 10);
      assert n / 10 < Pow10(w - 1) && m / 10 < Pow10(w - 1);
      PadOrder(n / 10, m / 10, w - 1);
      LessConcat(a, [c], b, [e]);
      assert Less([c], [e]) <==> c < e;
      assert n == 10 * (n / 10) + n % 10 && m == 10 * (m / 10) + m % 10;
      if a + [c] == b + [e] {
        assert a == (a + [c])[..w - 1] && b == (b + [e])[..w - 1];
        assert c == (a + [c])[w - 1] && e == (b + [e])[w - 1];
      }
    }
  }

  /** One zero-padded field followed by a separator and the rest of the text. */
  lemma FieldOrder(n: nat, m: nat, w: nat, sep: string, x: string, y: string)
    requires n < Pow10(w) && m < Pow10(w)
    ensures Less(Pad(n, w) + (sep + x), Pad(m, w) + (sep + y)) <==> n < m || (n == m && Less(x, y))
  {
    PadOrder(n, m, w);
    LessConcat(Pad(n, w), sep + x, Pad(m, w), sep + y);
    LessConcat(sep, x, sep, y);
    LessIrreflexive(sep);
  }

  /** `a` is earlier than `b` at the resolution of whole seconds. */
  predicate SecondBefore(a: Instant, b: Instant) {
    a.date.year < b.date.year || (a.date.year == b.date.year &&
    (a.date.month < b.date.month || (a.date.month == b.date.month &&
    (a.date.day < b.date.day || (a.date.day == b.date.day &&
    (a.hour < b.hour || (a.hour == b.hour &&
    (a.minute < b.minute || (a.minute == b.minute && a.second < b.second)))))))))
  }

  /**
   * The stored timestamp format sorts chronologically: comparing two `%Y-%m-%d %H:%M:%S` strings
   * by code point is the same as comparing the readings they were made from, to the second.
   */
  lemma DateTimeOrder(a: Instant, b: Instant)
    requires ValidInstant(a) && ValidInstant(b)
    ensures Less(FormatDateTime(a), FormatDateTime(b)) <==> SecondBefore(a, b)
  {
    var s1 := Pad(a.second, 2);
    var s2 := Pad(b.second, 2);
    PadOrder(a.second, b.second, 2);
    var m1 := Pad(a.minute, 2) + (":" + s1);
    var m2 := Pad(b.minute, 2) + (":" + s2);
    FieldOrder(a.minute, b.minute, 2, ":", s1, s2);
    var h1 := Pad(a.hour, 2) + (":" + m1);
    var h2 := Pad(b.hour, 2) + (":" + m2);
    FieldOrder(a.hour, b.hour, 2, ":", m1, m2);
    var d1 := Pad(a.date.day, 2) + (" " + h1);
    var d2 := Pad(b.date.day, 2) + (" " + h2);
    FieldOrder(a.date.day, b.date.day, 2, " ", h1, h2);
    var o1 := Pad(a.date.month, 2) + ("-" + d1);
    var o2 := Pad(b.date.month, 2) + ("-" + d2);
    FieldOrder(a.date.month, b.date.month, 2, "-", d1, d2);
    FieldOrder(a.date.year, b.date.year, 4, "-", o1, o2);
  }
}
