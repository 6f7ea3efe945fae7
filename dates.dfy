/**
 * Calendar dates and their "yyyy-MM-dd" text, the full-date form of section
 * 5.6 of RFC 3339, which `DateTime.ToString("yyyy-MM-dd")` writes and
 * `DateTime.TryParse` reads back.
 */
module Dates {
  import opened Wrappers
  import opened Text

  datatype Date = Date(year: int, month: int, day: int)

  predicate IsLeapYear(y: int) {
    y % 4 == 0 && (y % 100 != 0 || y % 400 == 0)
  }

  function DaysInMonth(y: int, m: int): int
    requires 1 <= m <= 12
  {
    if m == 2 then (if IsLeapYear(y) then 29 else 28)
    else if m == 4 || m == 6 || m == 9 || m == 11 then 30
    else 31
  }

  /** A date `System.DateTime` can hold: years 1 to 9999. */
  predicate ValidDate(d: Date) {
    1 <= d.year <= 9999 && 1 <= d.month <= 12 && 1 <= d.day <= DaysInMonth(d.year, d.month)
  }

  /** Strict calendar order: `a < b` on `DateTime.Date`. */
  predicate Before(a: Date, b: Date) {
    a.year < b.year || (a.year == b.year && (a.month < b.month || (a.month == b.month && a.day < b.day)))
  }

  /** 100-nanosecond ticks in a day. */
  const TicksPerDay: int := 864_000_000_000

  /** A `System.DateTime`: a calendar date and the ticks elapsed since its midnight. */
  datatype DateTime = DateTime(date: Date, timeOfDay: int) {
    /** `dt.Date`: the same day at midnight. */
    function Midnight(): DateTime {
      DateTime(date, 0)
    }
  }

  predicate ValidDateTime(t: DateTime) {
    ValidDate(t.date) && 0 <= t.timeOfDay < TicksPerDay
  }

  /** A value `System.DateTime` can hold, such as `DateTime.Now`. */
  type Instant = t: DateTime | ValidDateTime(t) witness DateTime(Date(1, 1, 1), 0)

  /** `DateTime.MinValue`, which is also `default(DateTime)`: midnight on 1 January of year 1. */
  const MinValue: Instant := DateTime(Date(1, 1, 1), 0)

  function Pow10(w: nat): (p: nat)
    ensures p >= 1
  {
    if w == 0 then 1 else 10 * Pow10(w - 1)
  }

  /** The last `w` decimal digits of `n`, zero-padded on the left. */
  function Pad(n: nat, w: nat): (s: string)
    ensures |s| == w && AllDigits(s)
  {
    if w == 0 then "" else Pad(n / 10, w - 1) + [DigitChar(n % 10)]
  }

  /** `d.ToString("yyyy-MM-dd")`. */
  function FormatDate(d: Date): string
    requires ValidDate(d)
  {
    Pad(d.year, 4) + "-" + Pad(d.month, 2) + "-" + Pad(d.day, 2)
  }

  /**
   * `DateTime.TryParse` restricted to the "yyyy-MM-dd" form: four, two and two
   * digits separated by hyphens, naming a real calendar date.
   */
  function ParseDate(s: string): (r: Option<Date>)
    ensures r.Some? ==> ValidDate(r.value)
  {
    if |s| == 10 && s[4] == '-' && s[7] == '-'
       && AllDigits(s[0..4]) && AllDigits(s[5..7]) && AllDigits(s[8..10])
    then
      var d := Date(DigitsValue(s[0..4]), DigitsValue(s[5..7]), DigitsValue(s[8..10]));
      if ValidDate(d) then Some(d) else None
    else
      None
  }

  lemma {:induction false} DigitsValueOfPad(n: nat, w: nat)
    requires n < Pow10(w)
    ensures DigitsValue(Pad(n, w)) == n
  {
    if w > 0 {
      var s := Pad(n, w);
      assert s[..w - 1] == Pad(n / 10, w - 1);
      assert n / 10 < Pow10(w - 1);
      DigitsValueOfPad(n / 10, w - 1);
    }
  }

  lemma {:induction false} PadOfDigitsValue(s: string)
    requires AllDigits(s)
    ensures Pad(DigitsValue(s), |s|) == s
  {
    if s != [] {
      var init := s[..|s| - 1];
      var v := DigitsValue(s);
      var d := DigitValue(s[|s| - 1]);
      assert v == DigitsValue(init) * 10 + d;
      assert v / 10 == DigitsValue(init) && v % 10 == d;
      PadOfDigitsValue(init);
      assert s == init + [s[|s| - 1]];
    }
  }

  /** Writing a date and reading it back gives the same date. */
  lemma ParseFormatDate(d: Date)
    requires ValidDate(d)
    ensures ParseDate(FormatDate(d)) == Some(d)
  {
    var s := FormatDate(d);
    assert s[0..4] == Pad(d.year, 4);
    assert s[5..7] == Pad(d.month, 2);
    assert s[8..10] == Pad(d.day, 2);
    DigitsValueOfPad(d.year, 4);
    DigitsValueOfPad(d.month, 2);
    DigitsValueOfPad(d.day, 2);
  }

  /** `ParseDate` accepts no other text for a date than that date's own "yyyy-MM-dd" text. */
  lemma FormatParseDate(s: string)
    requires ParseDate(s).Some?
    ensures FormatDate(ParseDate(s).value) == s
  {
    var y, m, dd := s[0..4], s[5..7], s[8..10];
    var d := ParseDate(s).value;
    assert d == Date(DigitsValue(y), DigitsValue(m), DigitsValue(dd));
    PadOfDigitsValue(y);
    PadOfDigitsValue(m);
    PadOfDigitsValue(dd);
    DateTextParts(s);
  }

  /** A ten-character text with hyphens at 4 and 7 is its three digit groups joined by hyphens. */
  lemma DateTextParts(s: string)
    requires |s| == 10 && s[4] == '-' && s[7] == '-'
    ensures s == s[0..4] + "-" + s[5..7] + "-" + s[8..10]
  {
  }

  /** Different valid dates have different texts. */
  lemma FormatDateInjective(a: Date, b: Date)
    requires ValidDate(a) && ValidDate(b) && FormatDate(a) == FormatDate(b)
    ensures a == b
  {
    ParseFormatDate(a);
    ParseFormatDate(b);
  }
}
