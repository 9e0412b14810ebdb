/**
 * Release dates: Go's `time.Parse("2006-01-02", s)` seen as a calendar-date
 * validator, and `time.Time.After` on the dates it produces.
 */
module Dates {
  import opened Results
  import opened Strings

  /** A calendar day; the time of day and the zone are always midnight UTC for this layout. */
  datatype Date = Date(year: int, month: int, day: int)

  /** The proleptic Gregorian leap-year rule. */
  predicate IsLeapYear(y: int)
  {
    y % 4 == 0 && (y % 100 != 0 || y % 400 == 0)
  }

  function DaysIn(month: int, year: int): (n: int)
    requires 1 <= month <= 12
    ensures 28 <= n <= 31
    ensures n == 28 <==> month == 2 && !IsLeapYear(year)
    ensures n == 29 <==> month == 2 && IsLeapYear(year)
    ensures n == 31 <==> month in {1, 3, 5, 7, 8, 10, 12}
  {
    if month == 2 then (if IsLeapYear(year) then 29 else 28)
    else if month in {4, 6, 9, 11} then 30
    else 31
  }

  /** A date the four-digit layout can spell and the calendar has. */
  predicate ValidDate(d: Date)
  {
    0 <= d.year <= 9999 && 1 <= d.month <= 12 && 1 <= d.day <= DaysIn(d.month, d.year)
  }

  /** Later in time: years first, then months, then days. */
  predicate After(a: Date, b: Date)
  {
    a.year > b.year || (a.year == b.year && (a.month > b.month || (a.month == b.month && a.day > b.day)))
  }

  /** After is a strict total order on dates. */
  lemma AfterIsStrictTotalOrder(a: Date, b: Date, c: Date)
    ensures !After(a, a)
    ensures After(a, b) ==> !After(b, a)
    ensures After(a, b) && After(b, c) ==> After(a, c)
    ensures a == b || After(a, b) || After(b, a)
  {
  }

  function Pad2(n: nat): (s: string)
    requires n <= 99
    ensures |s| == 2 && AllDigits(s)
  {
    [DigitChar(n / 10), DigitChar(n % 10)]
  }

  function Pad4(n: nat): (s: string)
    requires n <= 9999
    ensures |s| == 4 && AllDigits(s)
  {
    Pad2(n / 100) + Pad2(n % 100)
  }

  /** The exact shape of the layout: four digits, '-', two digits, '-', two digits. */
  predicate MatchesLayout(s: string)
  {
    |s| == 10 && s[4] == '-' && s[7] == '-' &&
    forall k :: 0 <= k < 10 && k != 4 && k != 7 ==> IsDigit(s[k])
  }

  /** The "2006-01-02" rendering of a date. */
  function FormatDate(d: Date): (s: string)
    requires 0 <= d.year <= 9999 && 0 <= d.month <= 99 && 0 <= d.day <= 99
    ensures MatchesLayout(s)
  {
    Pad4(d.year) + "-" + Pad2(d.month) + "-" + Pad2(d.day)
  }

  function Number2(s: string): (n: nat)
    requires |s| == 2 && AllDigits(s)
    ensures n <= 99 && Pad2(n) == s
  {
    10 * DigitValue(s[0]) + DigitValue(s[1])
  }

  function Number4(s: string): (n: nat)
    requires |s| == 4 && AllDigits(s)
    ensures n <= 9999 && Pad4(n) == s
  {
    var hi, lo := Number2(s[..2]), Number2(s[2..]);
    assert (100 * hi + lo) / 100 == hi && (100 * hi + lo) % 100 == lo;
    assert s == s[..2] + s[2..];
    100 * hi + lo
  }

  /**
   * time.Parse with layout "2006-01-02": a date exactly when the text has
   * the layout's shape, the month is 1..12 and the day exists in that
   * month of that year; otherwise an error.
   */
  function ParseDate(s: string): (r: Option<Date>)
    ensures r.Some? ==> ValidDate(r.value) && FormatDate(r.value) == s
  {
    if !MatchesLayout(s) then None
    else
      assert AllDigits(s[0..4]) && AllDigits(s[5..7]) && AllDigits(s[8..10]);
      var d := Date(Number4(s[0..4]), Number2(s[5..7]), Number2(s[8..10]));
      if 1 <= d.month <= 12 && 1 <= d.day <= DaysIn(d.month, d.year) then
        assert s == s[0..4] + "-" + s[5..7] + "-" + s[8..10];
        Some(d)
      else None
  }

  lemma Pad2Value(n: nat)
    requires n <= 99
    ensures Number2(Pad2(n)) == n
  {
  }

  lemma Pad4Value(n: nat)
    requires n <= 9999
    ensures Number4(Pad4(n)) == n
  {
    var s := Pad4(n);
    assert s[..2] == Pad2(n / 100) && s[2..] == Pad2(n % 100);
    Pad2Value(n / 100);
    Pad2Value(n % 100);
  }

  /** Every valid date, written in the layout, parses back to itself. */
  lemma {:induction false} ParseFormatRoundTrip(d: Date)
    requires ValidDate(d)
    ensures ParseDate(FormatDate(d)) == Some(d)
  {
    var s := FormatDate(d);
    assert s[0..4] == Pad4(d.year) && s[5..7] == Pad2(d.month) && s[8..10] == Pad2(d.day);
    Pad4Value(d.year);
    Pad2Value(d.month);
    Pad2Value(d.day);
  }

  /** The two releases of the homepage example, in the order the homepage lists them. */
  lemma LaterReleaseFirst()
    ensures ParseDate("2024-03-01") == Some(Date(2024, 3, 1))
    ensures ParseDate("2024-01-01") == Some(Date(2024, 1, 1))
    ensures After(Date(2024, 3, 1), Date(2024, 1, 1))
  {
    assert Pad4(2024) == "2024" by { assert Pad2(20) == "20"; assert Pad2(24) == "24"; }
    assert Pad2(3) == "03" && Pad2(1) == "01";
    assert FormatDate(Date(2024, 3, 1)) == "2024-03-01";
    assert FormatDate(Date(2024, 1, 1)) == "2024-01-01";
    ParseFormatRoundTrip(Date(2024, 3, 1));
    ParseFormatRoundTrip(Date(2024, 1, 1));
  }

  /** February 29 exists in a leap year. */
  lemma LeapDayAccepted()
    ensures ParseDate("2024-02-29") == Some(Date(2024, 2, 29))
  {
    assert Pad4(2024) == "2024" by { assert Pad2(20) == "20"; assert Pad2(24) == "24"; }
    assert Pad2(2) == "02" && Pad2(29) == "29";
    assert FormatDate(Date(2024, 2, 29)) == "2024-02-29";
    ParseFormatRoundTrip(Date(2024, 2, 29));
  }

  /** February 29 of a common year is rejected, though it has the layout's shape. */
  lemma CommonYearLeapDayRejected()
    ensures ParseDate("2023-02-29") == None
  {
    var s := "2023-02-29";
    assert MatchesLayout(s);
    assert s[0..4] == Pad4(2023) by { assert Pad2(20) == "20"; assert Pad2(23) == "23"; }
    Pad4Value(2023);
    assert s[5..7] == Pad2(2) && s[8..10] == Pad2(29);
    Pad2Value(2);
    Pad2Value(29);
  }

  /** A one-digit month does not match the layout. */
  lemma ShortMonthRejected()
    ensures ParseDate("2024-1-05") == None
  {
    assert "2024-1-05"[4] == '-';
  }
}
