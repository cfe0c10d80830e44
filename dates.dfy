/**
  Calendar dates as accepted by the strict `YYYY-MM-DD` parse of the
  measurement query (the full-date grammar of section 5.6 of RFC 3339, with
  the month and leap-year limits of section 5.7), day numbers counted from
  0000-01-01 of the proleptic Gregorian calendar, and the instant (in
  milliseconds) of a day's midnight.
*/
module Dates {
  import opened Wrappers

  datatype Date = Date(year: int, month: int, day: int)

  const MsPerDay: int := 86_400_000

  predicate IsLeapYear(y: int) {
    (y % 4 == 0 && y % 100 != 0) || y % 400 == 0
  }

  function DaysInMonth(y: int, m: int): int {
    if m == 2 then (if IsLeapYear(y) then 29 else 28)
    else if m == 4 || m == 6 || m == 9 || m == 11 then 30
    else 31
  }

  function DaysInYear(y: int): int {
    if IsLeapYear(y) then 366 else 365
  }

  /** A four-digit year, a month 01-12 and a day that exists in that month of that year. */
  predicate ValidDate(d: Date) {
    0 <= d.year <= 9999 && 1 <= d.month <= 12 && 1 <= d.day <= DaysInMonth(d.year, d.month)
  }

  predicate IsDigit(c: char) {
    '0' <= c <= '9'
  }

  function DigitValue(c: char): (n: nat)
    requires IsDigit(c)
    ensures n < 10
  {
    (c as int) - ('0' as int)
  }

  function DigitChar(n: nat): (c: char)
    requires n < 10
    ensures IsDigit(c) && DigitValue(c) == n
  {
    (('0' as int) + n) as char
  }

  /** The shape `dddd-dd-dd`: ten characters, dashes at positions 4 and 7, digits elsewhere. */
  predicate HasDateShape(s: string) {
    |s| == 10 && s[4] == '-' && s[7] == '-' &&
    forall i :: 0 <= i < 10 && i != 4 && i != 7 ==> IsDigit(s[i])
  }

  function Pad2(n: nat): (s: string)
    requires n < 100
  {
    [DigitChar(n / 10), DigitChar(n % 10)]
  }

  /** Four digits: the hundreds, then the last two digits. */
  function Pad4(n: nat): (s: string)
    requires n < 10000
  {
    Pad2(n / 100) + Pad2(n % 100)
  }

  /** The value of two decimal digits. */
  function Decimal2(s: string): nat
    requires |s| == 2 && IsDigit(s[0]) && IsDigit(s[1])
  {
    10 * DigitValue(s[0]) + DigitValue(s[1])
  }

  /** The value of four decimal digits. */
  function Decimal4(s: string): nat
    requires |s| == 4 && forall i :: 0 <= i < 4 ==> IsDigit(s[i])
  {
    100 * Decimal2(s[..2]) + Decimal2(s[2..])
  }

  lemma DigitRoundTrip(c: char)
    requires IsDigit(c)
    ensures DigitChar(DigitValue(c)) == c
  {
  }

  lemma Pad2RoundTrip(n: nat)
    requires n < 100
    ensures Decimal2(Pad2(n)) == n
  {
  }

  lemma Pad4RoundTrip(n: nat)
    requires n < 10000
    ensures Decimal4(Pad4(n)) == n
  {
    var p := Pad4(n);
    assert p[..2] == Pad2(n / 100) && p[2..] == Pad2(n % 100);
    Pad2RoundTrip(n / 100);
    Pad2RoundTrip(n % 100);
  }

  lemma Decimal2RoundTrip(s: string)
    requires |s| == 2 && IsDigit(s[0]) && IsDigit(s[1])
    ensures Decimal2(s) < 100 && Pad2(Decimal2(s)) == s
  {
    DigitRoundTrip(s[0]);
    DigitRoundTrip(s[1]);
  }

  lemma Decimal4RoundTrip(s: string)
    requires |s| == 4 && forall i :: 0 <= i < 4 ==> IsDigit(s[i])
    ensures Decimal4(s) < 10000 && Pad4(Decimal4(s)) == s
  {
    var hi, lo := Decimal2(s[..2]), Decimal2(s[2..]);
    Decimal2RoundTrip(s[..2]);
    Decimal2RoundTrip(s[2..]);
    assert Decimal4(s) / 100 == hi && Decimal4(s) % 100 == lo;
    assert s == s[..2] + s[2..];
  }

  /** The canonical `YYYY-MM-DD` spelling of a valid date. */
  function FormatDate(d: Date): (s: string)
    requires ValidDate(d)
    ensures HasDateShape(s)
  {
    Pad4(d.year) + "-" + Pad2(d.month) + "-" + Pad2(d.day)
  }

  /**
    The strict parse: exactly four year digits, a dash, two month digits, a
    dash, two day digits, and the date must exist. Nothing lenient: a missing
    leading zero, a month 13 or a 30th of February is rejected.
  */
  function ParseDate(s: string): (r: Option<Date>)
    ensures r.Some? ==> ValidDate(r.value) && FormatDate(r.value) == s
  {
    if !HasDateShape(s) then None
    else
      var date := Date(Decimal4(s[0..4]), Decimal2(s[5..7]), Decimal2(s[8..10]));
      if ValidDate(date) then
        Decimal4RoundTrip(s[0..4]);
        Decimal2RoundTrip(s[5..7]);
        Decimal2RoundTrip(s[8..10]);
        assert s == s[0..4] + "-" + s[5..7] + "-" + s[8..10];
        Some(date)
      else None
  }

  /** Every valid date is accepted in its canonical spelling, so the parse rejects nothing it should accept. */
  lemma ParseFormat(d: Date)
    requires ValidDate(d)
    ensures ParseDate(FormatDate(d)) == Some(d)
  {
    var s := FormatDate(d);
    assert s[0..4] == Pad4(d.year) && s[5..7] == Pad2(d.month) && s[8..10] == Pad2(d.day);
    Pad4RoundTrip(d.year);
    Pad2RoundTrip(d.month);
    Pad2RoundTrip(d.day);
  }

  /** A string is accepted exactly when it is the canonical spelling of a valid date. */
  lemma ParseAcceptsExactlyCanonical(s: string, d: Date)
    ensures ParseDate(s) == Some(d) <==> ValidDate(d) && FormatDate(d) == s
  {
    if ValidDate(d) && FormatDate(d) == s {
      ParseFormat(d);
    }
  }

  /** A one-digit month or day is not padded: rejected, not read leniently. */
  lemma RejectsUnpaddedDate()
    ensures ParseDate("2024-1-1") == None
  {
    assert |"2024-1-1"| == 8;
  }

  /** A month beyond 12 (and a day beyond 31) is rejected, not rolled over. */
  lemma RejectsOverflowingDate()
    ensures ParseDate("2024-13-40") == None
  {
    var s := "2024-13-40";
    assert HasDateShape(s);
    assert s[5..7] == "13" && Decimal2(s[5..7]) == 13;
  }

  /** The 29th of February exists in leap years only. */
  lemma LeapDayExistsOnlyInLeapYears()
    ensures ParseDate("2023-02-29") == None
    ensures ParseDate("2024-02-29") == Some(Date(2024, 2, 29))
  {
    var t := "2023-02-29";
    assert HasDateShape(t);
    assert t[0..4] == "2023" && Decimal4(t[0..4]) == 2023;
    assert t[5..7] == "02" && Decimal2(t[5..7]) == 2;
    assert t[8..10] == "29" && Decimal2(t[8..10]) == 29;
    var u := "2024-02-29";
    assert HasDateShape(u);
    assert u[0..4] == "2024" && Decimal4(u[0..4]) == 2024;
    assert u[5..7] == "02" && Decimal2(u[5..7]) == 2;
    assert u[8..10] == "29" && Decimal2(u[8..10]) == 29;
  }

  /** Days of year `y` before the first of month `m`. */
  function DaysBeforeMonth(y: int, m: int): int {
    var leapDay := if m > 2 && IsLeapYear(y) then 1 else 0;
    leapDay +
    (if m <= 1 then 0 else if m == 2 then 31 else if m == 3 then 59 else if m == 4 then 90
     else if m == 5 then 120 else if m == 6 then 151 else if m == 7 then 181
     else if m == 8 then 212 else if m == 9 then 243 else if m == 10 then 273
     else if m == 11 then 304 else 334)
  }

  /** Days from 0000-01-01 to the first of January of year `y`. */
  function DaysBeforeYear(y: nat): nat {
    if y == 0 then 0 else DaysBeforeYear(y - 1) + DaysInYear(y - 1)
  }

  /** Number of days from 0000-01-01 to `d`. */
  function DayNumber(d: Date): int
    requires ValidDate(d)
  {
    DaysBeforeYear(d.year) + DaysBeforeMonth(d.year, d.month) + d.day - 1
  }

  /** The instant, in milliseconds, at which day number `day` begins. */
  function Midnight(day: int): int {
    day * MsPerDay
  }

  /** Lexicographic (year, month, day) order: calendar order. */
  predicate Precedes(a: Date, b: Date) {
    a.year < b.year ||
    (a.year == b.year && (a.month < b.month || (a.month == b.month && a.day < b.day)))
  }

  lemma DayOfYearBound(d: Date)
    requires ValidDate(d)
    ensures 0 <= DaysBeforeMonth(d.year, d.month) + d.day - 1 < DaysInYear(d.year)
  {
  }

  lemma MonthOrder(y: int, m1: int, d1: int, m2: int, d2: int)
    requires ValidDate(Date(y, m1, d1)) && ValidDate(Date(y, m2, d2)) && m1 < m2
    ensures DaysBeforeMonth(y, m1) + d1 < DaysBeforeMonth(y, m2) + d2
  {
  }

  lemma {:induction false} YearOrder(y1: nat, y2: nat)
    requires y1 < y2
    ensures DaysBeforeYear(y1) + DaysInYear(y1) <= DaysBeforeYear(y2)
    decreases y2
  {
    if y1 + 1 < y2 {
      YearOrder(y1, y2 - 1);
    }
  }

  /** Day numbers follow calendar order, in both directions. */
  lemma DayNumberOrder(a: Date, b: Date)
    requires ValidDate(a) && ValidDate(b)
    ensures DayNumber(a) < DayNumber(b) <==> Precedes(a, b)
    ensures DayNumber(a) == DayNumber(b) <==> a == b
  {
    DayOfYearBound(a);
    DayOfYearBound(b);
    if a.year < b.year {
      YearOrder(a.year, b.year);
    } else if b.year < a.year {
      YearOrder(b.year, a.year);
    } else if a.month < b.month {
      MonthOrder(a.year, a.month, a.day, b.month, b.day);
    } else if b.month < a.month {
      MonthOrder(a.year, b.month, b.day, a.month, a.day);
    }
  }

  /** Midnights are strictly increasing in the day number. */
  lemma MidnightOrder(d1: int, d2: int)
    ensures Midnight(d1) < Midnight(d2) <==> d1 < d2
  {
  }
}
