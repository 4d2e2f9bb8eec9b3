/** Calendar dates in the `YYYY-MM-DD` form used by the request parameters
    (the full-date production of section 5.6 of RFC 3339, with the month and
    leap-year limits of section 5.7), their day ordinals (day 1 is 0001-01-01,
    the proleptic Gregorian convention of Python's `date.toordinal`) and the
    whole-day difference `(end - start).days`. */
module Dates {
  import opened Wrappers

  datatype Date = Date(year: int, month: int, day: int)

  /** Gregorian leap years (RFC 3339, appendix C). */
  predicate IsLeapYear(y: int) {
    y % 4 == 0 && (y % 100 != 0 || y % 400 == 0)
  }

  function YearLength(y: int): int {
    if IsLeapYear(y) then 366 else 365
  }

  function DaysInMonth(y: int, m: int): (n: int)
    requires 1 <= m <= 12
    ensures 28 <= n <= 31
    ensures n == 29 <==> m == 2 && IsLeapYear(y)
  {
    if m == 2 then (if IsLeapYear(y) then 29 else 28)
    else if m == 4 || m == 6 || m == 9 || m == 11 then 30
    else 31
  }

  /** A date Python's `datetime` accepts: years 1 to 9999 and the
      month-specific day limits of section 5.7 of RFC 3339. */
  predicate IsValid(d: Date) {
    1 <= d.year <= 9999 && 1 <= d.month <= 12 && 1 <= d.day <= DaysInMonth(d.year, d.month)
  }

  /** Days in the years 1 .. y-1. */
  function DaysBeforeYear(y: int): (n: int)
    requires y >= 1
    ensures n >= 0
  {
    if y == 1 then 0 else DaysBeforeYear(y - 1) + YearLength(y - 1)
  }

  /** Days in the months 1 .. m-1 of year y. */
  function DaysBeforeMonth(y: int, m: int): int
    requires 1 <= m <= 12
  {
    [0, 31, 59, 90, 120, 151, 181, 212, 243, 273, 304, 334][m - 1]
      + (if m > 2 && IsLeapYear(y) then 1 else 0)
  }

  function Ordinal(d: Date): (n: int)
    requires IsValid(d)
    ensures n >= 1
  {
    DaysBeforeYear(d.year) + DaysBeforeMonth(d.year, d.month) + d.day
  }

  /** Calendar order: by year, then month, then day. */
  predicate Before(a: Date, b: Date) {
    a.year < b.year
    || (a.year == b.year && a.month < b.month)
    || (a.year == b.year && a.month == b.month && a.day < b.day)
  }

  /** The whole-day difference `(b - a).days` of two dates. */
  function DaysBetween(a: Date, b: Date): (n: int)
    requires IsValid(a) && IsValid(b)
    ensures n > 0 <==> Before(a, b)
    ensures n == 0 <==> a == b
    ensures n < 0 <==> Before(b, a)
  {
    OrdinalOrder(a, b);
    OrdinalOrder(b, a);
    Ordinal(b) - Ordinal(a)
  }

  lemma {:induction false} MonthsFit(y: int, m1: int, m2: int)
    requires 1 <= m1 < m2 <= 12
    ensures DaysBeforeMonth(y, m1) + DaysInMonth(y, m1) <= DaysBeforeMonth(y, m2)
    decreases m2
  {
    if m2 > m1 + 1 {
      MonthsFit(y, m1, m2 - 1);
    }
  }

  lemma MonthFitsInYear(y: int, m: int)
    requires 1 <= m <= 12
    ensures DaysBeforeMonth(y, m) + DaysInMonth(y, m) <= YearLength(y)
  {
    if m < 12 {
      MonthsFit(y, m, 12);
    }
  }

  lemma {:induction false} YearsFit(y1: int, y2: int)
    requires 1 <= y1 < y2
    ensures DaysBeforeYear(y1) + YearLength(y1) <= DaysBeforeYear(y2)
    decreases y2
  {
    if y2 > y1 + 1 {
      YearsFit(y1, y2 - 1);
    }
  }

  /** The ordinal is strictly monotone in calendar order, so comparing
      ordinals is comparing dates. */
  lemma OrdinalOrder(a: Date, b: Date)
    requires IsValid(a) && IsValid(b)
    ensures Before(a, b) <==> Ordinal(a) < Ordinal(b)
    ensures a == b <==> Ordinal(a) == Ordinal(b)
  {
    if a.year < b.year {
      MonthFitsInYear(a.year, a.month);
      YearsFit(a.year, b.year);
    } else if b.year < a.year {
      MonthFitsInYear(b.year, b.month);
      YearsFit(b.year, a.year);
    } else if a.month < b.month {
      MonthsFit(a.year, a.month, b.month);
    } else if b.month < a.month {
      MonthsFit(a.year, b.month, a.month);
    }
  }

  /** The day after d in the calendar: the next day of the month, else the
      first of the next month, else the first of the next year. */
  function NextDay(d: Date): (n: Date)
    requires IsValid(d) && Before(d, Date(9999, 12, 31))
    ensures IsValid(n) && Before(d, n)
  {
    if d.day < DaysInMonth(d.year, d.month) then Date(d.year, d.month, d.day + 1)
    else if d.month < 12 then Date(d.year, d.month + 1, 1)
    else Date(d.year + 1, 1, 1)
  }

  /** The first day has ordinal 1, as `date(1, 1, 1).toordinal()`. */
  lemma FirstOrdinal()
    ensures Ordinal(Date(1, 1, 1)) == 1
  {
  }

  /** Consecutive calendar days have consecutive ordinals. */
  lemma OrdinalNextDay(d: Date)
    requires IsValid(d) && Before(d, Date(9999, 12, 31))
    ensures Ordinal(NextDay(d)) == Ordinal(d) + 1
    ensures DaysBetween(d, NextDay(d)) == 1
  {
    if d.day == DaysInMonth(d.year, d.month) {
      if d.month < 12 {
        MonthEnd(d.year, d.month);
      } else {
        YearEnd(d.year);
      }
    }
  }

  lemma MonthEnd(y: int, m: int)
    requires 1 <= m < 12
    ensures DaysBeforeMonth(y, m + 1) == DaysBeforeMonth(y, m) + DaysInMonth(y, m)
  {
  }

  lemma YearEnd(y: int)
    requires y >= 1
    ensures DaysBeforeYear(y + 1) == DaysBeforeYear(y) + DaysBeforeMonth(y, 12) + DaysInMonth(y, 12)
  {
  }

  /** The closed form of the days before a year (Python's
      `_days_before_year`): 365 per year plus one per leap year. */
  lemma {:induction false} DaysBeforeYearClosed(y: int)
    requires y >= 1
    ensures DaysBeforeYear(y) == 365 * (y - 1) + (y - 1) / 4 - (y - 1) / 100 + (y - 1) / 400
    decreases y
  {
    if y > 1 {
      DaysBeforeYearClosed(y - 1);
      YearLengthByDivision(y - 1);
    }
  }

  /** A worked value: 2024-01-01 is day 738886, one day after 2023-12-31. */
  lemma DaysBetweenNewYear()
    ensures Ordinal(Date(2024, 1, 1)) == 738886
    ensures DaysBetween(Date(2023, 12, 31), Date(2024, 1, 1)) == 1
  {
    DaysBeforeYearClosed(2024);
    OrdinalNextDay(Date(2023, 12, 31));
  }

  /** A year's length as the steps of the three floor divisions. */
  lemma YearLengthByDivision(x: int)
    requires x >= 1
    ensures YearLength(x) == 365 + (x / 4 - (x - 1) / 4) - (x / 100 - (x - 1) / 100) + (x / 400 - (x - 1) / 400)
  {
    DivStep(x, 4);
    DivStep(x, 100);
    DivStep(x, 400);
    Multiples(x);
  }

  /** Multiples of 400 are multiples of 100, which are multiples of 4. */
  lemma Multiples(x: int)
    ensures x % 100 == 0 ==> x % 4 == 0
    ensures x % 400 == 0 ==> x % 100 == 0
  {
    if x % 100 == 0 {
      DivUnique(x, 4, 25 * (x / 100), 0);
    }
    if x % 400 == 0 {
      DivUnique(x, 100, 4 * (x / 400), 0);
    }
  }

  /** Floor division by k goes up by one exactly at multiples of k. */
  lemma DivStep(x: int, k: int)
    requires x >= 1 && k >= 1
    ensures x / k - (x - 1) / k == if x % k == 0 then 1 else 0
  {
    var q, r := x / k, x % k;
    assert x == k * q + r && 0 <= r < k;
    if r == 0 {
      assert x - 1 == k * (q - 1) + (k - 1);
      DivUnique(x - 1, k, q - 1, k - 1);
    } else {
      assert x - 1 == k * q + (r - 1);
      DivUnique(x - 1, k, q, r - 1);
    }
  }

  lemma DivUnique(x: int, k: int, q: int, r: int)
    requires k >= 1 && 0 <= r < k && x == k * q + r
    ensures x / k == q && x % k == r
  {
    var q', r' := x / k, x % k;
    assert k * q' + r' == k * q + r;
    if q' < q {
      MulDistrib(k, q, q');
      MulAtLeast(k, q - q');
    } else if q' > q {
      MulDistrib(k, q', q);
      MulAtLeast(k, q' - q);
    }
  }

  lemma MulDistrib(k: int, a: int, b: int)
    ensures k * a - k * b == k * (a - b)
  {
  }

  lemma {:induction false} MulAtLeast(k: int, n: int)
    requires k >= 1 && n >= 1
    ensures k * n >= k
    decreases n
  {
    if n > 1 {
      MulAtLeast(k, n - 1);
      assert k * n == k * (n - 1) + k;
    }
  }

  // ---- The YYYY-MM-DD text form ----

  predicate IsDigit(c: char) {
    '0' <= c <= '9'
  }

  function DigitValue(c: char): (n: int)
    requires IsDigit(c)
    ensures 0 <= n <= 9
  {
    c as int - '0' as int
  }

  function DigitChar(n: int): (c: char)
    requires 0 <= n <= 9
    ensures IsDigit(c) && DigitValue(c) == n
  {
    ('0' as int + n) as char
  }

  /** True when s[i..i+w] is w decimal digits. */
  predicate DigitsAt(s: string, i: nat, w: nat) {
    i + w <= |s| && forall k :: i <= k < i + w ==> IsDigit(s[k])
  }

  /** The value of the w digits starting at s[i], most significant first. */
  function NumberAt(s: string, i: nat, w: nat): (n: int)
    requires DigitsAt(s, i, w)
    decreases w
  {
    if w == 0 then 0 else 10 * NumberAt(s, i, w - 1) + DigitValue(s[i + w - 1])
  }

  /** n written with exactly w decimal digits, padded with leading zeros. */
  function Digits(n: int, w: nat): (s: string)
    requires 0 <= n
    decreases w
  {
    if w == 0 then [] else Digits(n / 10, w - 1) + [DigitChar(n % 10)]
  }

  function Pow10(w: nat): (p: int)
    ensures p >= 1
  {
    if w == 0 then 1 else 10 * Pow10(w - 1)
  }

  /** Parses a `YYYY-MM-DD` string; anything else, including a well-formed
      string naming a day that does not exist, gives None. */
  function Parse(s: string): (r: Option<Date>)
    ensures r.Some? ==> IsValid(r.value)
    ensures r.Some? ==> |s| == 10 && s[4] == '-' && s[7] == '-'
  {
    if |s| == 10 && s[4] == '-' && s[7] == '-'
       && DigitsAt(s, 0, 4) && DigitsAt(s, 5, 2) && DigitsAt(s, 8, 2)
    then
      var d := Date(NumberAt(s, 0, 4), NumberAt(s, 5, 2), NumberAt(s, 8, 2));
      if IsValid(d) then Some(d) else None
    else None
  }

  /** The `YYYY-MM-DD` form of a valid date. */
  function Format(d: Date): (s: string)
    requires IsValid(d)
    ensures |s| == 10
  {
    Digits(d.year, 4) + "-" + Digits(d.month, 2) + "-" + Digits(d.day, 2)
  }

  lemma {:induction false} DigitsRoundTrip(n: int, w: nat)
    requires 0 <= n < Pow10(w)
    ensures |Digits(n, w)| == w
    ensures DigitsAt(Digits(n, w), 0, w) && NumberAt(Digits(n, w), 0, w) == n
    decreases w
  {
    if w > 0 {
      DigitsRoundTrip(n / 10, w - 1);
      var s := Digits(n, w);
      var t := Digits(n / 10, w - 1);
      assert s == t + [DigitChar(n % 10)];
      NumberAtPrefix(s, t, w - 1);
    }
  }

  /** NumberAt only looks at the digits it reads. */
  lemma {:induction false} NumberAtPrefix(s: string, t: string, w: nat)
    requires w <= |t| <= |s| && t == s[..|t|]
    requires DigitsAt(t, 0, w)
    ensures DigitsAt(s, 0, w) && NumberAt(s, 0, w) == NumberAt(t, 0, w)
    decreases w
  {
    if w > 0 {
      NumberAtPrefix(s, t, w - 1);
    }
  }

  lemma NumberAtShift(s: string, i: nat, w: nat, t: string)
    requires DigitsAt(s, i, w) && i + w <= |s| && t == s[i..i + w]
    ensures DigitsAt(t, 0, w) && NumberAt(t, 0, w) == NumberAt(s, i, w)
    decreases w
  {
    if w > 0 {
      NumberAtShift(s, i, w - 1, s[i..i + w - 1]);
      NumberAtPrefix(t, s[i..i + w - 1], w - 1);
    }
  }

  /** Formatting and then parsing gives back the date. */
  lemma ParseFormat(d: Date)
    requires IsValid(d)
    ensures Parse(Format(d)) == Some(d)
  {
    var s := Format(d);
    DigitsRoundTrip(d.year, 4);
    DigitsRoundTrip(d.month, 2);
    DigitsRoundTrip(d.day, 2);
    NumberAtShift(s, 0, 4, Digits(d.year, 4));
    NumberAtShift(s, 5, 2, Digits(d.month, 2));
    NumberAtShift(s, 8, 2, Digits(d.day, 2));
  }

  lemma {:induction false} NumberBound(s: string, i: nat, w: nat)
    requires DigitsAt(s, i, w)
    ensures 0 <= NumberAt(s, i, w) < Pow10(w)
    decreases w
  {
    if w > 0 {
      NumberBound(s, i, w - 1);
    }
  }

  /** Writing back the number read from w digits gives the same digits. */
  lemma {:induction false} NumberRoundTrip(t: string, w: nat)
    requires |t| == w && DigitsAt(t, 0, w)
    ensures NumberAt(t, 0, w) >= 0 && Digits(NumberAt(t, 0, w), w) == t
    decreases w
  {
    NumberBound(t, 0, w);
    if w > 0 {
      var u := t[..w - 1];
      NumberAtPrefix(t, u, w - 1);
      NumberRoundTrip(u, w - 1);
      var n := NumberAt(t, 0, w);
      assert n / 10 == NumberAt(u, 0, w - 1);
      assert DigitChar(n % 10) == t[w - 1];
      assert t == u + [t[w - 1]];
    }
  }

  /** A string Parse accepts is the formatted form of what it parses to:
      each valid date has exactly one text form. */
  lemma FormatParse(s: string)
    requires Parse(s).Some?
    ensures Format(Parse(s).value) == s
  {
    var d := Parse(s).value;
    NumberAtShift(s, 0, 4, s[0..4]);
    NumberAtShift(s, 5, 2, s[5..7]);
    NumberAtShift(s, 8, 2, s[8..10]);
    NumberRoundTrip(s[0..4], 4);
    NumberRoundTrip(s[5..7], 2);
    NumberRoundTrip(s[8..10], 2);
    assert s == s[0..4] + "-" + s[5..7] + "-" + s[8..10];
  }
}
