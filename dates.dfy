/** The calendar arithmetic the views get from JavaScript's `Date`:
    month lengths and weekdays in the proleptic Gregorian calendar, month
    overflow in the `Date(year, month, day)` constructor, the zero-padded
    `YYYY-MM-DD` key the calendar builds, and reading such a string back
    (the `full-date` form of section 5.6 of RFC 3339, with the month lengths
    of section 5.7). */
module Dates {
  import opened Types

  /** A day as the local getters report it: full year, month index 0..11
      (`getMonth()`), day of month. */
  datatype CalDate = CalDate(year: int, month: int, day: int)

  predicate IsLeapYear(y: int)
  {
    (y % 4 == 0 && y % 100 != 0) || y % 400 == 0
  }

  /** Number of days of month index `m` (0 = January) of year `y`. */
  function DaysInMonth(y: int, m: int): (n: int)
    requires 0 <= m < 12
    ensures 28 <= n <= 31
    ensures n == 29 <==> m == 1 && IsLeapYear(y)
    ensures n == 28 <==> m == 1 && !IsLeapYear(y)
  {
    if m == 1 then (if IsLeapYear(y) then 29 else 28)
    else if m == 3 || m == 5 || m == 8 || m == 10 then 30
    else 31
  }

  predicate ValidDate(c: CalDate)
  {
    0 <= c.month < 12 && 1 <= c.day <= DaysInMonth(c.year, c.month)
  }

  // ---------------------------------------------------------------------
  // Day numbers and weekdays

  function DaysBeforeMonth(y: int, m: int): int
    requires 0 <= m <= 12
  {
    if m == 0 then 0 else DaysBeforeMonth(y, m - 1) + DaysInMonth(y, m - 1)
  }

  /** Days from 0001-01-01 to January 1st of year `y` (negative before). */
  function DaysBeforeYear(y: int): int
  {
    var p := y - 1;
    365 * p + p / 4 - p / 100 + p / 400
  }

  /** Days from 0001-01-01 (day 0, a Monday) to day `d` of month `m` of
      year `y`; like the `Date` constructor, `d` may lie outside the month
      (day 0 is the last day of the month before). */
  function DayNumber(y: int, m: int, d: int): int
    requires 0 <= m < 12
  {
    DaysBeforeYear(y) + DaysBeforeMonth(y, m) + d - 1
  }

  /** `new Date(y, m, d).getDay()`: 0 = Sunday, ..., 6 = Saturday. */
  function Weekday(y: int, m: int, d: int): (w: int)
    requires 0 <= m < 12
    ensures 0 <= w < 7
  {
    (DayNumber(y, m, d) + 1) % 7
  }

  /** `new Date(y, m, 1)` for any month index `m`: months outside 0..11
      carry into the year (month 12 is January of the next year, month -1
      December of the previous one). */
  function FirstOfMonth(y: int, m: int): (c: CalDate)
    ensures 0 <= c.month < 12 && c.day == 1
    ensures c.year * 12 + c.month == y * 12 + m
  {
    CalDate(y + m / 12, m % 12, 1)
  }

  /** The months of a year add up to 365 days, or 366 in a leap year. */
  lemma DaysInYear(y: int)
    ensures DaysBeforeMonth(y, 12) == if IsLeapYear(y) then 366 else 365
  {
    var feb := DaysInMonth(y, 1);
    assert DaysBeforeMonth(y, 1) == 31;
    assert DaysBeforeMonth(y, 2) == 31 + feb;
    assert DaysBeforeMonth(y, 3) == 62 + feb;
    assert DaysBeforeMonth(y, 4) == 92 + feb;
    assert DaysBeforeMonth(y, 5) == 123 + feb;
    assert DaysBeforeMonth(y, 6) == 153 + feb;
    assert DaysBeforeMonth(y, 7) == 184 + feb;
    assert DaysBeforeMonth(y, 8) == 215 + feb;
    assert DaysBeforeMonth(y, 9) == 245 + feb;
    assert DaysBeforeMonth(y, 10) == 276 + feb;
    assert DaysBeforeMonth(y, 11) == 306 + feb;
  }

  /** Stepping from `y - 1` to `y` passes a multiple of `k` exactly when `k` divides `y`. */
  lemma DivStep(y: int, k: int)
    requires k == 4 || k == 100 || k == 400
    ensures y / k - (y - 1) / k == if y % k == 0 then 1 else 0
  {
    if k == 4 {
      assert y / 4 - (y - 1) / 4 == if y % 4 == 0 then 1 else 0;
    } else if k == 100 {
      assert y / 100 - (y - 1) / 100 == if y % 100 == 0 then 1 else 0;
    } else {
      assert y / 400 - (y - 1) / 400 == if y % 400 == 0 then 1 else 0;
    }
  }

  /** The closed form for January 1st advances by the length of the year. */
  lemma YearLength(y: int)
    ensures DaysBeforeYear(y + 1) - DaysBeforeYear(y) == DaysBeforeMonth(y, 12)
  {
    DivStep(y, 4);
    DivStep(y, 100);
    DivStep(y, 400);
    MultipleChain(y);
    DaysInYear(y);
  }

  /** A multiple of 400 is a multiple of 100, which is a multiple of 4. */
  lemma MultipleChain(y: int)
    ensures y % 400 == 0 ==> y % 100 == 0
    ensures y % 100 == 0 ==> y % 4 == 0
  {
    if y % 400 == 0 {
      var q := y / 400;
      assert y == 400 * q;
      MultipleOf400(q);
    }
    if y % 100 == 0 {
      var q := y / 100;
      assert y == 100 * q;
      MultipleOf100(q);
    }
  }

  lemma MultipleOf400(q: int)
    ensures (400 * q) % 100 == 0
  {
  }

  lemma MultipleOf100(q: int)
    ensures (100 * q) % 4 == 0
  {
  }

  /** `new Date(y, m + 1, 0).getDate()`, "day 0 of the next month", is the
      last day of month `m`: the day number of day 0 of the following
      month is that of day `DaysInMonth(y, m)` of month `m`. */
  lemma {:induction false} DayZeroOfNextMonth(y: int, m: int)
    requires 0 <= m < 12
    ensures var c := FirstOfMonth(y, m + 1);
            DayNumber(c.year, c.month, 0) == DayNumber(y, m, DaysInMonth(y, m))
  {
    if m == 11 {
      assert FirstOfMonth(y, m + 1) == CalDate(y + 1, 0, 1);
      assert DaysBeforeMonth(y, 12) == DaysBeforeMonth(y, 11) + DaysInMonth(y, 11);
      YearLength(y);
    } else {
      assert FirstOfMonth(y, m + 1) == CalDate(y, m + 1, 1);
    }
  }

  /** Within a month the weekday advances one step per day, so the cell
      `Weekday(y, m, 1) + d - 1` of a Sunday-first grid lies in column
      `Weekday(y, m, d)`. */
  lemma WeekdayOfDay(y: int, m: int, d: int)
    requires 0 <= m < 12
    ensures Weekday(y, m, d) == (Weekday(y, m, 1) + d - 1) % 7
  {
    var n := DayNumber(y, m, 1) + 1;
    assert DayNumber(y, m, d) + 1 == n + d - 1;
    ModShift(n, d);
  }

  lemma ModShift(n: int, d: int)
    ensures (n + d - 1) % 7 == (n % 7 + d - 1) % 7
  {
    var q := n / 7;
    assert n == 7 * q + n % 7;
    assert n + d - 1 == 7 * q + (n % 7 + d - 1);
  }

  /** The first weekday of the next month follows from the length of this one. */
  lemma NextMonthWeekday(y: int, m: int)
    requires 0 <= m < 12
    ensures var c := FirstOfMonth(y, m + 1);
            Weekday(c.year, c.month, 1) == (Weekday(y, m, 1) + DaysInMonth(y, m)) % 7
  {
    DayZeroOfNextMonth(y, m);
    WeekdayOfDay(y, m, DaysInMonth(y, m) + 1);
  }

  // ---------------------------------------------------------------------
  // Decimal strings

  predicate IsDigit(c: char)
  {
    '0' <= c <= '9'
  }

  predicate AllDigits(s: string)
  {
    forall i :: 0 <= i < |s| ==> IsDigit(s[i])
  }

  function DigitChar(n: int): (c: char)
    requires 0 <= n < 10
    ensures IsDigit(c)
  {
    ('0' as int + n) as char
  }

  function DigitValue(c: char): int
    requires IsDigit(c)
  {
    c as int - '0' as int
  }

  /** The number a string of decimal digits denotes (`Number(s)`). */
  function DigitsValue(s: string): nat
    requires AllDigits(s)
  {
    if s == [] then 0 else DigitsValue(s[..|s| - 1]) * 10 + DigitValue(s[|s| - 1])
  }

  /** `String(n)` for a natural number: its decimal digits, no leading zero. */
  function NatToString(n: nat): string
  {
    if n < 10 then [DigitChar(n)] else NatToString(n / 10) + [DigitChar(n % 10)]
  }

  /** `String(n)` for an integer. */
  function IntToString(i: int): string
  {
    if i < 0 then "-" + NatToString(-i) else NatToString(i)
  }

  /** `String(n).padStart(2, '0')`: a zero in front of a one-digit number;
      longer numbers are not cut. */
  function Pad2(n: nat): string
  {
    if n < 10 then "0" + NatToString(n) else NatToString(n)
  }

  /** The key the calendar builds for day `d` of month index `m` of year
      `y`: `${y}-${pad2(m + 1)}-${pad2(d)}`. */
  function DateKey(y: int, m: int, d: nat): string
    requires 0 <= m < 12
  {
    IntToString(y) + "-" + Pad2(m + 1) + "-" + Pad2(d)
  }

  /** `new Date(s)` read back through the local getters, for strings of the
      RFC 3339 `full-date` form: `None` stands for an Invalid Date, whose
      getters return NaN and so match no year or month. */
  function ParseDate(s: string): (r: Option<CalDate>)
    ensures r.Some? ==> ValidDate(r.value) && 0 <= r.value.year <= 9999
  {
    if |s| == 10 && s[4] == '-' && s[7] == '-'
       && AllDigits(s[..4]) && AllDigits(s[5..7]) && AllDigits(s[8..]) then
      DigitsBound(s[..4]);
      ParseFields(DigitsValue(s[..4]), DigitsValue(s[5..7]), DigitsValue(s[8..]))
    else None
  }

  /** The day a year, a month number 1..12 and a day number denote, when
      that day exists. */
  function ParseFields(y: int, mo: int, d: int): (r: Option<CalDate>)
    ensures r.Some? ==> ValidDate(r.value) && r.value.year == y
  {
    if 1 <= mo <= 12 && 1 <= d <= DaysInMonth(y, mo - 1) then Some(CalDate(y, mo - 1, d))
    else None
  }

  function Pow10(k: nat): nat
  {
    if k == 0 then 1 else 10 * Pow10(k - 1)
  }

  lemma {:induction false} DigitsBound(s: string)
    requires AllDigits(s)
    ensures DigitsValue(s) < Pow10(|s|)
  {
    if s != [] {
      DigitsBound(s[..|s| - 1]);
    }
  }

  /** A leading zero adds nothing to the value. */
  lemma {:induction false} LeadingZero(s: string)
    requires AllDigits(s) && |s| >= 1 && s[0] == '0'
    ensures DigitsValue(s) == DigitsValue(s[1..])
  {
    if |s| > 1 {
      var p := s[..|s| - 1];
      LeadingZero(p);
      assert p[1..] == s[1..][..|s| - 2];
    }
  }

  /** A leading digit other than zero makes the value at least 10^(|s|-1). */
  lemma {:induction false} LeadingNonZero(s: string)
    requires AllDigits(s) && |s| >= 1 && s[0] != '0'
    ensures DigitsValue(s) >= Pow10(|s| - 1)
  {
    if |s| > 1 {
      LeadingNonZero(s[..|s| - 1]);
    }
  }

  /** Reading `String(n)` back gives `n`. */
  lemma {:induction false} NatToStringValue(n: nat)
    ensures AllDigits(NatToString(n)) && DigitsValue(NatToString(n)) == n
    ensures |NatToString(n)| >= 1 && (NatToString(n)[0] == '0' <==> n == 0)
  {
    if n >= 10 {
      NatToStringValue(n / 10);
      var s := NatToString(n);
      assert s[..|s| - 1] == NatToString(n / 10);
    }
  }

  /** A digit string without a leading zero is `String` of its value. */
  lemma {:induction false} DigitsToString(s: string)
    requires AllDigits(s) && |s| >= 1 && (s[0] != '0' || |s| == 1)
    ensures NatToString(DigitsValue(s)) == s
  {
    if |s| > 1 {
      var p := s[..|s| - 1];
      LeadingNonZero(p);
      DigitsToString(p);
      var v := DigitsValue(s);
      assert v / 10 == DigitsValue(p) && v % 10 == DigitValue(s[|s| - 1]);
      assert s == p + [s[|s| - 1]];
    }
  }

  lemma FourDigits(n: nat)
    requires 1000 <= n <= 9999
    ensures |NatToString(n)| == 4
  {
    var a, b := n / 10, n / 10 / 10;
    assert 100 <= a <= 999 && 10 <= b <= 99 && 1 <= b / 10 <= 9;
    assert |NatToString(b / 10)| == 1;
    assert |NatToString(b)| == 2;
    assert |NatToString(a)| == 3;
  }

  lemma Pad2Digits(n: nat)
    requires n < 100
    ensures |Pad2(n)| == 2 && AllDigits(Pad2(n)) && DigitsValue(Pad2(n)) == n
  {
    NatToStringValue(n);
    var s := Pad2(n);
    if n < 10 {
      assert s[..1] == "0";
    } else {
      assert 1 <= n / 10 < 10;
    }
  }

  /** Any two digits are `pad2` of their value. */
  lemma Pad2OfDigits(s: string)
    requires AllDigits(s) && |s| == 2
    ensures Pad2(DigitsValue(s)) == s
  {
    if s[0] == '0' {
      LeadingZero(s);
      assert s[1..][..0] == [];
      assert s == "0" + [s[1]];
    } else {
      DigitsToString(s);
      LeadingNonZero(s);
    }
  }

  /** The pieces of a key: the year string, then six fixed characters. */
  lemma KeyParts(y: int, m: int, d: nat)
    requires 0 <= m < 12 && d < 100
    ensures var k := DateKey(y, m, d);
            var n := |IntToString(y)|;
            |k| == n + 6 && k[..n] == IntToString(y) && k[n] == '-' && k[n + 3] == '-'
            && k[n + 1..n + 3] == Pad2(m + 1) && k[n + 4..] == Pad2(d)
  {
    Pad2Digits(m + 1);
    Pad2Digits(d);
  }

  /** `String` of an integer determines the integer. */
  lemma IntToStringInjective(a: int, b: int)
    requires IntToString(a) == IntToString(b)
    ensures a == b
  {
    NatToStringValue(if a < 0 then -a else a);
    NatToStringValue(if b < 0 then -b else b);
    if a < 0 && b < 0 {
      assert NatToString(-a) == IntToString(a)[1..];
    }
  }

  /** Different days (of any months and years) get different keys: the
      calendar's exact string comparison tells days apart. */
  lemma DateKeyInjective(y1: int, m1: int, d1: nat, y2: int, m2: int, d2: nat)
    requires 0 <= m1 < 12 && 0 <= m2 < 12 && d1 < 100 && d2 < 100
    requires DateKey(y1, m1, d1) == DateKey(y2, m2, d2)
    ensures y1 == y2 && m1 == m2 && d1 == d2
  {
    var k := DateKey(y1, m1, d1);
    KeyParts(y1, m1, d1);
    KeyParts(y2, m2, d2);
    IntToStringInjective(y1, y2);
    Pad2Digits(m1 + 1);
    Pad2Digits(m2 + 1);
    Pad2Digits(d1);
    Pad2Digits(d2);
  }

  /** A key of a four-digit year reads back as the day it was built from. */
  lemma KeyParses(c: CalDate)
    requires ValidDate(c) && 1000 <= c.year <= 9999
    ensures ParseDate(DateKey(c.year, c.month, c.day)) == Some(c)
  {
    var ys, ms, ds := NatToString(c.year), Pad2(c.month + 1), Pad2(c.day);
    assert DateKey(c.year, c.month, c.day) == ys + "-" + ms + "-" + ds;
    assert ParseFields(c.year, c.month + 1, c.day) == Some(c);
    FourDigits(c.year);
    NatToStringValue(c.year);
    Pad2Digits(c.month + 1);
    Pad2Digits(c.day);
    ParseParts(ys, ms, ds);
  }

  /** Reading a string made of four digits, a dash, two digits, a dash and
      two digits. */
  lemma ParseParts(ys: string, ms: string, ds: string)
    requires |ys| == 4 && |ms| == 2 && |ds| == 2
    requires AllDigits(ys) && AllDigits(ms) && AllDigits(ds)
    ensures ParseDate(ys + "-" + ms + "-" + ds) == ParseFields(DigitsValue(ys), DigitsValue(ms), DigitsValue(ds))
  {
    var s := ys + "-" + ms + "-" + ds;
    assert s[..4] == ys && s[4] == '-' && s[5..7] == ms && s[7] == '-' && s[8..] == ds;
  }

  /** A date string that reads back as a day of a four-digit year is
      exactly that day's key. */
  lemma ParsedIsKey(s: string)
    requires ParseDate(s).Some? && ParseDate(s).value.year >= 1000
    ensures var c := ParseDate(s).value; DateKey(c.year, c.month, c.day) == s
  {
    var c := ParseDate(s).value;
    var ys := s[..4];
    if ys[0] == '0' {
      LeadingZero(ys);
      DigitsBound(ys[1..]);
      assert false;
    }
    DigitsToString(ys);
    Pad2OfDigits(s[5..7]);
    Pad2OfDigits(s[8..]);
    assert s == ys + "-" + s[5..7] + "-" + s[8..];
  }

  /** For days of four-digit years, matching the key and reading the string
      back agree. */
  lemma KeyMatchIffParses(s: string, c: CalDate)
    requires ValidDate(c) && 1000 <= c.year <= 9999
    ensures s == DateKey(c.year, c.month, c.day) <==> ParseDate(s) == Some(c)
  {
    if s == DateKey(c.year, c.month, c.day) {
      KeyParses(c);
    }
    if ParseDate(s) == Some(c) {
      ParsedIsKey(s);
    }
  }
}
