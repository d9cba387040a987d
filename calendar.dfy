/** The month calendar (components/Calendar.tsx): a Sunday-first grid of
    blank cells followed by the days of the month, each day cell showing
    the income and expense recorded under its `YYYY-MM-DD` key, its
    holiday and its colour. The holiday list and today's key come in as
    parameters. */
module Calendar {
  import opened Types
  import opened Dates
  import Statistics

  // ---------------------------------------------------------------------
  // The grid

  /** The two loops of lines 19-25: `firstDay` blank cells (`null`), then
      the days 1..daysInMonth. */
  method BuildDays(firstDay: nat, daysInMonth: nat) returns (days: seq<Option<nat>>)
    ensures |days| == firstDay + daysInMonth
    ensures forall i :: 0 <= i < firstDay ==> days[i] == None
    ensures forall k :: 1 <= k <= daysInMonth ==> days[firstDay + k - 1] == Some(k)
  {
    days := [];
    var i := 0;
    while i < firstDay
      invariant 0 <= i <= firstDay
      invariant |days| == i
      invariant forall j :: 0 <= j < i ==> days[j] == None
    {
      days := days + [None];
      i := i + 1;
    }
    i := 1;
    while i <= daysInMonth
      invariant 1 <= i <= daysInMonth + 1
      invariant |days| == firstDay + i - 1
      invariant forall j :: 0 <= j < firstDay ==> days[j] == None
      invariant forall k :: 1 <= k < i ==> days[firstDay + k - 1] == Some(k)
    {
      days := days + [Some(i)];
      i := i + 1;
    }
  }

  /** Reading the cells back: a blank lies before the first day, and a
      day cell at position `idx` holds day `idx - firstDay + 1`. */
  lemma CellsOfGrid(days: seq<Option<nat>>, firstDay: nat, n: nat)
    requires |days| == firstDay + n
    requires forall i :: 0 <= i < firstDay ==> days[i] == None
    requires forall k :: 1 <= k <= n ==> days[firstDay + k - 1] == Some(k)
    ensures forall idx :: 0 <= idx < |days| ==>
              (days[idx].None? <==> idx < firstDay)
              && (days[idx].Some? ==> days[idx].value == idx - firstDay + 1)
  {
    forall idx | firstDay <= idx < |days| ensures days[idx] == Some(idx - firstDay + 1) {
      var k := idx - firstDay + 1;
      assert days[firstDay + k - 1] == Some(k);
    }
  }

  /** The grid of month index `m` of year `y`: the blanks fill the columns
      before the weekday of the 1st (`new Date(y, m, 1).getDay()`), the
      length is `new Date(y, m + 1, 0).getDate()`. Every day of the month
      appears once, in the column of its own weekday (0 = Sunday), and the
      grid never needs more than six rows. */
  method MonthGrid(y: int, m: int) returns (days: seq<Option<nat>>)
    requires 0 <= m < 12
    ensures |days| == Weekday(y, m, 1) + DaysInMonth(y, m) <= 6 * 7
    ensures forall idx :: 0 <= idx < |days| ==> (days[idx].None? <==> idx < Weekday(y, m, 1))
    ensures forall idx :: 0 <= idx < |days| && days[idx].Some? ==>
              1 <= days[idx].value <= DaysInMonth(y, m) && idx % 7 == Weekday(y, m, days[idx].value)
    ensures forall k :: 1 <= k <= DaysInMonth(y, m) ==>
              days[Weekday(y, m, 1) + k - 1] == Some(k)
  {
    var firstDay, daysInMonth := Weekday(y, m, 1), DaysInMonth(y, m);
    days := BuildDays(firstDay, daysInMonth);
    GridFacts(y, m, days);
  }

  /** What the two loops of the grid give, stated for the month. */
  lemma GridFacts(y: int, m: int, days: seq<Option<nat>>)
    requires 0 <= m < 12 && |days| == Weekday(y, m, 1) + DaysInMonth(y, m)
    requires forall i :: 0 <= i < Weekday(y, m, 1) ==> days[i] == None
    requires forall k :: 1 <= k <= DaysInMonth(y, m) ==> days[Weekday(y, m, 1) + k - 1] == Some(k)
    ensures |days| == Weekday(y, m, 1) + DaysInMonth(y, m) <= 6 * 7
    ensures forall idx :: 0 <= idx < |days| ==> (days[idx].None? <==> idx < Weekday(y, m, 1))
    ensures forall idx :: 0 <= idx < |days| && days[idx].Some? ==>
              1 <= days[idx].value <= DaysInMonth(y, m) && idx % 7 == Weekday(y, m, days[idx].value)
    ensures forall k :: 1 <= k <= DaysInMonth(y, m) ==>
              days[Weekday(y, m, 1) + k - 1] == Some(k)
  {
    CellsOfGrid(days, Weekday(y, m, 1), DaysInMonth(y, m));
    forall idx | 0 <= idx < |days| && days[idx].Some?
      ensures idx % 7 == Weekday(y, m, days[idx].value)
    {
      DayColumn(y, m, idx, days[idx].value);
    }
  }

  /** The cell at position `idx` of day `d` lies in the column of `d`'s weekday. */
  lemma DayColumn(y: int, m: int, idx: int, d: int)
    requires 0 <= m < 12 && d == idx - Weekday(y, m, 1) + 1
    ensures idx % 7 == Weekday(y, m, d)
  {
    WeekdayOfDay(y, m, d);
  }

  // ---------------------------------------------------------------------
  // The day cells

  /** `getDayTransactions`: the transactions whose date string equals the key. */
  function DayTxs(txs: seq<Transaction>, key: string): (r: seq<Transaction>)
    ensures |r| <= |txs|
    ensures forall t :: t in r <==> t in txs && t.date == key
  {
    if txs == [] then []
    else (if txs[0].date == key then [txs[0]] else []) + DayTxs(txs[1..], key)
  }

  /** The cell's `income` (k = Income) or `expense` (k = Expense). */
  function DayTotal(txs: seq<Transaction>, key: string, k: TxType): int
  {
    SumOfKind(DayTxs(txs, key), k)
  }

  lemma DayTotalCons(t: Transaction, txs: seq<Transaction>, key: string, k: TxType)
    ensures DayTotal([t] + txs, key, k)
            == (if t.date == key && t.kind == k then t.amount else 0) + DayTotal(txs, key, k)
  {
    assert ([t] + txs)[1..] == txs;
    var rest := DayTxs(txs, key);
    if t.date == key {
      assert ([t] + rest)[1..] == rest;
    } else {
      assert [] + rest == rest;
    }
  }

  /** `isHoliday`: `HOLIDAYS.find(h => h.date === key)`, the first holiday
      of that key, or none. */
  function FindHoliday(holidays: seq<Holiday>, key: string): (r: Option<Holiday>)
    ensures r.None? <==> forall i :: 0 <= i < |holidays| ==> holidays[i].date != key
    ensures r.Some? ==> exists i :: 0 <= i < |holidays| && holidays[i] == r.value
                          && r.value.date == key
                          && forall j :: 0 <= j < i ==> holidays[j].date != key
  {
    if holidays == [] then None
    else if holidays[0].date == key then Some(holidays[0])
    else
      var r := FindHoliday(holidays[1..], key);
      assert r.Some? ==> exists i :: 1 <= i < |holidays| && holidays[i] == r.value
                           && r.value.date == key
                           && forall j :: 0 <= j < i ==> holidays[j].date != key by {
        if r.Some? {
          var i :| 0 <= i < |holidays[1..]| && holidays[1..][i] == r.value
                   && forall j :: 0 <= j < i ==> holidays[1..][j].date != key;
          assert holidays[i + 1] == r.value;
          forall j | 0 <= j < i + 1 ensures holidays[j].date != key {
            if j > 0 {
              assert holidays[j] == holidays[1..][j - 1];
            }
          }
        }
      }
      assert r.None? ==> forall i :: 0 <= i < |holidays| ==> holidays[i].date != key by {
        if r.None? {
          forall i | 0 <= i < |holidays| ensures holidays[i].date != key {
            if i > 0 {
              assert holidays[i] == holidays[1..][i - 1];
            }
          }
        }
      }
      r
  }

  datatype Colour = Red | Blue | Plain

  /** Line 71: red for the Sunday column or a holiday, otherwise blue for
      the Saturday column, otherwise the plain text colour. */
  function DayColour(idx: nat, holiday: bool): Colour
  {
    if idx % 7 == 0 || holiday then Red else if idx % 7 == 6 then Blue else Plain
  }

  /** In a month grid the colour follows the day's weekday: Sundays and
      holidays are red, the other Saturdays blue, the rest plain. */
  lemma DayColourByWeekday(y: int, m: int, k: int, holiday: bool)
    requires 0 <= m < 12 && 1 <= k <= DaysInMonth(y, m)
    ensures var c := DayColour(Weekday(y, m, 1) + k - 1, holiday);
            && (c == Red <==> Weekday(y, m, k) == 0 || holiday)
            && (c == Blue <==> Weekday(y, m, k) == 6 && !holiday)
  {
    WeekdayOfDay(y, m, k);
  }

  /** What one day cell shows. */
  datatype DayCell = DayCell(
    day: nat,
    key: string,
    isToday: bool,
    income: int,
    expense: int,
    holiday: Option<Holiday>,
    colour: Colour)

  /** The cell at grid position `idx` showing day `d` (lines 54-59, 71);
      `today` stands for `new Date().toISOString().split('T')[0]`. */
  function Cell(y: int, m: int, idx: nat, d: nat, txs: seq<Transaction>,
                holidays: seq<Holiday>, today: string): (c: DayCell)
    requires 0 <= m < 12
    ensures c.key == DateKey(y, m, d) && c.day == d
    ensures c.isToday <==> c.key == today
    ensures c.income == DayTotal(txs, c.key, Income) && c.expense == DayTotal(txs, c.key, Expense)
    ensures c.holiday == FindHoliday(holidays, c.key)
    ensures c.colour == DayColour(idx, c.holiday.Some?)
  {
    var key := DateKey(y, m, d);
    var h := FindHoliday(holidays, key);
    DayCell(d, key, key == today, DayTotal(txs, key, Income), DayTotal(txs, key, Expense),
            h, DayColour(idx, h.Some?))
  }

  /** At most one day of the month is marked as today. */
  lemma OneToday(y: int, m: int, d1: nat, d2: nat, today: string)
    requires 0 <= m < 12 && 1 <= d1 <= DaysInMonth(y, m) && 1 <= d2 <= DaysInMonth(y, m)
    requires DateKey(y, m, d1) == today && DateKey(y, m, d2) == today
    ensures d1 == d2
  {
    DateKeyInjective(y, m, d1, y, m, d2);
  }

  // ---------------------------------------------------------------------
  // The day cells add up to the month

  /** The day of month `m` of year `y` a transaction's date reads back as,
      and 0 when it reads back as no day of that month. */
  function DayIndexIn(t: Transaction, y: int, m: int): (d: int)
    requires 0 <= m < 12
    ensures 0 <= d <= DaysInMonth(y, m)
    ensures Statistics.InMonth(t, y, m) <==> d >= 1
  {
    var p := ParseDate(t.date);
    if p.Some? && p.value.year == y && p.value.month == m then p.value.day else 0
  }

  /** For a four-digit year, a transaction lands in the cell of day `d`
      exactly when its date reads back as that day. */
  lemma CellMatch(t: Transaction, y: int, m: int, d: int)
    requires 1000 <= y <= 9999 && 0 <= m < 12 && 1 <= d <= DaysInMonth(y, m)
    ensures t.date == DateKey(y, m, d) <==> DayIndexIn(t, y, m) == d
  {
    KeyMatchIffParses(t.date, CalDate(y, m, d));
  }

  /** The cell totals of type `k` of days 1..n. */
  function DaysSum(txs: seq<Transaction>, y: int, m: int, k: TxType, n: nat): int
    requires 0 <= m < 12
  {
    if n == 0 then 0 else DaysSum(txs, y, m, k, n - 1) + DayTotal(txs, DateKey(y, m, n), k)
  }

  lemma DaysSumCons(t: Transaction, txs: seq<Transaction>, y: int, m: int, k: TxType, n: nat)
    requires 1000 <= y <= 9999 && 0 <= m < 12 && n <= DaysInMonth(y, m)
    ensures DaysSum([t] + txs, y, m, k, n)
            == DaysSum(txs, y, m, k, n)
               + (if 1 <= DayIndexIn(t, y, m) <= n && t.kind == k then t.amount else 0)
  {
    DaysSumAddsHits(t, txs, y, m, k, n);
    DayHitsIndex(t, y, m, k, n);
  }

  /** What one transaction adds to the cells of days `1..n`, key by key. */
  function DayHits(t: Transaction, y: int, m: int, k: TxType, n: nat): int
    requires 0 <= m < 12
  {
    if n == 0 then 0
    else DayHits(t, y, m, k, n - 1) + (if t.date == DateKey(y, m, n) && t.kind == k then t.amount else 0)
  }

  lemma {:induction false} DaysSumAddsHits(t: Transaction, txs: seq<Transaction>, y: int, m: int, k: TxType, n: nat)
    requires 0 <= m < 12
    ensures DaysSum([t] + txs, y, m, k, n) == DaysSum(txs, y, m, k, n) + DayHits(t, y, m, k, n)
  {
    if n > 0 {
      DaysSumAddsHits(t, txs, y, m, k, n - 1);
      DayTotalCons(t, txs, DateKey(y, m, n), k);
    }
  }

  /** For a four-digit year a transaction matches the key of at most one
      day, the day its date reads back as. */
  lemma {:induction false} DayHitsIndex(t: Transaction, y: int, m: int, k: TxType, n: nat)
    requires 1000 <= y <= 9999 && 0 <= m < 12 && n <= DaysInMonth(y, m)
    ensures DayHits(t, y, m, k, n) == (if 1 <= DayIndexIn(t, y, m) <= n && t.kind == k then t.amount else 0)
  {
    if n > 0 {
      var key, v := DateKey(y, m, n), DayIndexIn(t, y, m);
      assert DayHits(t, y, m, k, n) == DayHits(t, y, m, k, n - 1) + (if t.date == key && t.kind == k then t.amount else 0);
      DayHitsIndex(t, y, m, k, n - 1);
      CellMatch(t, y, m, n);
      SplitLastDay(DayHits(t, y, m, k, n - 1), DayHits(t, y, m, k, n), t.date == key, v, n, t.kind == k, t.amount);
    }
  }

  lemma {:induction false} DaysSumOfNothing(y: int, m: int, k: TxType, n: nat)
    requires 0 <= m < 12
    ensures DaysSum([], y, m, k, n) == 0
  {
    if n > 0 {
      DaysSumOfNothing(y, m, k, n - 1);
    }
  }

  /** A day index in `1..n` is either in `1..n-1` or `n` itself. */
  lemma SplitLastDay(h: int, h': int, hit: bool, v: int, n: nat, b: bool, a: int)
    requires n > 0 && (hit <==> v == n)
    requires h == (if 1 <= v <= n - 1 && b then a else 0)
    requires h' == h + (if hit && b then a else 0)
    ensures h' == (if 1 <= v <= n && b then a else 0)
  {
  }

  /** For a four-digit year, the income (or expense) figures of the day
      cells of a month add up to the month's total in the header and the
      statistics: the exact key comparison and reading the date back pick
      the same transactions. */
  lemma {:induction false} DaysPartitionMonth(txs: seq<Transaction>, y: int, m: int, k: TxType)
    requires 1000 <= y <= 9999 && 0 <= m < 12
    ensures DaysSum(txs, y, m, k, DaysInMonth(y, m)) == Statistics.MonthlyTotal(txs, y, m, k)
  {
    if txs == [] {
      DaysSumOfNothing(y, m, k, DaysInMonth(y, m));
    } else {
      DaysPartitionMonth(txs[1..], y, m, k);
      HeadTail(txs);
      DaysSumCons(txs[0], txs[1..], y, m, k, DaysInMonth(y, m));
      Statistics.MonthlyTotalCons(txs[0], txs[1..], y, m, k);
      DayContribution(txs[0], y, m, k);
    }
  }

  /** A transaction lands on some day of the month exactly when it lies in
      the month. */
  lemma DayContribution(t: Transaction, y: int, m: int, k: TxType)
    requires 0 <= m < 12
    ensures (if 1 <= DayIndexIn(t, y, m) <= DaysInMonth(y, m) && t.kind == k then t.amount else 0)
            == (if Statistics.InMonth(t, y, m) && t.kind == k then t.amount else 0)
  {
  }

  /** Two dates the grid shows for comparison: February of the leap year
      2024 has 29 days and starts on a Thursday; January 1st, 2024 was a
      Monday. */
  lemma KnownMonths()
    ensures DaysInMonth(2024, 1) == 29 && DaysInMonth(2023, 1) == 28
    ensures Weekday(2024, 1, 1) == 4 && Weekday(2024, 0, 1) == 1
  {
  }
}
