/** The statistics view (components/StatisticsView.tsx), first part: the
    month's transactions and their income and expense totals, and the
    twelve-month trend with the bound that scales its bars. The header
    totals of the application reuse the month filter and totals defined
    here; the per-category breakdown is module CategoryBreakdown. */
module Statistics {
  import opened Types
  import opened Dates

  // ---------------------------------------------------------------------
  // The month's transactions and totals

  /** `new Date(t.date)` has full year `y` and month index `m`. A date
      string that does not read back as a day matches no month. */
  predicate InMonth(t: Transaction, y: int, m: int)
  {
    var p := ParseDate(t.date);
    p.Some? && p.value.year == y && p.value.month == m
  }

  predicate InYear(t: Transaction, y: int)
  {
    var p := ParseDate(t.date);
    p.Some? && p.value.year == y
  }

  /** `monthlyData`: the transactions of year `y`, month index `m`. */
  function MonthTxs(txs: seq<Transaction>, y: int, m: int): (r: seq<Transaction>)
    ensures |r| <= |txs|
    ensures forall t :: t in r <==> t in txs && InMonth(t, y, m)
  {
    if txs == [] then []
    else (if InMonth(txs[0], y, m) then [txs[0]] else []) + MonthTxs(txs[1..], y, m)
  }

  /** The filter keeps the original order: it distributes over concatenation. */
  lemma {:induction false} MonthTxsAppend(a: seq<Transaction>, b: seq<Transaction>, y: int, m: int)
    ensures MonthTxs(a + b, y, m) == MonthTxs(a, y, m) + MonthTxs(b, y, m)
  {
    if a == [] {
      assert a + b == b;
    } else {
      assert (a + b)[1..] == a[1..] + b;
      MonthTxsAppend(a[1..], b, y, m);
    }
  }

  /** `monthlyIncome` (k = Income) and `monthlyExpense` (k = Expense). */
  function MonthlyTotal(txs: seq<Transaction>, y: int, m: int, k: TxType): int
  {
    SumOfKind(MonthTxs(txs, y, m), k)
  }

  /** One more transaction changes a month's total by its amount exactly
      when it lies in that month and has that type. */
  lemma MonthlyTotalAppend(txs: seq<Transaction>, t: Transaction, y: int, m: int, k: TxType)
    ensures MonthlyTotal(txs + [t], y, m, k)
            == MonthlyTotal(txs, y, m, k) + (if InMonth(t, y, m) && t.kind == k then t.amount else 0)
  {
    MonthTxsAppend(txs, [t], y, m);
    SumOfKindAppend(MonthTxs(txs, y, m), MonthTxs([t], y, m), k);
    assert [t][1..] == [];
  }

  /** The same, for a transaction in front. */
  lemma MonthlyTotalCons(t: Transaction, txs: seq<Transaction>, y: int, m: int, k: TxType)
    ensures MonthlyTotal([t] + txs, y, m, k)
            == (if InMonth(t, y, m) && t.kind == k then t.amount else 0) + MonthlyTotal(txs, y, m, k)
  {
    assert ([t] + txs)[1..] == txs;
    var rest := MonthTxs(txs, y, m);
    if InMonth(t, y, m) {
      assert ([t] + rest)[1..] == rest;
    } else {
      assert [] + rest == rest;
    }
  }

  /** A month with no matching transaction (an empty ledger in particular)
      has zero totals; that is no error. */
  lemma {:induction false} NoMatchZeroTotal(txs: seq<Transaction>, y: int, m: int, k: TxType)
    requires forall i :: 0 <= i < |txs| ==> !InMonth(txs[i], y, m)
    ensures MonthlyTotal(txs, y, m, k) == 0
  {
    if txs != [] {
      NoMatchZeroTotal(txs[1..], y, m, k);
      MonthlyTotalCons(txs[0], txs[1..], y, m, k);
      HeadTail(txs);
    }
  }

  /** With non-negative amounts a month's total is non-negative. */
  lemma MonthlyTotalNonNegative(txs: seq<Transaction>, y: int, m: int, k: TxType)
    requires forall i :: 0 <= i < |txs| ==> txs[i].amount >= 0
    ensures MonthlyTotal(txs, y, m, k) >= 0
  {
    var r := MonthTxs(txs, y, m);
    forall i | 0 <= i < |r| ensures r[i].amount >= 0 {
      assert r[i] in txs;
    }
    SumOfKindBounds(r, k);
  }

  // ---------------------------------------------------------------------
  // The twelve-month trend

  /** One bar pair of the trend: `{ month: i + 1, income, expense }`. */
  datatype MonthSummary = MonthSummary(month: int, income: int, expense: int)

  /** `yearlyMonths`: twelve entries, months 1..12 in order, entry `i`
      holding the totals of month index `i`. */
  function YearlyMonths(txs: seq<Transaction>, y: int): (r: seq<MonthSummary>)
    ensures |r| == 12
    ensures forall i :: 0 <= i < 12 ==>
              r[i].month == i + 1
              && r[i].income == MonthlyTotal(txs, y, i, Income)
              && r[i].expense == MonthlyTotal(txs, y, i, Expense)
  {
    seq(12, i requires 0 <= i < 12 =>
      MonthSummary(i + 1, MonthlyTotal(txs, y, i, Income), MonthlyTotal(txs, y, i, Expense)))
  }

  /** The total of type `k` over the whole year `y`, computed directly. */
  function YearTotal(txs: seq<Transaction>, y: int, k: TxType): int
  {
    if txs == [] then 0
    else (if InYear(txs[0], y) && txs[0].kind == k then txs[0].amount else 0) + YearTotal(txs[1..], y, k)
  }

  /** The column of type `k` of a run of trend entries, summed. */
  function ColumnSum(rows: seq<MonthSummary>, k: TxType): int
  {
    if rows == [] then 0
    else ColumnSum(rows[..|rows| - 1], k)
         + (if k == Income then rows[|rows| - 1].income else rows[|rows| - 1].expense)
  }

  /** Totals of type `k` of the month indices 0..n-1. */
  function MonthsSum(txs: seq<Transaction>, y: int, k: TxType, n: nat): int
  {
    if n == 0 then 0 else MonthsSum(txs, y, k, n - 1) + MonthlyTotal(txs, y, n - 1, k)
  }

  lemma {:induction false} ColumnSumIsMonthsSum(txs: seq<Transaction>, y: int, k: TxType, n: nat)
    requires n <= 12
    ensures ColumnSum(YearlyMonths(txs, y)[..n], k) == MonthsSum(txs, y, k, n)
  {
    if n > 0 {
      var rows := YearlyMonths(txs, y);
      assert rows[..n][..n - 1] == rows[..n - 1];
      ColumnSumIsMonthsSum(txs, y, k, n - 1);
    }
  }

  /** The month index of a transaction of year `y`, and -1 for one that
      lies in another year or whose date does not read back. */
  function MonthIndexIn(t: Transaction, y: int): (m: int)
    ensures -1 <= m < 12
    ensures forall i :: InMonth(t, y, i) <==> 0 <= i && m == i
    ensures InYear(t, y) <==> m >= 0
  {
    var p := ParseDate(t.date);
    if p.Some? && p.value.year == y then p.value.month else -1
  }

  /** Splitting off the first transaction: it adds its amount to the first
      `n` months exactly when its month index is below `n`. */
  lemma {:induction false} MonthsSumCons(t: Transaction, txs: seq<Transaction>, y: int, k: TxType, n: nat)
    ensures MonthsSum([t] + txs, y, k, n)
            == MonthsSum(txs, y, k, n)
               + (if 0 <= MonthIndexIn(t, y) < n && t.kind == k then t.amount else 0)
  {
    if n > 0 {
      MonthsSumCons(t, txs, y, k, n - 1);
      MonthTermCons(t, txs, y, k, n - 1);
      SplitLastMonth(MonthIndexIn(t, y), n, t.kind == k, t.amount);
    }
  }

  /** A month index below `n` is either below `n - 1` or `n - 1` itself. */
  lemma SplitLastMonth(v: int, n: nat, b: bool, a: int)
    requires n > 0
    ensures (if 0 <= v < n && b then a else 0)
            == (if 0 <= v < n - 1 && b then a else 0) + (if v == n - 1 && b then a else 0)
  {
  }

  /** `MonthlyTotalCons` for one month, stated with the month index. */
  lemma MonthTermCons(t: Transaction, txs: seq<Transaction>, y: int, k: TxType, m: nat)
    ensures MonthlyTotal([t] + txs, y, m, k)
            == MonthlyTotal(txs, y, m, k) + (if MonthIndexIn(t, y) == m && t.kind == k then t.amount else 0)
  {
    MonthlyTotalCons(t, txs, y, m, k);
    assert InMonth(t, y, m) <==> MonthIndexIn(t, y) == m;
  }

  lemma {:induction false} MonthsSumOfNothing(y: int, k: TxType, n: nat)
    ensures MonthsSum([], y, k, n) == 0
  {
    if n > 0 {
      MonthsSumOfNothing(y, k, n - 1);
    }
  }

  lemma {:induction false} MonthsSumIsYearTotal(txs: seq<Transaction>, y: int, k: TxType)
    ensures MonthsSum(txs, y, k, 12) == YearTotal(txs, y, k)
  {
    if txs == [] {
      MonthsSumOfNothing(y, k, 12);
    } else {
      MonthsSumIsYearTotal(txs[1..], y, k);
      MonthsSumCons(txs[0], txs[1..], y, k, 12);
      HeadTail(txs);
      assert InYear(txs[0], y) <==> 0 <= MonthIndexIn(txs[0], y) < 12;
    }
  }

  /** The twelve months partition the year: each column of the trend sums
      to the year's total of that type, with no transaction counted twice
      or left out. */
  lemma YearPartition(txs: seq<Transaction>, y: int, k: TxType)
    ensures ColumnSum(YearlyMonths(txs, y), k) == YearTotal(txs, y, k)
  {
    var rows := YearlyMonths(txs, y);
    assert rows[..12] == rows;
    ColumnSumIsMonthsSum(txs, y, k, 12);
    MonthsSumIsYearTotal(txs, y, k);
  }

  function Max(a: int, b: int): int
  {
    if a >= b then a else b
  }

  /** `maxYearlyValue = Math.max(...rows.map(m => Math.max(m.income, m.expense)), 1)`:
      at least 1, at least every income and expense, and attained by one of
      them unless it is the floor 1. */
  function MaxYearlyValue(rows: seq<MonthSummary>): (r: int)
    ensures r >= 1
    ensures forall i :: 0 <= i < |rows| ==> rows[i].income <= r && rows[i].expense <= r
    ensures r == 1 || exists i :: 0 <= i < |rows| && (r == rows[i].income || r == rows[i].expense)
  {
    if rows == [] then 1
    else
      var rest := MaxYearlyValue(rows[1..]);
      assert rest != 1 ==> exists i :: 1 <= i < |rows| && (rest == rows[i].income || rest == rows[i].expense) by {
        if rest != 1 {
          var j :| 0 <= j < |rows[1..]| && (rest == rows[1..][j].income || rest == rows[1..][j].expense);
          assert rows[j + 1] == rows[1..][j];
        }
      }
      Max(Max(rows[0].income, rows[0].expense), rest)
  }

  /** Height in pixels of a bar: `(v / max) * 180`. */
  function BarHeight(v: int, max: int): real
    requires max >= 1
  {
    (v as real / max as real) * 180.0
  }

  lemma BarHeightBounds(v: int, max: int)
    requires max >= 1 && 0 <= v <= max
    ensures 0.0 <= BarHeight(v, max) <= 180.0
  {
    var q := v as real / max as real;
    assert q * max as real == v as real;
    assert q <= 1.0;
  }

  /** With non-negative amounts every bar of the trend fits in 0..180 pixels. */
  lemma TrendBarsFit(txs: seq<Transaction>, y: int)
    requires forall i :: 0 <= i < |txs| ==> txs[i].amount >= 0
    ensures var rows := YearlyMonths(txs, y);
            forall i :: 0 <= i < 12 ==>
              0.0 <= BarHeight(rows[i].income, MaxYearlyValue(rows)) <= 180.0
              && 0.0 <= BarHeight(rows[i].expense, MaxYearlyValue(rows)) <= 180.0
  {
    var rows := YearlyMonths(txs, y);
    var mx := MaxYearlyValue(rows);
    forall i | 0 <= i < 12
      ensures 0.0 <= BarHeight(rows[i].income, mx) <= 180.0
      ensures 0.0 <= BarHeight(rows[i].expense, mx) <= 180.0
    {
      MonthlyTotalNonNegative(txs, y, i, Income);
      MonthlyTotalNonNegative(txs, y, i, Expense);
      BarHeightBounds(rows[i].income, mx);
      BarHeightBounds(rows[i].expense, mx);
    }
  }
}
