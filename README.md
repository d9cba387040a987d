# Rich Hamster household account book — ledger core in Dafny

This project models the ledger logic of the "부자 햄스터 가계부" (Rich Hamster)
household account book, a React application. Its views compute everything
they show from the list of transactions and the finance lists:

- **Statistics view.** The transactions of the month shown and their income and expense totals. A
  twelve-month trend whose bars are scaled by the largest month. A breakdown of one type by category:
  grouped, summed, sorted largest first and given a rounded percentage.
- **Calendar.** A Sunday-first grid: blank cells up to the weekday of the 1st, then the days of the
  month. Each day shows the income and expense recorded under its `YYYY-MM-DD` key, its holiday and
  its colour.
- **Finance view.** Recurring fixed expenses. Savings products with their after-tax (15.4%)
  maturity value. Loans with their floored level monthly payment. The three lists, added to behind a
  guard and deleted from by id.
- **Application shell.** The ledger, which transactions are appended to. The month shown and its
  navigation, kept within 2024-01 .. 2030-12 by the buttons. The header totals and balance. The
  defaults filled into the assistant's loosely typed arguments.
- **Entry form.** Holds type, category, amount and description. A guard (category chosen, amount
  positive) decides whether submit saves anything.

One module per source file, with `StatisticsView.tsx` split into two, plus two shared ones:

| module | file | what |
|---|---|---|
| `Types` | `types.dfy` | the records of `types.ts` and the per-type sum every view repeats |
| `Dates` | `dates.dfy` | what the views get from JavaScript's `Date` |
| `Statistics` | `statistics.dfy` | `StatisticsView.tsx`: month filter, totals, trend |
| `CategoryBreakdown` | `category_breakdown.dfy` | `StatisticsView.tsx`: `getCategorySummary` |
| `Calendar` | `calendar.dfy` | `Calendar.tsx` |
| `Finance` | `finance.dfy` | `FinanceView.tsx` |
| `LedgerApp` | `app.dfy` | `App.tsx` |
| `TransactionModal` | `transaction_modal.dfy` | `TransactionModal.tsx` |

The `Dates` module covers:
- month lengths and weekdays in the proleptic Gregorian calendar;
- month overflow in `new Date(y, m, 1)`;
- the zero-padded key the calendar builds;
- reading a string of the `full-date` form of section 5.6 of RFC 3339 back into a day, with the
  month lengths of section 5.7.

Two places in the source pick a month's transactions in different ways:
- **The statistics view and the header** read each date back with `new Date(t.date)` (`ParseDate`
  here).
- **The calendar** compares the date string with its key exactly.

`Dates.KeyMatchIffParses` shows that the two agree for four-digit years. From that,
`Calendar.DaysPartitionMonth` proves that a month's day cells add up to the month total in the header
and the statistics.

Modelling choices:
- The state the source changes step by step is modelled imperatively:
  - the category accumulator is a `while` loop over a map and its key order;
  - the calendar grid is built by two loops;
  - the finance lists are a class with add and delete methods;
  - the ledger and the month shown are a class;
  - the entry form is a class.
- Each of these is proved against a specification function.
- Ledger amounts are whole won (`int`). The finance calculators use `real`, so `0.154` and
  `rate / 100` are exact.
- The `constants` module (holidays and category lists) is not part of this model: those lists are
  parameters.

## Model

| member | source | states |
|---|---|---|
| `Types.KindsPartitionSum` | components/StatisticsView.tsx:21-22 | the income sum and the expense sum together are the sum of all amounts |
| `Types.SumOfKindBounds` | components/StatisticsView.tsx:21-22 | with non-negative amounts, each type's sum lies between 0 and the sum of all amounts |
| `Types.SumOfKindAppend` | App.tsx:79-85 | the per-type sum of two lists joined is the sum of their sums |
| `Dates.DaysInMonth` | components/Calendar.tsx:17 | a month has 28..31 days; 29 exactly for February of a Gregorian leap year, 28 exactly for February otherwise |
| `Dates.DaysInYear` | components/Calendar.tsx:17 | the twelve month lengths add up to 366 in a leap year and 365 otherwise |
| `Dates.YearLength` | components/Calendar.tsx:16 | the closed-form day count of January 1st advances by the length of the year |
| `Dates.Weekday` | components/Calendar.tsx:16 | `getDay()` of a day is in 0..6 |
| `Dates.DayZeroOfNextMonth` | components/Calendar.tsx:17 | `new Date(y, m + 1, 0)` is the last day of month `m`, also across December |
| `Dates.WeekdayOfDay` | components/Calendar.tsx:16 | the weekday of day `d` is the weekday of the 1st plus `d - 1`, modulo 7 |
| `Dates.NextMonthWeekday` | components/Calendar.tsx:16-17 | the 1st of the next month falls `DaysInMonth` weekdays after the 1st of this one |
| `Dates.FirstOfMonth` | App.tsx:70-72 | `new Date(y, m, 1)` for any month index lands on day 1 with a month index in 0..11 and the same absolute month count `12y + m` |
| `Dates.ParseDate` | components/StatisticsView.tsx:17 | a string that reads back as a day gives a valid day of a year in 0..9999 |
| `Dates.NatToStringValue` | components/Calendar.tsx:28 | `String(n)` is digits without a leading zero and reads back as `n` |
| `Dates.Pad2Digits` | components/Calendar.tsx:28 | `padStart(2, '0')` of a number below 100 is two digits that read back as the number |
| `Dates.IntToStringInjective` | components/Calendar.tsx:28 | `String(y)` determines the year |
| `Dates.DateKeyInjective` | components/Calendar.tsx:28 | different days (of any months and years) get different keys |
| `Dates.DateKey` | components/Calendar.tsx:28 | definition of the day key `YYYY-MM-DD` (month index plus one and day, each padded to two digits); stated by `Dates.KeyParses` and `Dates.KeyMatchIffParses`: for four-digit years the key reads back as its own day, and a string equals it exactly when it reads back as that day |
| `Dates.KeyParses` | components/Calendar.tsx:54 | the key of a valid day of a four-digit year reads back as that day |
| `Dates.ParsedIsKey` | components/StatisticsView.tsx:17 | a string that reads back as a day of a year from 1000 on is that day's key |
| `Dates.KeyMatchIffParses` | components/Calendar.tsx:29 | for four-digit years, equality with a day's key holds exactly when the string reads back as that day |
| `Statistics.MonthTxs` | components/StatisticsView.tsx:16-19 | `monthlyData` keeps exactly the transactions whose date reads back in the given year and month |
| `Statistics.MonthTxsAppend` | components/StatisticsView.tsx:16-19 | the month filter keeps the original order (it distributes over concatenation) |
| `Statistics.MonthlyTotal` | components/StatisticsView.tsx:21-22 | definition of the month's income or expense total; stated by `Statistics.MonthlyTotalAppend`, and `LedgerApp.HeaderOf` shows the header (App.tsx:79-85) computes the same total |
| `Statistics.MonthlyTotalAppend` | components/StatisticsView.tsx:21-22 | one more transaction changes a month's total by its amount exactly when it is of that month and type |
| `Statistics.MonthlyTotalCons` | components/StatisticsView.tsx:21-22 | the same for a transaction in front |
| `Statistics.NoMatchZeroTotal` | components/StatisticsView.tsx:21-22 | a month with no matching transaction, the empty ledger included, totals 0 |
| `Statistics.MonthlyTotalNonNegative` | components/StatisticsView.tsx:21-22 | non-negative amounts give non-negative totals |
| `Statistics.YearlyMonths` | components/StatisticsView.tsx:25-33 | twelve entries with `month` = 1..12 in order; entry `i` holds the income and expense totals of month index `i` |
| `Statistics.InMonth` | components/StatisticsView.tsx:16-19 | definition of the month filter: the date string reads back as a day of that year and month index, and an unreadable date matches no month; stated by `Statistics.MonthIndexIn` |
| `Statistics.InYear` | components/StatisticsView.tsx:26-29 | definition of lying in the year the trend filters by; stated by `Statistics.MonthIndexIn`: a transaction lies in exactly one of the year's twelve months when it lies in the year, and in none otherwise |
| `Statistics.MonthIndexIn` | components/StatisticsView.tsx:28 | a transaction lies in at most one month of a year, and in one exactly when it lies in the year |
| `Statistics.ColumnSumIsMonthsSum` | components/StatisticsView.tsx:25-33 | the first `n` trend entries sum to the totals of the first `n` months |
| `Statistics.MonthsSumCons` | components/StatisticsView.tsx:25-33 | a transaction adds its amount to the months `0..n-1` exactly when its month index is below `n` |
| `Statistics.MonthsSumOfNothing` | components/StatisticsView.tsx:25-33 | an empty ledger gives zero in every month |
| `Statistics.MonthsSumIsYearTotal` | components/StatisticsView.tsx:25-33 | the twelve month totals add up to the year's total |
| `Statistics.YearPartition` | components/StatisticsView.tsx:25-33 | each column of the trend sums to the year's total of that type: no transaction counted twice or lost |
| `Statistics.MaxYearlyValue` | components/StatisticsView.tsx:35 | the bound is at least 1 and at least every income and expense, and is one of them unless it is the floor 1 |
| `Statistics.BarHeight` | components/StatisticsView.tsx:153 | definition of a bar's height `(v / max) * 180` pixels; stated by `Statistics.BarHeightBounds` and `Statistics.TrendBarsFit` |
| `Statistics.BarHeightBounds` | components/StatisticsView.tsx:153 | `(v / max) * 180` lies in 0..180 for `0 <= v <= max` |
| `Statistics.TrendBarsFit` | components/StatisticsView.tsx:153-159 | with non-negative amounts every income and expense bar of the trend lies in 0..180 pixels |
| `CategoryBreakdown.OfKind` | components/StatisticsView.tsx:40 | the type filter keeps exactly the transactions of that type |
| `CategoryBreakdown.SumAllOfKind` | components/StatisticsView.tsx:40-46 | the amounts of the filtered transactions sum to that type's total |
| `CategoryBreakdown.CategoryTotals` | components/StatisticsView.tsx:41-44 | the accumulator's keys are exactly the categories in its key order |
| `CategoryBreakdown.AddAmount` | components/StatisticsView.tsx:43 | one step adds the transaction's category as a key, adds its amount to that key (from 0 when new) and leaves every other key as it was |
| `CategoryBreakdown.HasCategorySnoc` | components/StatisticsView.tsx:41-44 | a category occurs in a list with one more transaction exactly when it occurred before or is the new one's |
| `CategoryBreakdown.SumOfCategoryAbsent` | components/StatisticsView.tsx:41-44 | a category that does not occur sums to 0 |
| `CategoryBreakdown.KeyOrderFacts` | components/StatisticsView.tsx:41-47 | the key order lists each category once, and exactly the categories that occur |
| `CategoryBreakdown.AccumulatorSums` | components/StatisticsView.tsx:41-44 | each key of the accumulator holds the sum of the amounts of its category |
| `CategoryBreakdown.AccumulateByCategory` | components/StatisticsView.tsx:41-44 | the mutating `reduce` loop builds the key order and the map of the specification; the keys are distinct and each holds its category's sum |
| `CategoryBreakdown.Entries` | components/StatisticsView.tsx:47 | `Object.entries` lists one pair per key in key order, each with the key's value |
| `CategoryBreakdown.EntriesStep` | components/StatisticsView.tsx:42 | one accumulation step adds the transaction's amount to the sum of the entries |
| `CategoryBreakdown.EntriesSum` | components/StatisticsView.tsx:41-47 | the entries' amounts sum to the sum of all amounts accumulated |
| `CategoryBreakdown.InsertDescPermutes` | components/StatisticsView.tsx:48 | inserting an entry into the sorted list adds exactly that entry and its amount |
| `CategoryBreakdown.InsertDescSorted` | components/StatisticsView.tsx:48 | inserting into a list sorted largest first keeps it sorted |
| `CategoryBreakdown.InsertDescStable` | components/StatisticsView.tsx:48 | the inserted entry goes after every entry of equal amount |
| `CategoryBreakdown.InsertDescDistinct` | components/StatisticsView.tsx:48 | inserting a new name keeps the names distinct |
| `CategoryBreakdown.WithAmountNone` | components/StatisticsView.tsx:48 | a sorted list whose largest amount is below `v` has no entry of amount `v` |
| `CategoryBreakdown.SortDesc` | components/StatisticsView.tsx:48 | definition of the stable descending sort; stated by `CategoryBreakdown.SortDescFacts`: a permutation, sorted by non-increasing amount, keeping equal amounts in their original order |
| `CategoryBreakdown.SortDescFacts` | components/StatisticsView.tsx:48 | the sort returns a permutation, sorted by non-increasing amount, with the same sum, and stable: the entries of each amount keep their order |
| `CategoryBreakdown.SortDescDistinct` | components/StatisticsView.tsx:48 | sorting keeps distinct names distinct |
| `CategoryBreakdown.Percentage` | components/StatisticsView.tsx:52 | 0 when the total is not positive; otherwise the integer `p` with `p <= amount/total*100 + 0.5 < p + 1`: `Math.round` of the exact quotient (the view rounds a double; see Left out) |
| `CategoryBreakdown.RoundedShare` | components/StatisticsView.tsx:52 | `(200 amount + total) div (2 total)` is the exact share `amount / total * 100` rounded half up, computed on integers |
| `CategoryBreakdown.PercentageRange` | components/StatisticsView.tsx:52 | a share of a total with `0 <= amount <= total` lies in 0..100 |
| `CategoryBreakdown.Shares` | components/StatisticsView.tsx:49-53 | one row per entry, in order, with its name, amount and rounded share of the type's total |
| `CategoryBreakdown.CategorySummary` | components/StatisticsView.tsx:38-54 | `getCategorySummary` returns the specification's rows, ordered by non-increasing amount, with distinct names, summing to the type's monthly total |
| `CategoryBreakdown.SharesSumOfRows` | components/StatisticsView.tsx:49-53 | the rows' amounts sum to the entries' amounts |
| `CategoryBreakdown.Summary` | components/StatisticsView.tsx:38-54 | definition of the category rows; stated by `CategoryBreakdown.SummaryRows`, `CategoryBreakdown.SummaryOrdered`, `CategoryBreakdown.SummarySum` and `CategoryBreakdown.SummaryPercentages`, and computed by `CategoryBreakdown.CategorySummary` |
| `CategoryBreakdown.SummaryOrdered` | components/StatisticsView.tsx:47-48 | the rows come largest amount first and no category appears twice |
| `CategoryBreakdown.SummarySum` | components/StatisticsView.tsx:39-46 | the row amounts add up to the type's monthly total |
| `CategoryBreakdown.SummaryRows` | components/StatisticsView.tsx:39-44 | there is a row for exactly the categories of the type present in the month, each with the sum of that category |
| `CategoryBreakdown.SummaryPercentages` | components/StatisticsView.tsx:52 | with non-negative amounts every percentage lies in 0..100 |
| `CategoryBreakdown.EmptyMonthSummary` | components/StatisticsView.tsx:39-53 | a month without transactions has an empty breakdown |
| `CategoryBreakdown.SumOfCategoryBounds` | components/StatisticsView.tsx:41-44 | with non-negative amounts a category's sum lies between 0 and the sum of all amounts |
| `Calendar.BuildDays` | components/Calendar.tsx:19-25 | the grid is `firstDay` blanks followed by 1..daysInMonth: cell `firstDay + k - 1` holds `k` |
| `Calendar.CellsOfGrid` | components/Calendar.tsx:19-25 | a blank lies exactly before the first day, and a day cell at `idx` holds `idx - firstDay + 1` |
| `Calendar.MonthGrid` | components/Calendar.tsx:16-25 | the month's grid has `weekday(1st) + daysInMonth <= 42` cells; a cell is blank exactly when it lies before the weekday of the 1st, and every other cell holds a distinct day, so every day appears exactly once, in the column `idx % 7` of its own weekday |
| `Calendar.DayTxs` | components/Calendar.tsx:27-30 | `getDayTransactions` keeps exactly the transactions whose date string equals the key |
| `Calendar.DayTotal` | components/Calendar.tsx:57-58 | definition of a day cell's income or expense; stated by `Calendar.DayTotalCons` |
| `Calendar.DayTotalCons` | components/Calendar.tsx:57-58 | a transaction adds to a day's income or expense exactly when its date equals the key and it has that type |
| `Calendar.FindHoliday` | components/Calendar.tsx:32-35 | `HOLIDAYS.find`: nothing exactly when no holiday has the key; otherwise the first holiday with that key |
| `Calendar.DayColour` | components/Calendar.tsx:71 | definition of the day number's colour from its grid column and holiday flag; stated by `Calendar.DayColourByWeekday` |
| `Calendar.DayColourByWeekday` | components/Calendar.tsx:71 | in a month grid a day is red exactly when it is a Sunday or a holiday, and blue exactly when it is a Saturday that is not a holiday |
| `Calendar.Cell` | components/Calendar.tsx:54-59 | a day cell carries its key, is today exactly when the key equals today's string, and shows the day's income, expense, holiday and colour |
| `Calendar.OneToday` | components/Calendar.tsx:55 | at most one day of the month is marked today |
| `Calendar.DayIndexIn` | components/Calendar.tsx:54-58 | the day of the month a transaction reads back as is in 1..daysInMonth exactly when it lies in that month |
| `Calendar.CellMatch` | components/Calendar.tsx:29 | for four-digit years a transaction lands in day `d`'s cell exactly when its date reads back as that day |
| `Calendar.DaysSumCons` | components/Calendar.tsx:57-58 | a transaction adds to the cells of days `1..n` exactly when its day is among them |
| `Calendar.DaysSumOfNothing` | components/Calendar.tsx:57-58 | an empty ledger shows nothing in any cell |
| `Calendar.DaysPartitionMonth` | components/Calendar.tsx:27-30 | for a four-digit year the day cells' income (or expense) add up to the month's total in the header and statistics |
| `Calendar.KnownMonths` | components/Calendar.tsx:16-17 | February 2024 has 29 days and starts on a Thursday, February 2023 has 28, and January 1st, 2024 is a Monday |
| `Finance.MaturityOf` | components/FinanceView.tsx:22-40 | principal is `monthlyAmount * term` (installment) or `monthlyAmount` (deposit); interest is the gross less 15.4% tax; total is their sum; with non-negative inputs the total is at least the principal |
| `Finance.GrossInterest` | components/FinanceView.tsx:28-35 | definition of the interest before tax; stated by `Finance.GrossInterestNonNegative`, `Finance.InstallmentInterestIsHeldInterest` and `Finance.DepositIsSimpleInterest` |
| `Finance.GrossInterestNonNegative` | components/FinanceView.tsx:28-35 | non-negative amount, rate and term give non-negative interest |
| `Finance.HeldInterestClosedForm` | components/FinanceView.tsx:30-31 | summing `amount * k * rate/1200` over `k = 1..n` gives `amount * n(n+1)/2 * rate/1200` |
| `Finance.InstallmentInterestIsHeldInterest` | components/FinanceView.tsx:28-31 | the installment formula is the simple interest of each payment for the months it is held |
| `Finance.DepositIsSimpleInterest` | components/FinanceView.tsx:32-34 | a deposit earns `principal * rate * term / 1200` |
| `Finance.MaturityExamples` | components/FinanceView.tsx:37-39 | 1,000,000 deposited at 4% for 12 months matures at 1,033,840; 100,000 a month at 3.6% for 12 months earns 19,796.4 after tax, shown as 1,219,796 |
| `Finance.SavingsPrincipalTotal` | components/FinanceView.tsx:160 | definition of the principal card; stated by `Finance.SavingsPrincipalTotalIsMaturityPrincipal` |
| `Finance.SavingsPrincipalTotalIsMaturityPrincipal` | components/FinanceView.tsx:160 | the principal card sums the principals of the maturity calculation |
| `Finance.PowAboveOne` | components/FinanceView.tsx:46-47 | `(1 + i)^n > 1` for `i > 0` and `n >= 1` |
| `Finance.PowOfOne` | components/FinanceView.tsx:46-47 | `1^n = 1`, the zero-rate denominator |
| `Finance.MonthlyPaymentAsWritten` | components/FinanceView.tsx:43-49 | no number exactly when the term is below 1 or `(1+i)^n - 1` is zero; otherwise an integer within 1 below `P i q^n / (q^n - 1)` |
| `Finance.MonthlyPayment` | components/FinanceView.tsx:43-49 | as written for a non-zero rate; for rate 0 the floor of `principal / term` when the term is at least 1 |
| `Finance.PaymentExists` | components/FinanceView.tsx:43-49 | a positive rate and a term of at least one month always give a payment |
| `Finance.OneMonthExact` | components/FinanceView.tsx:46-48 | for one month the exact payment is `P (1 + i)` |
| `Finance.OneMonthPayment` | components/FinanceView.tsx:48 | for one month the payment is `floor(P (1 + i))` |
| `Finance.BalanceClosedForm` | components/FinanceView.tsx:46-48 | after `k` payments `a` the balance times `i` is `P q^k i - a (q^k - 1)` |
| `Finance.ExactPayment` | components/FinanceView.tsx:46-48 | definition of the annuity payment before flooring; stated by `Finance.ExactPaymentRepays` |
| `Finance.ExactPaymentRepays` | components/FinanceView.tsx:46-48 | the unrounded payment repays the loan in exactly `term` months |
| `Finance.BalanceAntitone` | components/FinanceView.tsx:44-48 | with a non-negative rate, a smaller monthly payment never leaves a smaller balance after any number of months |
| `Finance.FlooredPaymentLeavesBalance` | components/FinanceView.tsx:48 | the floored payment never overpays: the balance left after `term` months is at least 0 |
| `Finance.ZeroRateHasNoPayment` | components/FinanceView.tsx:44-48 | at rate 0 the formula as written has no value (NaN), while the corrected payment exists |
| `Finance.InterestFreeBalance` | components/FinanceView.tsx:43-49 | with no interest the balance after `k` payments `a` is `P - k a` |
| `Finance.InterestFreeRepays` | components/FinanceView.tsx:43-49 | `term` payments of `P / term` repay an interest-free loan exactly |
| `Finance.InterestFreePaymentRepays` | components/FinanceView.tsx:43-49 | the floored interest-free payment leaves a balance in 0 .. term |
| `Finance.LoanTotal` | components/FinanceView.tsx:192 | the total is a number exactly when every loan's corrected payment (`Finance.MonthlyPayment`) is; as written, any loan with rate 0 makes the source's total NaN (see Findings) |
| `Finance.FixedTotal` | components/FinanceView.tsx:116 | definition of the fixed-expense total; stated by `Finance.FixedTotalAppend` and `Finance.FixedTotalRemove` |
| `Finance.FixedTotalAppend` | components/FinanceView.tsx:116 | appending a fixed expense raises the total by its amount |
| `Finance.FixedTotalRemove` | components/FinanceView.tsx:81-85 | with positive amounts, deleting by id never raises the total |
| `Finance.RemoveId` | components/FinanceView.tsx:83 | the filter keeps exactly the items whose id differs, never more than there were |
| `Finance.RemoveIdAppend` | components/FinanceView.tsx:83 | the kept items stay in their original order (the filter distributes over concatenation) |
| `Finance.RemoveAbsentId` | components/FinanceView.tsx:83 | deleting an id no item carries leaves the list unchanged |
| `Finance.FinanceStore.constructor` | App.tsx:21-32 | the three lists start as given |
| `Finance.Named` | components/FinanceView.tsx:51-79 | definition of the `name &&` guard: a cancelled or empty name prompt; stated by `Finance.FinanceStore.AddFixedExpense`, `Finance.FinanceStore.AddSaving` and `Finance.FinanceStore.AddLoan`, which add nothing without a name |
| `Finance.FinanceStore.AddFixedExpense` | components/FinanceView.tsx:51-58 | with a name and a positive amount exactly one item is appended and the total rises by the amount; otherwise nothing changes; the other lists never change |
| `Finance.FinanceStore.AddSaving` | components/FinanceView.tsx:60-69 | with a name and a positive amount exactly one saving is appended, its kind from the confirmation; otherwise nothing changes |
| `Finance.FinanceStore.AddLoan` | components/FinanceView.tsx:71-79 | with a name and a positive principal exactly one loan is appended; otherwise nothing changes |
| `Finance.FinanceStore.DeleteItem` | components/FinanceView.tsx:81-85 | once confirmed, the chosen list loses the items of that id and the others stay; unconfirmed, nothing changes |
| `LedgerApp.Years` | App.tsx:92 | the year select offers 2024..2030 in order |
| `LedgerApp.Step` | App.tsx:70-72 | `changeMonth(offset)` lands on a valid day 1, `offset` months on |
| `LedgerApp.InRange` | App.tsx:92-93 | definition of the months the year and month selects offer, 2024-01 .. 2030-12; stated by `LedgerApp.StepsStayInRange` and `LedgerApp.DisabledAtTheEnds` |
| `LedgerApp.PrevDisabled` | App.tsx:113 | definition of the previous button's `disabled` condition; stated by `LedgerApp.DisabledAtTheEnds` |
| `LedgerApp.NextDisabled` | App.tsx:138 | definition of the next button's `disabled` condition; stated by `LedgerApp.DisabledAtTheEnds` |
| `LedgerApp.DisabledAtTheEnds` | App.tsx:113-138 | inside 2024-01..2030-12 the previous button is disabled exactly at 2024-01 and the next button exactly at 2030-12 |
| `LedgerApp.StepsStayInRange` | App.tsx:111-142 | a step the buttons allow from inside 2024-01..2030-12 stays inside it |
| `LedgerApp.StepWraps` | App.tsx:70-72 | December plus one is January of the next year; January minus one is December of the year before |
| `LedgerApp.HeaderOf` | App.tsx:74-85 | the header income and expense are the statistics view's month totals, and the balance is income minus expense |
| `LedgerApp.HeaderAfterAppend` | App.tsx:52-58 | appending a transaction moves only its own type's card, and the balance by plus or minus its amount, and only when it falls in the month shown |
| `LedgerApp.HeaderMatchesCalendar` | App.tsx:74-85 | for four-digit years the header figures are the sums of the calendar's day cells |
| `LedgerApp.OrDefault` | App.tsx:220-225 | `x || d` on a string: a present, non-empty string is kept and a missing or empty one gives the default; used by `LedgerApp.FromAssistant` |
| `LedgerApp.AmountOf` | App.tsx:224 | `Number(x) || 0`: a numeric amount is kept and anything else gives 0; used by `LedgerApp.FromAssistant` |
| `LedgerApp.FromAssistant` | App.tsx:219-228 | a missing type gives expense; a missing or empty category, description or date gives "기타", "AI 비서의 기록" or today; a non-numeric amount gives 0; every given value passes through |
| `LedgerApp.DefaultingKeepsGivenFields` | App.tsx:219-228 | defaulting a complete record gives back the same record |
| `LedgerApp.DefaultingEmptyArgs` | App.tsx:219-228 | with no argument at all the record is a zero expense of today in "기타" |
| `LedgerApp.Ledger.constructor` | App.tsx:12-18 | the ledger starts with the saved transactions and today's date |
| `LedgerApp.Ledger.CurrentTransactions` | App.tsx:74-77 | `currentTransactions` holds exactly the ledger entries of the month shown |
| `Types.WithId` | App.tsx:53-56 | the record `{...data, id}`: every field of the input and the given id; used by `LedgerApp.Ledger.AddTransaction` |
| `LedgerApp.Ledger.AddTransaction` | App.tsx:52-58 | exactly one entry with the input's fields and the id is appended; earlier entries and the month shown are unchanged |
| `LedgerApp.Ledger.ChangeMonth` | App.tsx:70-72 | the month shown moves by `offset` months to day 1; the ledger is unchanged |
| `LedgerApp.Ledger.YearChange` | App.tsx:60-63 | the year changes, the month stays, the day becomes 1 |
| `LedgerApp.Ledger.MonthChange` | App.tsx:65-68 | the month changes within the year (carrying into it when outside 0..11), the day becomes 1 |
| `LedgerApp.Ledger.OnAssistantTransaction` | App.tsx:218-228 | the defaulted record is appended |
| `LedgerApp.Ledger.SubmitEntry` | App.tsx:231-232 | the entry form's record is appended exactly when its guard lets it through, and then the form closes; otherwise the ledger and the form's open state are unchanged; the form's fields are never changed |
| `TransactionModal.CategoriesFor` | components/TransactionModal.tsx:25 | the income categories for income, the expense categories for expense |
| `TransactionModal.EntryForm.constructor` | components/TransactionModal.tsx:13-16 | the form opens as an expense with no category, amount 0 and no description |
| `TransactionModal.EntryForm.SetKind` | components/TransactionModal.tsx:40-47 | switching the type clears the category and keeps the rest |
| `TransactionModal.EntryForm.SetCategory` | components/TransactionModal.tsx:58 | sets the category only |
| `TransactionModal.EntryForm.SetAmount` | components/TransactionModal.tsx:72 | sets the amount only |
| `TransactionModal.EntryForm.SetDescription` | components/TransactionModal.tsx:84 | sets the description only |
| `TransactionModal.CanSubmit` | components/TransactionModal.tsx:20 | definition of the submit guard, a chosen category and a positive amount; stated by `TransactionModal.EntryForm.Submit` and `TransactionModal.SubmitFilled` |
| `TransactionModal.EntryForm.Submit` | components/TransactionModal.tsx:18-23 | with a category and a positive amount the form's record is handed on once and the form closes; otherwise nothing is saved and the form stays open |
| `TransactionModal.SubmitUntouched` | components/TransactionModal.tsx:13-20 | an untouched form is rejected |
| `TransactionModal.SubmitFilled` | components/TransactionModal.tsx:18-23 | a filled-in form saves exactly what was entered on its day when the guard holds, and nothing otherwise |
| `TransactionModal.SwitchAfterChoosing` | components/TransactionModal.tsx:40-47 | switching the type after choosing a category makes the form unsubmittable until a category is chosen again |

## Left out

- Saving to and loading from `localStorage` (App.tsx:15-50) is I/O. The ledger and the finance store start from given lists. A corrupt saved blob makes `JSON.parse` throw; that is not modelled.
- The assistant is not modelled. Its chat widget is `components/AIChatbot.tsx` and its network call is `services/geminiService.ts`. Only the defaulting of its `addTransaction` arguments is modelled.
- `index.tsx` is DOM start-up only.
- `prompt` and `confirm` dialogs, `Date.now()` ids, random base-36 ids and today's date are all parameters. Ids carry no uniqueness guarantee.
- Rendering, CSS, `toLocaleString` formatting and the active-tab state are left out.
- Floating point is not modelled. The calculators use exact reals, so rounding of `Math.pow` and of `0.154` is not reproduced. NaN and Infinity from a zero denominator are `None`.
- Fractional amounts are not modelled: ledger and form amounts are whole won.
- `CategoryBreakdown.Percentage` rounds the exact quotient. The view rounds the double `(amount / total) * 100`, which can fall just below a half and round down: 23 of 40 shows 57 where the model gives 58 (also 29 of 200 and 57 of 200).
- `Types.Saving.term` and `Types.Loan.term` are whole months. The source stores `Number(prompt(...))` for the term unchecked (components/FinanceView.tsx:65-66, 75-76), so a fractional or non-numeric answer reaches the installment formula and `Math.pow`. Such terms are not modelled.
- `Finance.MonthlyPaymentAsWritten`: a negative term gives `None`. In JavaScript, `Math.pow` with a negative exponent gives a finite number there.
- `Dates.ParseDate` only reads strings of the `full-date` form back. JavaScript's `Date` also accepts other forms, which are not modelled. A well-formed string whose day overflows its month ("2024-02-30") is `None` here. Engines differ on it: V8 accepts days up to 31 and rolls over into the next month, so that entry would count in March; Firefox and Safari give an Invalid Date, as the model does.
- Time zones are not modelled. `new Date("YYYY-MM-DD")` is UTC and its local getters can shift the month; here the string's own year and month are used. Today's string from `toISOString()` is a parameter.
- JavaScript maps the years 0..99 of `new Date(y, m, 1)` to 1900..1999. `Dates.FirstOfMonth` does not, since the navigation only reaches 2024..2030.
- The calendar's key matching and reading the date back agree only for four-digit years. The lemmas relating them say so in their preconditions.
- `LedgerApp.FromAssistant`: an assistant type outside INCOME/EXPENSE is not modelled. The function schema forbids it, so the type is `Option<TxType>`.
- `CategoryBreakdown.AddAmount` gives every category name its per-category sum. The view accumulates into a plain object literal `{}`, so names inherited from `Object.prototype` misbehave there, and the assistant's category is free text (App.tsx:223). For "__proto__" the assignment sets the prototype and is ignored for a number, so that category has no row and the rows sum to less than the month total. For "constructor", "toString", "valueOf" and the other inherited names, `acc[c] || 0` is the inherited function, the sum becomes a string, its percentage is NaN and the sort's comparator gives NaN for it. These names are not modelled; `CategoryBreakdown.CategoryTotals` and `CategoryBreakdown.CategorySummary` share this.
- `Object.entries` lists integer-like keys first, in numeric order. The model keeps first-occurrence order for every category name.
- The contents of the `constants` module are parameters: holidays and the two category lists.
- The loan total card is rendered only when there is at least one loan (components/FinanceView.tsx:188). `Finance.LoanTotal` is defined for every list.

## Findings

| source | as written | input that shows it | evidently intended | confidence | as-written member | corrected member |
|---|---|---|---|---|---|---|
| components/FinanceView.tsx:43-49 | the monthly payment divides `P i (1+i)^n` by `(1+i)^n - 1` with no case for a zero rate | an interest-free loan: principal 1,200,000, rate 0, term 12 gives 0 / 0, so the card and the loan total show NaN | the principal split into equal monthly parts, `floor(1,200,000 / 12) = 100,000` | medium, not executed | `Finance.MonthlyPaymentAsWritten` (`Finance.ZeroRateHasNoPayment`) | `Finance.MonthlyPayment` (`Finance.InterestFreeRepays`, `Finance.InterestFreePaymentRepays`) |
