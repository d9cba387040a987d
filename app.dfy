/** The application shell (App.tsx): the ledger of transactions, the month
    being shown with its navigation, the header totals for that month, and
    the two ways records reach the ledger: the entry form and the
    assistant, whose loosely typed arguments are completed with defaults
    first. Ids, today's date and the answers of the selects come in as
    parameters. */
module LedgerApp {
  import opened Types
  import opened Dates
  import Statistics
  import Calendar
  import TransactionModal

  // ---------------------------------------------------------------------
  // Navigation

  /** The years the year select offers: 2024 .. 2030. */
  function Years(): (r: seq<int>)
    ensures |r| == 7 && forall i :: 0 <= i < 7 ==> r[i] == 2024 + i
  {
    seq(7, i => 2024 + i)
  }

  /** The months of 2024-01 .. 2030-12, the range the buttons keep to. */
  predicate InRange(c: CalDate)
  {
    0 <= c.month < 12 && 2024 * 12 <= c.year * 12 + c.month <= 2030 * 12 + 11
  }

  /** The previous-month button is disabled when year <= 2024 and month <= 0. */
  predicate PrevDisabled(c: CalDate)
  {
    c.year <= 2024 && c.month <= 0
  }

  /** The next-month button is disabled when year >= 2030 and month >= 11. */
  predicate NextDisabled(c: CalDate)
  {
    c.year >= 2030 && c.month >= 11
  }

  /** `new Date(year, month + offset, 1)`. */
  function Step(c: CalDate, offset: int): (r: CalDate)
    ensures ValidDate(r) && r.day == 1
    ensures r.year * 12 + r.month == c.year * 12 + c.month + offset
  {
    FirstOfMonth(c.year, c.month + offset)
  }

  /** Inside the range, the buttons are disabled exactly at its two ends. */
  lemma DisabledAtTheEnds(c: CalDate)
    requires InRange(c)
    ensures PrevDisabled(c) <==> c.year == 2024 && c.month == 0
    ensures NextDisabled(c) <==> c.year == 2030 && c.month == 11
  {
  }

  /** A step the buttons allow from inside the range stays inside it, and
      lands on the month before or after. */
  lemma StepsStayInRange(c: CalDate, offset: int)
    requires InRange(c)
    requires (offset == -1 && !PrevDisabled(c)) || (offset == 1 && !NextDisabled(c))
    ensures InRange(Step(c, offset))
    ensures Step(c, offset).year * 12 + Step(c, offset).month == c.year * 12 + c.month + offset
  {
  }

  /** Month overflow: December plus one is January of the next year, and
      January minus one December of the year before. */
  lemma StepWraps(y: int, d: int)
    ensures Step(CalDate(y, 11, d), 1) == CalDate(y + 1, 0, 1)
    ensures Step(CalDate(y, 0, d), -1) == CalDate(y - 1, 11, 1)
  {
  }

  // ---------------------------------------------------------------------
  // Header totals

  /** The three header cards for the month shown. */
  datatype Header = Header(income: int, expense: int, balance: int)

  /** `totalIncome`, `totalExpense` and the balance `totalIncome -
      totalExpense`, over `currentTransactions`. */
  function HeaderOf(txs: seq<Transaction>, c: CalDate): (h: Header)
    ensures h.income == Statistics.MonthlyTotal(txs, c.year, c.month, Income)
    ensures h.expense == Statistics.MonthlyTotal(txs, c.year, c.month, Expense)
    ensures h.balance == h.income - h.expense
  {
    var income := Statistics.MonthlyTotal(txs, c.year, c.month, Income);
    var expense := Statistics.MonthlyTotal(txs, c.year, c.month, Expense);
    Header(income, expense, income - expense)
  }

  /** Appending a transaction moves the header only when it falls in the
      month shown: its amount goes to its own type's card and the balance
      moves by plus or minus the amount. */
  lemma HeaderAfterAppend(txs: seq<Transaction>, t: Transaction, c: CalDate)
    ensures var before, after := HeaderOf(txs, c), HeaderOf(txs + [t], c);
            && after.income == before.income + (if Statistics.InMonth(t, c.year, c.month) && t.kind == Income then t.amount else 0)
            && after.expense == before.expense + (if Statistics.InMonth(t, c.year, c.month) && t.kind == Expense then t.amount else 0)
            && after.balance == before.balance
                 + (if !Statistics.InMonth(t, c.year, c.month) then 0 else if t.kind == Income then t.amount else -t.amount)
  {
    Statistics.MonthlyTotalAppend(txs, t, c.year, c.month, Income);
    Statistics.MonthlyTotalAppend(txs, t, c.year, c.month, Expense);
  }

  /** For a four-digit year the header income and expense are the sums of
      the calendar's day cells. */
  lemma HeaderMatchesCalendar(txs: seq<Transaction>, c: CalDate)
    requires 1000 <= c.year <= 9999 && 0 <= c.month < 12
    ensures HeaderOf(txs, c).income == Calendar.DaysSum(txs, c.year, c.month, Income, DaysInMonth(c.year, c.month))
    ensures HeaderOf(txs, c).expense == Calendar.DaysSum(txs, c.year, c.month, Expense, DaysInMonth(c.year, c.month))
  {
    Calendar.DaysPartitionMonth(txs, c.year, c.month, Income);
    Calendar.DaysPartitionMonth(txs, c.year, c.month, Expense);
  }

  // ---------------------------------------------------------------------
  // The assistant's arguments

  /** What `Number(data.amount)` makes of the amount argument: a missing
      amount and a non-numeric value give NaN; whole numbers are kept. */
  datatype RawAmount = Absent | Numeric(value: int) | NotANumber

  /** The arguments of an `addTransaction` call as the assistant sends
      them; any of them may be missing, and a string may be empty. */
  datatype AssistantArgs = AssistantArgs(
    kind: Option<TxType>,
    category: Option<string>,
    amount: RawAmount,
    description: Option<string>,
    date: Option<string>)

  /** `x || d` on a string: a missing or empty string gives the default. */
  function OrDefault(x: Option<string>, d: string): (r: string)
    ensures x.Some? && x.value != [] ==> r == x.value
    ensures x.None? || x.value == [] ==> r == d
  {
    if x.Some? && x.value != [] then x.value else d
  }

  /** `Number(data.amount) || 0`: NaN (and 0) become 0. */
  function AmountOf(a: RawAmount): (r: int)
    ensures a.Numeric? ==> r == a.value
    ensures !a.Numeric? ==> r == 0
  {
    if a.Numeric? then a.value else 0
  }

  const DefaultCategory: string := "기타"
  const DefaultDescription: string := "AI 비서의 기록"

  /** The record the `onTransaction` callback builds: the type defaults to
      expense, the category to "기타", the description to "AI 비서의 기록",
      the date to today. The amount is not checked: a negative or zero
      amount from the assistant is recorded as it is. */
  function FromAssistant(args: AssistantArgs, today: string): (t: TxInput)
    ensures args.kind.Some? ==> t.kind == args.kind.value
    ensures args.kind.None? ==> t.kind == Expense
    ensures args.category.Some? && args.category.value != [] ==> t.category == args.category.value
    ensures args.category.None? || args.category.value == [] ==> t.category == DefaultCategory
    ensures args.amount.Numeric? ==> t.amount == args.amount.value
    ensures !args.amount.Numeric? ==> t.amount == 0
    ensures args.description.Some? && args.description.value != [] ==> t.description == args.description.value
    ensures args.description.None? || args.description.value == [] ==> t.description == DefaultDescription
    ensures args.date.Some? && args.date.value != [] ==> t.date == args.date.value
    ensures args.date.None? || args.date.value == [] ==> t.date == today
  {
    TxInput(
      OrDefault(args.date, today),
      if args.kind.Some? then args.kind.value else Expense,
      OrDefault(args.category, DefaultCategory),
      AmountOf(args.amount),
      OrDefault(args.description, DefaultDescription))
  }

  /** The arguments that describe a record completely. */
  function ArgsOf(t: TxInput): AssistantArgs
  {
    AssistantArgs(Some(t.kind), Some(t.category), Numeric(t.amount), Some(t.description), Some(t.date))
  }

  /** Defaulting leaves a complete record alone: the fields that are given
      pass through unchanged. */
  lemma DefaultingKeepsGivenFields(t: TxInput, today: string)
    requires t.category != [] && t.description != [] && t.date != []
    ensures FromAssistant(ArgsOf(t), today) == t
  {
  }

  /** With every argument missing, the record is a zero expense of today in
      "기타" with the assistant's description. */
  lemma DefaultingEmptyArgs(today: string)
    ensures FromAssistant(AssistantArgs(None, None, Absent, None, None), today)
            == TxInput(today, Expense, DefaultCategory, 0, DefaultDescription)
  {
  }

  // ---------------------------------------------------------------------
  // The application state

  class Ledger {
    var transactions: seq<Transaction>
    /** `currentDate`: the month shown (and, before any navigation, today). */
    var current: CalDate

    predicate Valid()
      reads this
    {
      ValidDate(current)
    }

    constructor(saved: seq<Transaction>, today: CalDate)
      requires ValidDate(today)
      ensures Valid() && transactions == saved && current == today
    {
      transactions, current := saved, today;
    }

    /** `currentTransactions`: the ledger entries of the month shown, in order. */
    function CurrentTransactions(): (r: seq<Transaction>)
      reads this
      ensures forall t :: t in r <==> t in transactions && Statistics.InMonth(t, current.year, current.month)
    {
      Statistics.MonthTxs(transactions, current.year, current.month)
    }

    /** `handleAddTransaction`: one new entry with the given id at the end;
        the earlier entries and the month shown stay as they were. */
    method AddTransaction(data: TxInput, id: string)
      requires Valid()
      modifies this
      ensures Valid() && current == old(current)
      ensures transactions == old(transactions) + [data.WithId(id)]
      ensures |transactions| == |old(transactions)| + 1
      ensures transactions[..|old(transactions)|] == old(transactions)
    {
      transactions := transactions + [data.WithId(id)];
      assert transactions[..|old(transactions)|] == old(transactions);
    }

    /** `changeMonth(offset)`: the 1st of the month `offset` months on. */
    method ChangeMonth(offset: int)
      requires Valid()
      modifies this
      ensures Valid() && transactions == old(transactions)
      ensures current == Step(old(current), offset)
      ensures current.day == 1 && current.year * 12 + current.month == old(current.year * 12 + current.month) + offset
    {
      current := Step(current, offset);
    }

    /** `handleYearChange`: the 1st of the same month of the chosen year. */
    method YearChange(newYear: int)
      requires Valid()
      modifies this
      ensures Valid() && transactions == old(transactions)
      ensures current == CalDate(newYear, old(current.month), 1)
    {
      current := FirstOfMonth(newYear, current.month);
    }

    /** `handleMonthChange`: the 1st of the chosen month of the same year;
        a month index outside 0..11 carries into the year. */
    method MonthChange(newMonth: int)
      requires Valid()
      modifies this
      ensures Valid() && transactions == old(transactions)
      ensures current == FirstOfMonth(old(current.year), newMonth)
      ensures 0 <= newMonth < 12 ==> current == CalDate(old(current.year), newMonth, 1)
    {
      current := FirstOfMonth(current.year, newMonth);
    }

    /** The assistant's `onTransaction` callback: the defaulted record is
        appended. */
    method OnAssistantTransaction(args: AssistantArgs, today: string, id: string)
      requires Valid()
      modifies this
      ensures Valid() && current == old(current)
      ensures transactions == old(transactions) + [FromAssistant(args, today).WithId(id)]
    {
      AddTransaction(FromAssistant(args, today), id);
    }

    /** The entry form's submit with `onSave = handleAddTransaction`: the
        ledger grows by the form's record exactly when the form's guard
        lets it through. */
    method SubmitEntry(form: TransactionModal.EntryForm, id: string)
      requires Valid()
      modifies this, form
      ensures Valid() && current == old(current)
      ensures TransactionModal.CanSubmit(old(form.category), old(form.amount)) ==>
                transactions == old(transactions)
                  + [TxInput(form.date, old(form.kind), old(form.category), old(form.amount), old(form.description)).WithId(id)]
      ensures !TransactionModal.CanSubmit(old(form.category), old(form.amount)) ==>
                transactions == old(transactions)
      ensures form.open == (old(form.open) && !TransactionModal.CanSubmit(old(form.category), old(form.amount)))
      ensures form.kind == old(form.kind) && form.category == old(form.category)
      ensures form.amount == old(form.amount) && form.description == old(form.description)
    {
      var saved := form.Submit();
      if saved.Some? {
        AddTransaction(saved.value, id);
      }
    }
  }
}
