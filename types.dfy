/** The records of the ledger (types.ts) and the two small wrappers the
    model uses for values that may be missing. */
module Types {

  datatype Option<+T> = None | Some(value: T)

  /** `TransactionType`: 'INCOME' | 'EXPENSE'. */
  datatype TxType = Income | Expense

  /** A ledger entry. `date` is kept as the string the record carries
      (normally `YYYY-MM-DD`); amounts are whole won. */
  datatype Transaction = Transaction(
    id: string,
    date: string,
    kind: TxType,
    category: string,
    amount: int,
    description: string)

  /** `Omit<Transaction, 'id'>`: what the entry form and the assistant hand
      to the ledger before an id is attached. */
  datatype TxInput = TxInput(
    date: string,
    kind: TxType,
    category: string,
    amount: int,
    description: string)
  {
    function WithId(id: string): (t: Transaction)
      ensures t.id == id && t.date == date && t.kind == kind
      ensures t.category == category && t.amount == amount && t.description == description
    {
      Transaction(id, date, kind, category, amount, description)
    }
  }

  datatype Holiday = Holiday(date: string, name: string)

  /** A recurring outflow; `day` (1..31) is informational and not validated. */
  datatype FixedExpense = FixedExpense(id: string, name: string, amount: real, day: int)

  /** 'INSTALLMENT' (periodic contribution) | 'DEPOSIT' (lump sum). */
  datatype SavingKind = Installment | Deposit

  /** `monthlyAmount` is the monthly contribution of an installment saving
      and the whole principal of a deposit; `rate` is an annual percentage;
      `term` is in months. */
  datatype Saving = Saving(
    id: string,
    name: string,
    kind: SavingKind,
    monthlyAmount: real,
    rate: real,
    term: int,
    startDate: string)

  datatype Loan = Loan(
    id: string,
    name: string,
    principal: real,
    rate: real,
    term: int,
    startDate: string)

  /** Sum of `amount` over the transactions of one type: the
      `.filter(t => t.type === k).reduce((acc, curr) => acc + curr.amount, 0)`
      idiom that every view repeats. */
  function SumOfKind(txs: seq<Transaction>, k: TxType): int
  {
    if txs == [] then 0
    else (if txs[0].kind == k then txs[0].amount else 0) + SumOfKind(txs[1..], k)
  }

  /** Sum of `amount` over all transactions, whatever their type. */
  function SumAll(txs: seq<Transaction>): int
  {
    if txs == [] then 0 else txs[0].amount + SumAll(txs[1..])
  }

  /** A non-empty sequence is its head followed by its tail. */
  lemma HeadTail<T>(s: seq<T>)
    requires s != []
    ensures [s[0]] + s[1..] == s
  {
  }

  lemma {:induction false} SumOfKindAppend(a: seq<Transaction>, b: seq<Transaction>, k: TxType)
    ensures SumOfKind(a + b, k) == SumOfKind(a, k) + SumOfKind(b, k)
  {
    if a == [] {
      assert a + b == b;
    } else {
      assert (a + b)[1..] == a[1..] + b;
      SumOfKindAppend(a[1..], b, k);
    }
  }

  lemma {:induction false} SumAllAppend(a: seq<Transaction>, b: seq<Transaction>)
    ensures SumAll(a + b) == SumAll(a) + SumAll(b)
  {
    if a == [] {
      assert a + b == b;
    } else {
      assert (a + b)[1..] == a[1..] + b;
      SumAllAppend(a[1..], b);
    }
  }

  /** Non-negative amounts give a non-negative sum of each type, bounded by
      the sum of all amounts. */
  lemma {:induction false} SumOfKindBounds(txs: seq<Transaction>, k: TxType)
    requires forall i :: 0 <= i < |txs| ==> txs[i].amount >= 0
    ensures 0 <= SumOfKind(txs, k) <= SumAll(txs)
  {
    if txs != [] {
      SumOfKindBounds(txs[1..], k);
    }
  }

  /** The two type sums partition the sum of all amounts. */
  lemma {:induction false} KindsPartitionSum(txs: seq<Transaction>)
    ensures SumOfKind(txs, Income) + SumOfKind(txs, Expense) == SumAll(txs)
  {
    if txs != [] {
      KindsPartitionSum(txs[1..]);
    }
  }
}
