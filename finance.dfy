/** The finance view (components/FinanceView.tsx): recurring fixed
    expenses, savings products with their after-tax maturity value, loans
    with their level monthly payment, and the lists the view adds to and
    deletes from. Amounts here are `real`: the view's arithmetic is
    JavaScript number arithmetic on won amounts and annual percentages. */
module Finance {
  import opened Types

  // ---------------------------------------------------------------------
  // Savings maturity

  /** Korean interest income tax, 15.4 percent of the interest. */
  const TaxRate: real := 0.154

  /** Interest before tax: simple interest. A deposit earns `rate` percent
      a year on its principal for `term` months; an installment saving's
      monthly payments earn `monthlyAmount * n(n+1)/2 * (rate/100/12)`. */
  function GrossInterest(s: Saving): real
  {
    var months := s.term as real;
    var rate := s.rate / 100.0;
    if s.kind == Installment then s.monthlyAmount * (months * (months + 1.0) / 2.0) * (rate / 12.0)
    else s.monthlyAmount * rate * (months / 12.0)
  }

  /** `{ principal, interest, total }` of `calculateSavingMaturity`. */
  datatype Maturity = Maturity(principal: real, interest: real, total: real)

  /** `calculateSavingMaturity`: the principal paid in, the interest after
      the 15.4% tax, and their sum. With non-negative inputs the total is
      at least the principal and the taxed interest at most the gross. */
  function MaturityOf(s: Saving): (r: Maturity)
    ensures r.principal == if s.kind == Installment then s.monthlyAmount * s.term as real else s.monthlyAmount
    ensures r.interest == GrossInterest(s) * (1.0 - TaxRate)
    ensures r.total == r.principal + r.interest
    ensures s.monthlyAmount >= 0.0 && s.rate >= 0.0 && s.term >= 0 ==>
              0.0 <= r.interest <= GrossInterest(s) && r.principal <= r.total
  {
    var principal := if s.kind == Installment then s.monthlyAmount * s.term as real else s.monthlyAmount;
    var interest := GrossInterest(s);
    var tax := interest * TaxRate;
    assert s.monthlyAmount >= 0.0 && s.rate >= 0.0 && s.term >= 0 ==> interest >= 0.0 by {
      if s.monthlyAmount >= 0.0 && s.rate >= 0.0 && s.term >= 0 {
        GrossInterestNonNegative(s);
      }
    }
    Maturity(principal, interest - tax, principal + (interest - tax))
  }

  lemma GrossInterestNonNegative(s: Saving)
    requires s.monthlyAmount >= 0.0 && s.rate >= 0.0 && s.term >= 0
    ensures GrossInterest(s) >= 0.0
  {
    var months := s.term as real;
    var rate := s.rate / 100.0;
    NonNegProduct(months, months + 1.0);
    NonNegProduct(s.monthlyAmount, months * (months + 1.0) / 2.0);
    NonNegProduct(s.monthlyAmount * (months * (months + 1.0) / 2.0), rate / 12.0);
    NonNegProduct(s.monthlyAmount, rate);
    NonNegProduct(s.monthlyAmount * rate, months / 12.0);
  }

  lemma NonNegProduct(a: real, b: real)
    requires a >= 0.0 && b >= 0.0
    ensures a * b >= 0.0
  {
  }

  /** Reference definition of the installment interest: the payments of an
      `n`-month saving stay in for n, n-1, ..., 1 months, each month earning
      a twelfth of the annual rate on the payment. */
  function HeldInterest(amount: real, rate: real, n: nat): real
  {
    if n == 0 then 0.0
    else HeldInterest(amount, rate, n - 1) + amount * (n as real) * (rate / 100.0 / 12.0)
  }

  lemma {:induction false} HeldInterestClosedForm(amount: real, rate: real, n: nat)
    ensures HeldInterest(amount, rate, n)
            == amount * ((n as real) * (n as real + 1.0) / 2.0) * (rate / 100.0 / 12.0)
  {
    if n > 0 {
      HeldInterestClosedForm(amount, rate, n - 1);
      var m := (n - 1) as real;
      var f := rate / 100.0 / 12.0;
      assert m * (m + 1.0) / 2.0 + (m + 1.0) == (m + 1.0) * (m + 2.0) / 2.0;
      assert amount * (m * (m + 1.0) / 2.0) * f + amount * (m + 1.0) * f
             == amount * (m * (m + 1.0) / 2.0 + (m + 1.0)) * f;
    }
  }

  /** The installment formula `monthlyAmount * n(n+1)/2 * (rate/12)` is the
      sum, over the payments, of simple interest for the months each one
      is held. */
  lemma InstallmentInterestIsHeldInterest(s: Saving)
    requires s.kind == Installment && s.term >= 0
    ensures GrossInterest(s) == HeldInterest(s.monthlyAmount, s.rate, s.term)
  {
    HeldInterestClosedForm(s.monthlyAmount, s.rate, s.term);
    assert s.rate / 100.0 / 12.0 == (s.rate / 100.0) / 12.0;
  }

  /** A deposit's gross interest is `rate` percent a year, pro rata by month. */
  lemma DepositIsSimpleInterest(s: Saving)
    requires s.kind == Deposit
    ensures GrossInterest(s) == s.monthlyAmount * s.rate * (s.term as real) / 1200.0
  {
  }

  /** Two products worked through: a deposit of 1,000,000 at 4% for 12
      months matures at 1,033,840; an installment saving of 100,000 a month
      at 3.6% for 12 months earns 19,796.4 after tax, shown as 1,219,796. */
  lemma MaturityExamples()
    ensures MaturityOf(Saving("d", "deposit", Deposit, 1000000.0, 4.0, 12, "2024-01-01")).total == 1033840.0
    ensures var r := MaturityOf(Saving("i", "installment", Installment, 100000.0, 3.6, 12, "2024-01-01"));
            r.interest == 19796.4 && r.total.Floor == 1219796
  {
    var r := MaturityOf(Saving("i", "installment", Installment, 100000.0, 3.6, 12, "2024-01-01"));
    assert r.total == 1219796.4;
  }

  /** The "total principal" card: a deposit counts its principal, an
      installment saving its monthly amount times its term. */
  function SavingsPrincipalTotal(ss: seq<Saving>): real
  {
    if ss == [] then 0.0
    else (if ss[0].kind == Deposit then ss[0].monthlyAmount else ss[0].monthlyAmount * ss[0].term as real)
         + SavingsPrincipalTotal(ss[1..])
  }

  /** The card sums the principals the maturity calculation reports. */
  lemma {:induction false} SavingsPrincipalTotalIsMaturityPrincipal(ss: seq<Saving>)
    ensures SavingsPrincipalTotal(ss) == PrincipalsSum(ss)
  {
    if ss != [] {
      SavingsPrincipalTotalIsMaturityPrincipal(ss[1..]);
    }
  }

  function PrincipalsSum(ss: seq<Saving>): real
  {
    if ss == [] then 0.0 else MaturityOf(ss[0]).principal + PrincipalsSum(ss[1..])
  }

  // ---------------------------------------------------------------------
  // Loan payments

  function Pow(q: real, n: nat): real
  {
    if n == 0 then 1.0 else Pow(q, n - 1) * q
  }

  lemma {:induction false} PowAboveOne(q: real, n: nat)
    requires q > 1.0 && n >= 1
    ensures Pow(q, n) > 1.0
  {
    if n > 1 {
      PowAboveOne(q, n - 1);
      var p := Pow(q, n - 1);
      assert p * q > 1.0 * q by {
        ProductGrows(p, q);
      }
    }
  }

  lemma ProductGrows(p: real, q: real)
    requires p > 1.0 && q > 1.0
    ensures p * q > q
  {
    assert p * q - q == (p - 1.0) * q;
  }

  lemma {:induction false} PowOfOne(n: nat)
    ensures Pow(1.0, n) == 1.0
  {
    if n > 0 {
      PowOfOne(n - 1);
    }
  }

  /** The monthly rate: `rate / 100 / 12`. */
  function MonthlyRate(l: Loan): real
  {
    l.rate / 100.0 / 12.0
  }

  /** The annuity payment before rounding, `P i q^n / (q^n - 1)` with
      `q = 1 + i`, when the denominator is not zero. */
  function ExactPayment(l: Loan): real
    requires l.term >= 1 && Pow(1.0 + MonthlyRate(l), l.term) != 1.0
  {
    var i := MonthlyRate(l);
    var p := Pow(1.0 + i, l.term);
    l.principal * i * p / (p - 1.0)
  }

  /** `calculateMonthlyLoan` as written: `Math.floor(numerator /
      denominator)`. `None` stands for the NaN or Infinity the view shows
      when the denominator `(1 + i)^n - 1` is zero: an interest-free loan,
      or a term of zero. Negative terms are not modelled. */
  function MonthlyPaymentAsWritten(l: Loan): (r: Option<int>)
    ensures r.None? <==> l.term < 1 || Pow(1.0 + MonthlyRate(l), l.term) == 1.0
    ensures r.Some? ==> r.value as real <= ExactPayment(l) < r.value as real + 1.0
  {
    if l.term < 1 then None
    else
      var p := Pow(1.0 + MonthlyRate(l), l.term);
      if p == 1.0 then None else Some(ExactPayment(l).Floor)
  }

  /** The level monthly payment, with the interest-free case paying the
      principal off in equal parts, `Math.floor(principal / term)`. */
  function MonthlyPayment(l: Loan): (r: Option<int>)
    ensures l.rate == 0.0 ==> (r.Some? <==> l.term >= 1)
    ensures l.rate == 0.0 && l.term >= 1 ==>
              r.value as real <= l.principal / l.term as real < r.value as real + 1.0
    ensures l.rate != 0.0 ==> r == MonthlyPaymentAsWritten(l)
  {
    if l.rate == 0.0 then
      if l.term < 1 then None else Some((l.principal / l.term as real).Floor)
    else MonthlyPaymentAsWritten(l)
  }

  /** For a positive rate and a term of at least a month the formula
      always yields a payment. */
  lemma PaymentExists(l: Loan)
    requires l.rate > 0.0 && l.term >= 1
    ensures MonthlyPaymentAsWritten(l).Some? && MonthlyPayment(l).Some?
  {
    PowAboveOne(1.0 + MonthlyRate(l), l.term);
  }

  /** A one-month loan is repaid with its interest in one payment. */
  lemma OneMonthPayment(l: Loan)
    requires l.rate != 0.0 && l.term == 1
    ensures MonthlyPayment(l) == Some((l.principal * (1.0 + MonthlyRate(l))).Floor)
  {
    OneMonthExact(l);
  }

  lemma OneMonthExact(l: Loan)
    requires l.rate != 0.0 && l.term == 1
    ensures Pow(1.0 + MonthlyRate(l), l.term) != 1.0
    ensures ExactPayment(l) == l.principal * (1.0 + MonthlyRate(l))
  {
    var i := MonthlyRate(l);
    var p := Pow(1.0 + i, l.term);
    assert p == Pow(1.0 + i, 0) * (1.0 + i) == 1.0 + i;
    assert i != 0.0;
    OnePeriodCancel(l.principal, i);
    assert ExactPayment(l) == l.principal * i * p / (p - 1.0);
    assert l.principal * i * p / (p - 1.0) == l.principal * i * (1.0 + i) / ((1.0 + i) - 1.0);
  }

  lemma OnePeriodCancel(principal: real, i: real)
    requires i != 0.0
    ensures principal * i * (1.0 + i) / ((1.0 + i) - 1.0) == principal * (1.0 + i)
  {
    assert (1.0 + i) - 1.0 == i;
    assert principal * i * (1.0 + i) == (principal * (1.0 + i)) * i;
  }

  /** The balance after `k` monthly payments `a`: each month the balance
      grows by the monthly rate and the payment is subtracted. */
  function Balance(principal: real, i: real, a: real, k: nat): real
  {
    if k == 0 then principal else Balance(principal, i, a, k - 1) * (1.0 + i) - a
  }

  lemma {:induction false} BalanceClosedForm(principal: real, i: real, a: real, k: nat)
    ensures Balance(principal, i, a, k) * i
            == principal * Pow(1.0 + i, k) * i - a * (Pow(1.0 + i, k) - 1.0)
  {
    if k > 0 {
      var b, p := Balance(principal, i, a, k - 1), Pow(1.0 + i, k - 1);
      assert Balance(principal, i, a, k) == b * (1.0 + i) - a;
      assert Pow(1.0 + i, k) == p * (1.0 + i);
      BalanceClosedForm(principal, i, a, k - 1);
      BalanceStep(b, Balance(principal, i, a, k), principal, p, Pow(1.0 + i, k), i, a);
    }
  }

  /** One month of the closed form: if `b i = P p i - a (p - 1)` then the
      next balance `b' = b (1 + i) - a` satisfies it with `p' = p (1 + i)`. */
  lemma BalanceStep(b: real, b': real, principal: real, p: real, p': real, i: real, a: real)
    requires b * i == principal * p * i - a * (p - 1.0)
    requires b' == b * (1.0 + i) - a && p' == p * (1.0 + i)
    ensures b' * i == principal * p' * i - a * (p' - 1.0)
  {
    var q := 1.0 + i;
    assert (b * q - a) * i == (b * i) * q - a * i;
    assert (principal * p * i - a * (p - 1.0)) * q == principal * (p * q) * i - a * (p * q) + a * q;
  }

  /** The exact annuity payment repays the loan in exactly `term` months. */
  lemma ExactPaymentRepays(l: Loan)
    requires l.term >= 1 && Pow(1.0 + MonthlyRate(l), l.term) != 1.0
    ensures Balance(l.principal, MonthlyRate(l), ExactPayment(l), l.term) == 0.0
  {
    var i := MonthlyRate(l);
    var p := Pow(1.0 + i, l.term);
    var a := ExactPayment(l);
    if i == 0.0 {
      PowOfOne(l.term);
    }
    DivCancel(l.principal * i * p, p - 1.0);
    AnnuityRepays(l.principal, i, l.term, a);
  }

  lemma DivCancel(x: real, d: real)
    requires d != 0.0
    ensures x / d * d == x
  {
  }

  /** A payment `a` with `a (q^n - 1) = P i q^n` clears the loan in `n`
      months. */
  lemma AnnuityRepays(principal: real, i: real, n: nat, a: real)
    requires i != 0.0
    requires a * (Pow(1.0 + i, n) - 1.0) == principal * i * Pow(1.0 + i, n)
    ensures Balance(principal, i, a, n) == 0.0
  {
    BalanceClosedForm(principal, i, a, n);
    AnnuityClears(principal, i, Pow(1.0 + i, n), a, Balance(principal, i, a, n));
  }

  /** The algebra of the previous lemma: the closed form of the final
      balance is zero. */
  lemma AnnuityClears(principal: real, i: real, p: real, a: real, b: real)
    requires i != 0.0 && a * (p - 1.0) == principal * i * p
    requires b * i == principal * p * i - a * (p - 1.0)
    ensures b == 0.0
  {
    assert b * i == 0.0;
  }

  /** Rounding the payment down never overpays: for a positive rate the
      balance left after `term` floored payments is at least zero (the
      borrower still owes the rounding). */
  lemma FlooredPaymentLeavesBalance(l: Loan)
    requires l.rate > 0.0 && l.term >= 1
    ensures MonthlyPayment(l).Some?
    ensures Balance(l.principal, MonthlyRate(l), MonthlyPayment(l).value as real, l.term) >= 0.0
  {
    PaymentExists(l);
    ExactPaymentRepays(l);
    assert MonthlyPayment(l) == MonthlyPaymentAsWritten(l);
    SmallerPaymentLeavesBalance(l.principal, MonthlyRate(l), l.term, ExactPayment(l), MonthlyPayment(l).value as real);
  }

  /** A payment no larger than one that repays the loan exactly leaves a
      balance of at least zero. */
  lemma SmallerPaymentLeavesBalance(principal: real, i: real, n: nat, exact: real, floored: real)
    requires i > 0.0 && floored <= exact
    requires Balance(principal, i, exact, n) == 0.0
    ensures Balance(principal, i, floored, n) >= 0.0
  {
    BalanceAntitone(principal, i, exact, floored, n);
  }

  /** Paying less each month never leaves less to repay. */
  lemma {:induction false} BalanceAntitone(principal: real, i: real, a: real, a': real, k: nat)
    requires i >= 0.0 && a' <= a
    ensures Balance(principal, i, a', k) >= Balance(principal, i, a, k)
  {
    if k > 0 {
      var b, b' := Balance(principal, i, a, k - 1), Balance(principal, i, a', k - 1);
      assert Balance(principal, i, a, k) == b * (1.0 + i) - a;
      assert Balance(principal, i, a', k) == b' * (1.0 + i) - a';
      BalanceAntitone(principal, i, a, a', k - 1);
      MulMono(b, b', 1.0 + i);
      AntitoneStep(b * (1.0 + i), b' * (1.0 + i), Balance(principal, i, a, k), Balance(principal, i, a', k), a, a');
    }
  }

  lemma AntitoneStep(p: real, p': real, next: real, next': real, a: real, a': real)
    requires p <= p' && a' <= a
    requires next == p - a && next' == p' - a'
    ensures next' >= next
  {
  }

  lemma MulMono(x: real, y: real, k: real)
    requires x <= y && k >= 0.0
    ensures x * k <= y * k
  {
  }

  /** With no interest, `term` payments of `principal / term` repay the
      loan exactly. */
  lemma {:induction false} InterestFreeRepays(principal: real, n: nat)
    requires n >= 1
    ensures Balance(principal, 0.0, principal / n as real, n) == 0.0
  {
    InterestFreeBalance(principal, principal / n as real, n);
  }

  lemma {:induction false} InterestFreeBalance(principal: real, a: real, k: nat)
    ensures Balance(principal, 0.0, a, k) == principal - a * k as real
  {
    if k > 0 {
      InterestFreeBalance(principal, a, k - 1);
    }
  }

  /** An interest-free loan: the formula as written divides zero by zero
      (the view shows NaN), while the corrected payment exists. */
  lemma ZeroRateHasNoPayment(l: Loan)
    requires l.rate == 0.0 && l.term >= 1
    ensures MonthlyPaymentAsWritten(l).None?
    ensures MonthlyPayment(l).Some?
  {
    assert MonthlyRate(l) == 0.0;
    PowOfOne(l.term);
  }

  /** The corrected interest-free payment, rounded down, repays all but
      less than one won per month: the balance left after `term` payments
      lies in 0 .. term. */
  lemma InterestFreePaymentRepays(l: Loan)
    requires l.rate == 0.0 && l.term >= 1
    ensures MonthlyPayment(l).Some?
    ensures var b := Balance(l.principal, MonthlyRate(l), MonthlyPayment(l).value as real, l.term);
            0.0 <= b < l.term as real
  {
    var n := l.term as real;
    var a := MonthlyPayment(l).value as real;
    assert MonthlyRate(l) == 0.0;
    InterestFreeBalance(l.principal, a, l.term);
    FloorShare(l.principal, a, n);
  }

  /** Rounding `principal / n` down to `a` leaves `principal - a n` in 0 .. n. */
  lemma FloorShare(principal: real, a: real, n: real)
    requires n >= 1.0 && a <= principal / n < a + 1.0
    ensures 0.0 <= principal - a * n < n
  {
    var x := principal / n;
    var u := x - a;
    assert x * n == principal;
    assert principal - a * n == u * n;
    BelowOneTimes(u, n);
  }

  lemma BelowOneTimes(u: real, n: real)
    requires 0.0 <= u < 1.0 && n >= 1.0
    ensures 0.0 <= u * n < n
  {
    assert n - u * n == (1.0 - u) * n;
    NonNegProduct(u, n);
  }

  /** The sum of the monthly payments, `loans.reduce((acc, l) => acc +
      calculateMonthlyLoan(l), 0)`: one NaN or Infinity makes the sum one. */
  function LoanTotal(ls: seq<Loan>): (r: Option<int>)
    ensures r.Some? <==> forall i :: 0 <= i < |ls| ==> MonthlyPayment(ls[i]).Some?
  {
    if ls == [] then Some(0)
    else
      var rest := LoanTotal(ls[1..]);
      assert rest.Some? <==> forall i :: 1 <= i < |ls| ==> MonthlyPayment(ls[i]).Some? by {
        forall i | 1 <= i < |ls| ensures ls[i] == ls[1..][i - 1] { }
      }
      match (MonthlyPayment(ls[0]), rest)
      case (Some(a), Some(b)) => Some(a + b)
      case _ => None
  }

  /** The sum of the fixed expenses, `fixedExpenses.reduce((acc, f) => acc + f.amount, 0)`. */
  function FixedTotal(fs: seq<FixedExpense>): real
  {
    if fs == [] then 0.0 else fs[0].amount + FixedTotal(fs[1..])
  }

  lemma {:induction false} FixedTotalAppend(fs: seq<FixedExpense>, f: FixedExpense)
    ensures FixedTotal(fs + [f]) == FixedTotal(fs) + f.amount
  {
    if fs == [] {
      assert [f][1..] == [];
    } else {
      assert (fs + [f])[1..] == fs[1..] + [f];
      FixedTotalAppend(fs[1..], f);
    }
  }

  /** Removing by id can only lower a total of positive amounts. */
  lemma {:induction false} FixedTotalRemove(fs: seq<FixedExpense>, id: string)
    requires forall i :: 0 <= i < |fs| ==> fs[i].amount > 0.0
    ensures FixedTotal(RemoveId(fs, id, (f: FixedExpense) => f.id)) <= FixedTotal(fs)
  {
    if fs != [] {
      var idOf := (f: FixedExpense) => f.id;
      var rest := RemoveId(fs[1..], id, idOf);
      FixedTotalRemove(fs[1..], id);
      if fs[0].id != id {
        assert RemoveId(fs, id, idOf) == [fs[0]] + rest;
        assert ([fs[0]] + rest)[1..] == rest;
      } else {
        assert RemoveId(fs, id, idOf) == [] + rest;
        assert [] + rest == rest;
      }
    }
  }

  // ---------------------------------------------------------------------
  // The lists

  /** `prev.filter(item => item.id !== id)`. */
  function RemoveId<T(!new)>(items: seq<T>, id: string, idOf: T -> string): (r: seq<T>)
    ensures |r| <= |items|
    ensures forall x :: x in r <==> x in items && idOf(x) != id
  {
    if items == [] then []
    else (if idOf(items[0]) != id then [items[0]] else []) + RemoveId(items[1..], id, idOf)
  }

  /** The filter keeps the order of what it keeps. */
  lemma {:induction false} RemoveIdAppend<T(!new)>(a: seq<T>, b: seq<T>, id: string, idOf: T -> string)
    ensures RemoveId(a + b, id, idOf) == RemoveId(a, id, idOf) + RemoveId(b, id, idOf)
  {
    if a == [] {
      assert a + b == b;
    } else {
      assert (a + b)[1..] == a[1..] + b;
      RemoveIdAppend(a[1..], b, id, idOf);
    }
  }

  /** Deleting an id nobody carries changes nothing. */
  lemma {:induction false} RemoveAbsentId<T(!new)>(items: seq<T>, id: string, idOf: T -> string)
    requires forall i :: 0 <= i < |items| ==> idOf(items[i]) != id
    ensures RemoveId(items, id, idOf) == items
  {
    if items != [] {
      RemoveAbsentId(items[1..], id, idOf);
      HeadTail(items);
    }
  }

  /** `name && ...`: a prompt that was cancelled (`None`) or left empty. */
  predicate Named(name: Option<string>)
  {
    name.Some? && name.value != []
  }

  datatype ListKind = FixedList | SavingsList | LoanList

  /** The three lists of the finance view; the application owns them and
      hands the view their setters. Prompted values, the confirmation
      dialogs, `Date.now()` ids and today's date come in as parameters. */
  class FinanceStore {
    var fixedExpenses: seq<FixedExpense>
    var savings: seq<Saving>
    var loans: seq<Loan>

    constructor(fs: seq<FixedExpense>, ss: seq<Saving>, ls: seq<Loan>)
      ensures fixedExpenses == fs && savings == ss && loans == ls
    {
      fixedExpenses, savings, loans := fs, ss, ls;
    }

    /** `addFixedExpense`: appended when the name is given and the amount
      is positive; the monthly fixed total grows by the amount. */
    method AddFixedExpense(name: Option<string>, amount: real, day: int, id: string)
      modifies this
      ensures Named(name) && amount > 0.0 ==>
                fixedExpenses == old(fixedExpenses) + [FixedExpense(id, name.value, amount, day)]
                && FixedTotal(fixedExpenses) == old(FixedTotal(fixedExpenses)) + amount
      ensures !(Named(name) && amount > 0.0) ==> fixedExpenses == old(fixedExpenses)
      ensures savings == old(savings) && loans == old(loans)
    {
      if Named(name) && amount > 0.0 {
        FixedTotalAppend(fixedExpenses, FixedExpense(id, name.value, amount, day));
        fixedExpenses := fixedExpenses + [FixedExpense(id, name.value, amount, day)];
      }
    }

    /** `addSaving`: `installment` is the answer to the confirmation dialog;
      appended when the name is given and the amount is positive. The rate
      and the term are not checked. */
    method AddSaving(name: Option<string>, installment: bool, monthlyAmount: real,
                     rate: real, term: int, id: string, today: string)
      modifies this
      ensures Named(name) && monthlyAmount > 0.0 ==>
                savings == old(savings) + [Saving(id, name.value, if installment then Installment else Deposit,
                                                  monthlyAmount, rate, term, today)]
      ensures !(Named(name) && monthlyAmount > 0.0) ==> savings == old(savings)
      ensures fixedExpenses == old(fixedExpenses) && loans == old(loans)
    {
      if Named(name) && monthlyAmount > 0.0 {
        var kind := if installment then Installment else Deposit;
        savings := savings + [Saving(id, name.value, kind, monthlyAmount, rate, term, today)];
      }
    }

    /** `addLoan`: appended when the name is given and the principal is
      positive. */
    method AddLoan(name: Option<string>, principal: real, rate: real, term: int, id: string, today: string)
      modifies this
      ensures Named(name) && principal > 0.0 ==>
                loans == old(loans) + [Loan(id, name.value, principal, rate, term, today)]
      ensures !(Named(name) && principal > 0.0) ==> loans == old(loans)
      ensures fixedExpenses == old(fixedExpenses) && savings == old(savings)
    {
      if Named(name) && principal > 0.0 {
        loans := loans + [Loan(id, name.value, principal, rate, term, today)];
      }
    }

    /** `deleteItem(setter, id)`: after confirmation, the chosen list loses
      every item of that id; the other lists stay as they are. */
    method DeleteItem(which: ListKind, id: string, confirmed: bool)
      modifies this
      ensures fixedExpenses == if confirmed && which == FixedList
                                then RemoveId(old(fixedExpenses), id, (f: FixedExpense) => f.id)
                                else old(fixedExpenses)
      ensures savings == if confirmed && which == SavingsList
                          then RemoveId(old(savings), id, (s: Saving) => s.id)
                          else old(savings)
      ensures loans == if confirmed && which == LoanList
                        then RemoveId(old(loans), id, (l: Loan) => l.id)
                        else old(loans)
    {
      if confirmed {
        match which
        case FixedList => fixedExpenses := RemoveId(fixedExpenses, id, (f: FixedExpense) => f.id);
        case SavingsList => savings := RemoveId(savings, id, (s: Saving) => s.id);
        case LoanList => loans := RemoveId(loans, id, (l: Loan) => l.id);
      }
    }
  }
}
