/** The manual entry form (components/TransactionModal.tsx): a form for one
    day that keeps the type, category, amount and description the user
    sets, and hands a record to the ledger on submit when a category is
    chosen and the amount is positive. The category lists come from a
    constants module that is not part of this model; they are parameters. */
module TransactionModal {
  import opened Types

  /** `handleSubmit`'s guard, negated: `!category || amount <= 0` rejects. */
  predicate CanSubmit(category: string, amount: int)
  {
    category != [] && amount > 0
  }

  /** `categories`: the income list for income, the expense list otherwise. */
  function CategoriesFor(kind: TxType, incomeCategories: seq<string>, expenseCategories: seq<string>): (r: seq<string>)
    ensures kind == Income ==> r == incomeCategories
    ensures kind == Expense ==> r == expenseCategories
  {
    if kind == Income then incomeCategories else expenseCategories
  }

  class EntryForm {
    /** The day the form was opened for (the `date` prop). */
    const date: string
    var kind: TxType
    var category: string
    var amount: int
    var description: string
    /** Whether the form is still shown; `onClose` clears it. */
    var open: bool

    /** The initial state: an expense with no category, amount 0 and no
        description. */
    constructor(date: string)
      ensures this.date == date && open
      ensures kind == Expense && category == [] && amount == 0 && description == []
    {
      this.date := date;
      kind, category, amount, description := Expense, [], 0, [];
      open := true;
    }

    /** The income and expense buttons: switch the type and clear the category. */
    method SetKind(k: TxType)
      modifies this
      ensures kind == k && category == []
      ensures amount == old(amount) && description == old(description) && open == old(open)
    {
      kind, category := k, [];
    }

    method SetCategory(c: string)
      modifies this
      ensures category == c
      ensures kind == old(kind) && amount == old(amount) && description == old(description) && open == old(open)
    {
      category := c;
    }

    /** The amount input; `Number(e.target.value)`, taken here as whole won. */
    method SetAmount(a: int)
      modifies this
      ensures amount == a
      ensures kind == old(kind) && category == old(category) && description == old(description) && open == old(open)
    {
      amount := a;
    }

    method SetDescription(d: string)
      modifies this
      ensures description == d
      ensures kind == old(kind) && category == old(category) && amount == old(amount) && open == old(open)
    {
      description := d;
    }

    /** `handleSubmit`: when the guard holds, the record built from the form
        is handed on once (`onSave`) and the form closes (`onClose`);
        otherwise nothing is saved and the form stays as it is. The fields
        themselves are never changed. */
    method Submit() returns (saved: Option<TxInput>)
      modifies this
      ensures CanSubmit(category, amount) ==>
                saved == Some(TxInput(date, kind, category, amount, description)) && !open
      ensures !CanSubmit(category, amount) ==> saved == None && open == old(open)
      ensures kind == old(kind) && category == old(category)
      ensures amount == old(amount) && description == old(description)
    {
      if category == [] || amount <= 0 {
        saved := None;
        return;
      }
      saved := Some(TxInput(date, kind, category, amount, description));
      open := false;
    }
  }

  /** A form submitted as it was opened is rejected: it has no category
      and a zero amount. */
  method SubmitUntouched(date: string) returns (saved: Option<TxInput>)
    ensures saved == None
  {
    var form := new EntryForm(date);
    saved := form.Submit();
  }

  /** A filled-in form saves exactly what was entered, on the form's day. */
  method SubmitFilled(date: string, k: TxType, category: string, amount: int, description: string)
    returns (saved: Option<TxInput>)
    ensures CanSubmit(category, amount) ==> saved == Some(TxInput(date, k, category, amount, description))
    ensures !CanSubmit(category, amount) ==> saved == None
  {
    var form := new EntryForm(date);
    form.SetKind(k);
    form.SetCategory(category);
    form.SetAmount(amount);
    form.SetDescription(description);
    saved := form.Submit();
  }

  /** Switching the type after choosing a category empties it again, so the
      form cannot be submitted until a category of the new type is chosen. */
  method SwitchAfterChoosing(date: string, category: string, amount: int, k: TxType)
    returns (saved: Option<TxInput>)
    ensures saved == None
  {
    var form := new EntryForm(date);
    form.SetCategory(category);
    form.SetAmount(amount);
    form.SetKind(k);
    saved := form.Submit();
  }
}
