/**
  The ExpensesTracker page component: the state it reads from the expenses
  context and from its own React state, the event handlers that update it,
  and the sort-then-filter derivation of the list it shows.
 */
module MainPage {
  import opened Wrappers
  import opened Filtering
  import opened StableSort
  import opened Expenses

  /** The message of the error raised for an amount that is not a number; the
      page shows it with alert. */
  const AmountNotANumber := "Сумма должна быть числом"

  /** What pressing "add" did: nothing (an input was empty), the error shown to
      the user, or the record appended. */
  datatype AddOutcome = Ignored | Failed(message: string) | Added(record: Expense)

  class ExpensesTracker {
    const host: Host
    // state held by the expenses context
    var expenses: seq<Expense>
    var selectedCategory: string
    var newExpenseAmount: string
    var newExpenseDate: string
    // state local to the page
    var sortType: string
    var currencyView: string

    /** The page as first rendered with the context's current state. */
    constructor (host: Host, expenses: seq<Expense>, selectedCategory: string,
                 newExpenseAmount: string, newExpenseDate: string)
      ensures this.host == host && this.expenses == expenses
      ensures this.selectedCategory == selectedCategory
      ensures this.newExpenseAmount == newExpenseAmount && this.newExpenseDate == newExpenseDate
      ensures sortType == "alphabetical" && currencyView == "rubles"
    {
      this.host := host;
      this.expenses := expenses;
      this.selectedCategory := selectedCategory;
      this.newExpenseAmount := newExpenseAmount;
      this.newExpenseDate := newExpenseDate;
      sortType := "alphabetical";
      currencyView := "rubles";
    }

    method HandleSortChange(sortType: string)
      modifies this`sortType
      ensures this.sortType == sortType
    {
      this.sortType := sortType;
    }

    method HandleCurrencyChange(currency: string)
      modifies this`currencyView
      ensures currencyView == currency
    {
      currencyView := currency;
    }

    method HandleCategoryChange(category: string)
      modifies this`selectedCategory
      ensures selectedCategory == category
    {
      selectedCategory := category;
    }

    /** The amount input's onChange. */
    method HandleAmountInput(value: string)
      modifies this`newExpenseAmount
      ensures newExpenseAmount == value
    {
      newExpenseAmount := value;
    }

    /** The date input's onChange. */
    method HandleDateInput(value: string)
      modifies this`newExpenseDate
      ensures newExpenseDate == value
    {
      newExpenseDate := value;
    }

    /** Appends a record built from the pending inputs, numbered length + 1,
        and clears the amount and date inputs; declines silently when an input
        is empty, and fails without any change when the amount is NaN. */
    method HandleAddExpense() returns (outcome: AddOutcome)
      modifies this`expenses, this`newExpenseAmount, this`newExpenseDate
      ensures old(selectedCategory == "" || newExpenseAmount == "" || newExpenseDate == "") ==>
                outcome == Ignored
      ensures old(selectedCategory != "" && newExpenseAmount != "" && newExpenseDate != "") ==>
                match host.parseFloat(old(newExpenseAmount))
                case None => outcome == Failed(AmountNotANumber)
                case Some(amount) =>
                  outcome == Added(Expense(|old(expenses)| + 1, selectedCategory, amount, old(newExpenseDate)))
      ensures outcome.Added? ==>
                expenses == old(expenses) + [outcome.record] && newExpenseAmount == "" && newExpenseDate == ""
      ensures !outcome.Added? ==>
                && expenses == old(expenses)
                && newExpenseAmount == old(newExpenseAmount)
                && newExpenseDate == old(newExpenseDate)
    {
      outcome := Ignored;
      if selectedCategory != "" && newExpenseAmount != "" && newExpenseDate != "" {
        var amount := host.parseFloat(newExpenseAmount);
        if amount.None? {
          outcome := Failed(AmountNotANumber);
        } else {
          var newExpense := Expense(|expenses| + 1, selectedCategory, amount.value, newExpenseDate);
          expenses := expenses + [newExpense];
          newExpenseAmount := "";
          newExpenseDate := "";
          outcome := Added(newExpense);
        }
      }
    }

    /** Removes every record whose id is `id`. */
    method HandleDeleteExpense(id: int)
      modifies this`expenses
      ensures expenses == WithoutId(old(expenses), id)
    {
      expenses := Filter(expenses, IdDiffers(id));
    }

    /** The list the page shows: a copy of `expenses` stably sorted by the
        current sort order, then filtered by the selected category. The method
        reads the state and changes none of it; DisplayedProperties states what
        the result contains and how it is ordered. */
    method Derive() returns (filtered: seq<Expense>)
      ensures filtered == Filter(SortedCopy(host, expenses, sortType), ShowsCategory(selectedCategory))
    {
      var source := expenses;
      var sortedExpenses := new Expense[|source|](i requires 0 <= i < |source| => source[i]);
      assert sortedExpenses[..] == source;
      if sortType == "alphabetical" {
        SortInPlace(Precedes(host, Alphabetical), sortedExpenses);
      } else if sortType == "date" {
        SortInPlace(Precedes(host, ByDate), sortedExpenses);
      } else if sortType == "amount" {
        SortInPlace(Precedes(host, ByAmount), sortedExpenses);
      }
      filtered := Filter(sortedExpenses[..], ShowsCategory(selectedCategory));
    }
  }
}
