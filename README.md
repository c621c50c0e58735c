# ExpenseAPP main page: the expense-list pipeline

This project models the logic of the `ExpensesTracker` page component of
ExpenseAPP, a single-page expense tracker. The page holds a list of expense
records (id, category, amount, date) together with the selected category and
the two pending form inputs (amount and date). It adds a record built from
those inputs, deletes records by id, and shows the list as a sorted copy
(by category, date or amount) filtered by the selected category.

- `wrappers.dfy` (module `Wrappers`): an `Option` type. `None` stands for the NaN
  that `parseFloat` returns.
- `filtering.dfy` (module `Filtering`): `Array.prototype.filter` as the function
  `Filter`, with lemmas on order, multiplicity, idempotence and commutation.
- `stable_sort.dfy` (module `StableSort`): `Array.prototype.sort`.
  - A comparator `cmp` is read as the relation `le(a, b) := cmp(a, b) <= 0`.
  - `Sort` is a stable insertion sort on sequences, and `SortInPlace` performs it on an array.
  - The lemmas show that `Sort` returns a sorted permutation that keeps ties in order.
  - They also show that these two properties determine the result, as section
    23.1.3.30 of ECMA-262 (2023 edition) demands of a stable sort.
- `expenses.dfy` (module `Expenses`): the `Expense` record and the three comparators.
  - `Host` gathers the library behaviour the page calls: `parseFloat`,
    `localeCompare` and `new Date(...)`.
  - It also holds the delete filter, the category filter and their properties.
- `tracker.dfy` (module `MainPage`): the class `ExpensesTracker`.
  - Its fields are the context and React state; its methods are the event handlers.
  - `Derive` copies `expenses` into a fresh array, sorts the copy in place and filters it.
  - A method's `modifies` clause names the only fields it may change.
    The toggles change only their own field, and add and delete never touch the sort order or the category.
    `Derive` has no `modifies` clause, so it cannot change `expenses`.

Three behaviours of the code that the model keeps as written:
- The add handler checks the three inputs itself. It does not rely on its caller to do so.
- A `sortType` other than the three known values leaves the copy unsorted.
- Delete removes every record with the given id. Ids are `length + 1`, and they repeat after a delete.

## Model

| member | source | states |
|---|---|---|
| `MainPage.ExpensesTracker.constructor` | src/pages/mainPage/index.js:9-21 | the page starts with the context's state, `sortType` "alphabetical" and `currencyView` "rubles" |
| `MainPage.ExpensesTracker.HandleSortChange` | src/pages/mainPage/index.js:23-25 | sets `sortType` and, by its frame, nothing else |
| `MainPage.ExpensesTracker.HandleCurrencyChange` | src/pages/mainPage/index.js:27-29 | sets `currencyView` and nothing else |
| `MainPage.ExpensesTracker.HandleCategoryChange` | src/pages/mainPage/index.js:31-33 | sets `selectedCategory` and nothing else; `expenses` is untouched |
| `MainPage.ExpensesTracker.HandleAmountInput` | src/pages/mainPage/index.js:103 | the amount input's change handler sets `newExpenseAmount` only |
| `MainPage.ExpensesTracker.HandleDateInput` | src/pages/mainPage/index.js:109 | the date input's change handler sets `newExpenseDate` only |
| `MainPage.ExpensesTracker.HandleAddExpense` | src/pages/mainPage/index.js:35-56 | an empty category, amount or date: outcome `Ignored`, no change; amount parses to NaN: outcome `Failed` with the alert's message, no change to the list or inputs; otherwise exactly one record is appended (id = old length + 1, selected category, parsed amount, pending date), earlier records unchanged, amount and date inputs cleared, category kept |
| `MainPage.ExpensesTracker.HandleDeleteExpense` | src/pages/mainPage/index.js:58-61 | the new list is `WithoutId` of the old one |
| `MainPage.ExpensesTracker.Derive` | src/pages/mainPage/index.js:63-74 | returns the category filter of the sorted copy chosen by `sortType`; reads the state, changes none of it |
| `StableSort.SortInPlace` | src/pages/mainPage/index.js:63-70 | sorting the array copy in place leaves it equal to `Sort` of its old contents |
| `StableSort.InsertNext` | src/pages/mainPage/index.js:63-70 | one insertion step: the prefix plus the next element becomes `Insert` of them; the rest of the array is untouched |
| `Filtering.Filter` | src/pages/mainPage/index.js:72-74 | defines `Array.prototype.filter`, used for the category filter here and for the delete filter on line 59: the elements that pass the test, in their original order |
| `StableSort.Insert` | src/pages/mainPage/index.js:63-70 | defines one insertion step: `x` goes after the last element of the prefix that does not compare greater than it |
| `StableSort.Sort` | src/pages/mainPage/index.js:63-70 | defines the stable sort as repeated insertion from left to right; its properties are the lemmas below |
| `Expenses.Precedes` | src/pages/mainPage/index.js:65-69 | defines the three comparators as `cmp(a, b) <= 0` tests: `localeCompare` of the categories, the difference of the date values, and `a.amount - b.amount` |
| `Expenses.SortedCopy` | src/pages/mainPage/index.js:63-70 | defines the sorted copy: `Sort` under the comparator that `sortType` selects, or the list unchanged for any other `sortType` |
| `Expenses.IdDiffers` | src/pages/mainPage/index.js:59 | defines the delete test `expense.id !== id` |
| `Expenses.WithoutId` | src/pages/mainPage/index.js:58-61 | defines the list after a delete: `Filter` with `IdDiffers` |
| `Expenses.ShowsCategory` | src/pages/mainPage/index.js:73 | defines the category test: keep every record when no category is selected, otherwise only those whose category equals it |
| `StableSort.InsertSplit` | src/pages/mainPage/index.js:63-70 | an insertion puts `x` right after the last element that does not compare greater, with every greater element after it |
| `StableSort.SortPermutation` | src/pages/mainPage/index.js:63-70 | the sorted copy is a permutation of the list |
| `StableSort.SortSorted` | src/pages/mainPage/index.js:63-70 | the sorted copy is non-decreasing under a consistent comparator |
| `StableSort.SortStable` | src/pages/mainPage/index.js:63-70 | records that compare equal keep their original relative order |
| `StableSort.StableSortUnique` | src/pages/mainPage/index.js:63-70 | two sorted sequences that agree on every tie class are equal |
| `StableSort.SortCharacterized` | src/pages/mainPage/index.js:63-70 | a sequence equals `Sort(s)` if and only if it is sorted and keeps the order of `s` within each tie class |
| `StableSort.InsertPermutation` | src/pages/mainPage/index.js:63-70 | one insertion adds exactly the inserted element |
| `StableSort.InsertSorted` | src/pages/mainPage/index.js:63-70 | inserting into a sorted sequence keeps it sorted |
| `StableSort.InsertStable` | src/pages/mainPage/index.js:63-70 | an insertion never moves an element in front of one it ties with |
| `StableSort.FilterSorted` | src/pages/mainPage/index.js:72-74 | filtering a sorted list keeps it sorted |
| `StableSort.SortThenFilter` | src/pages/mainPage/index.js:63-74 | sorting then filtering equals filtering then sorting |
| `Filtering.Positions` | src/pages/mainPage/index.js:72-74 | the indices kept by a filter are exactly those whose element passes, in increasing order |
| `Filtering.FilterAtPositions` | src/pages/mainPage/index.js:72-74 | a filter returns the passing elements at those indices, in order: an order-preserving subsequence |
| `Filtering.FilterCount` | src/pages/mainPage/index.js:72-74 | a passing value occurs as often as in the input, a failing value not at all |
| `Filtering.FilterMembers` | src/pages/mainPage/index.js:72-74 | a value is in the result if and only if it is in the input and passes |
| `Filtering.FilterPermutation` | src/pages/mainPage/index.js:72-74 | filtering permutations of each other gives permutations of each other |
| `Filtering.FilterKeepsAll` | src/pages/mainPage/index.js:72-74 | a filter returns its input unchanged if and only if every element passes |
| `Filtering.FilterIdempotent` | src/pages/mainPage/index.js:59 | filtering twice with the same test equals filtering once |
| `Filtering.FilterCommute` | src/pages/mainPage/index.js:72-74 | two filters can be applied in either order |
| `Filtering.FilterDropsOne` | src/pages/mainPage/index.js:59 | when exactly one element fails, the filter removes just that element |
| `Expenses.SortKeyOf` | src/pages/mainPage/index.js:64-70 | "alphabetical", "date" and "amount" select the three orders, and no other value does |
| `Expenses.PrecedesIsTotalPreorder` | src/pages/mainPage/index.js:65-69 | the amount and date comparators are total preorders for every host; the category comparator is one when the host's `localeCompare` is consistent (`ValidHost`), which only the category order requires |
| `Expenses.WithoutIdCount` | src/pages/mainPage/index.js:58-61 | delete keeps each record whose id differs as often as before, and removes every record with the id, however many there are |
| `Expenses.WithoutIdKeepsOrder` | src/pages/mainPage/index.js:58-61 | delete returns exactly the records at the indices whose id differs, in their original order |
| `Expenses.WithoutIdNoMatch` | src/pages/mainPage/index.js:58-61 | delete is a no-op if and only if no record has the id |
| `Expenses.WithoutIdIdempotent` | src/pages/mainPage/index.js:58-61 | deleting an id twice equals deleting it once |
| `Expenses.AppendKeepsNumbering` | src/pages/mainPage/index.js:42-49 | while nothing is deleted, the `length + 1` ids stay 1, 2, ... and distinct |
| `Expenses.IdReusedAfterDelete` | src/pages/mainPage/index.js:43 | in a list numbered 1..n, after deleting any record but the last, the list is one shorter, its last record is unchanged, and the next id (new length + 1) belongs to a record still in the list |
| `Expenses.DisplayedProperties` | src/pages/mainPage/index.js:63-74 | the shown list holds exactly the records of the selected category (all when none is selected), each as often as in `expenses`. It equals the stable sort of the category's records. Within a tie class it keeps their original order. It is non-decreasing in `localeCompare` of category, in date value or in amount, as `sortType` says. Only the category order assumes a consistent `localeCompare` |

## Left out

- JSX rendering, inline styles and the layout components (`PageContainer`, `Wrapper`, `LeftSide`, `RightSide`): presentation without logic.
- `SelectCategory`, `InterestingButton`, `InterestingInput` and `useExpensesContext` are not part of this model. The context's state becomes class fields, initialised from constructor parameters. The context's own initial values are not shown.
- `alert`: the message is returned in the `Failed` outcome instead of being displayed.
- The currency display string (lines 176-178): the "percent" branch divides by 100 and formats with `toFixed(2)`, which is floating-point formatting. Only the `currencyView` toggle is modelled.
- `parseFloat`, `new Date(...)` and `localeCompare` are host behaviour. They are the fields of `Host`: an option-returning parser, a date value in milliseconds and a comparator.
- Amounts are exact reals. Floating-point rounding in `parseFloat` and in `a.amount - b.amount` is not modelled, and neither are `Infinity` amounts.
- Date strings that parse to an invalid date are not modelled. There the comparator returns NaN and the sort order is implementation-defined.
- `Expenses.PrecedesIsTotalPreorder`: for the category order only, it assumes that `localeCompare` is a consistent comparator (`ValidHost`: `cmp(a, b) <= 0` is a total preorder and swapping the arguments flips the sign). Without that, ECMA-262 leaves the sort order implementation-defined. The date and amount orders need no assumption. `Expenses.DisplayedProperties` makes the same assumption, and only when `sortType` is "alphabetical".
- `selectedCategory`, `newExpenseAmount` and `newExpenseDate` are strings, with "" standing for every falsy value (null, undefined, ""); the add guard and the category filter test them for truthiness.
- React's render cycle is not modelled. Each handler runs to completion, and the next render reads the new state. This makes the functional update on line 49 equal to a direct append.
