/**
  The expense records of the main page and the pure list operations on them:
  the delete filter, the category filter and the three sort comparators.
 */
module Expenses {
  import opened Wrappers
  import opened Filtering
  import opened StableSort

  /** One tracked spending entry. The amount is an exact number (NaN is
      rejected before a record is made). */
  datatype Expense = Expense(id: int, category: string, amount: real, date: string)

  /** The library behaviour the page relies on, taken as parameters:
      `parseFloat` (None stands for NaN), `String.prototype.localeCompare`
      and `new Date(s)` read as a number of milliseconds. */
  datatype Host = Host(
    parseFloat: string -> Option<real>,
    localeCompare: (string, string) -> int,
    dateValue: string -> int)

  /** The locale collation is a consistent comparator, as Array.prototype.sort
      needs for its result to be defined: `cmp(a, b) <= 0` is a total preorder,
      and swapping the arguments flips the sign of the result (so equal strings
      compare as 0). */
  ghost predicate ValidHost(h: Host) {
    && TotalPreorder((a: string, b: string) => h.localeCompare(a, b) <= 0)
    && (forall a: string, b: string :: h.localeCompare(a, b) < 0 <==> h.localeCompare(b, a) > 0)
  }

  /** The three orders the list can be shown in. */
  datatype SortKey = Alphabetical | ByDate | ByAmount

  /** The value of `sortType` that selects each order; any other value leaves
      the list unsorted. */
  function SortKeyOf(sortType: string): (k: Option<SortKey>)
    ensures k == Some(Alphabetical) <==> sortType == "alphabetical"
    ensures k == Some(ByDate) <==> sortType == "date"
    ensures k == Some(ByAmount) <==> sortType == "amount"
  {
    if sortType == "alphabetical" then Some(Alphabetical)
    else if sortType == "date" then Some(ByDate)
    else if sortType == "amount" then Some(ByAmount)
    else None
  }

  /** `Precedes(h, k)(a, b)` holds when the comparator of order `k` returns a
      number <= 0 for `a` and `b`, so that sort keeps `a` in front of `b`. */
  function Precedes(h: Host, k: SortKey): (Expense, Expense) -> bool {
    match k
    case Alphabetical => (a: Expense, b: Expense) => h.localeCompare(a.category, b.category) <= 0
    case ByDate => (a: Expense, b: Expense) => h.dateValue(a.date) - h.dateValue(b.date) <= 0
    case ByAmount => (a: Expense, b: Expense) => a.amount - b.amount <= 0.0
  }

  /** The amount and date orders are total preorders for every host; the
      category order is one when the host's collation is consistent. */
  lemma PrecedesIsTotalPreorder(h: Host, k: SortKey)
    requires k == Alphabetical ==> ValidHost(h)
    ensures TotalPreorder(Precedes(h, k))
  {
    if k == Alphabetical {
      var cmp := (a: string, b: string) => h.localeCompare(a, b) <= 0;
      assert forall a: Expense, b: Expense :: Precedes(h, k)(a, b) == cmp(a.category, b.category);
    }
  }

  /** The copy of `expenses` that the page shows before filtering. */
  function SortedCopy(h: Host, expenses: seq<Expense>, sortType: string): seq<Expense> {
    match SortKeyOf(sortType)
    case None => expenses
    case Some(k) => Sort(Precedes(h, k), expenses)
  }

  /** Keep a record unless its id is `id`. */
  function IdDiffers(id: int): Expense -> bool {
    (e: Expense) => e.id != id
  }

  /** The list left after deleting `id`. */
  function WithoutId(expenses: seq<Expense>, id: int): seq<Expense> {
    Filter(expenses, IdDiffers(id))
  }

  /** Keep a record when no category is selected ("" is falsy) or when its
      category is the selected one. */
  function ShowsCategory(selected: string): Expense -> bool {
    (e: Expense) => selected == "" || e.category == selected
  }

  /** Deleting keeps every record whose id differs, as many times as it
      occurs, and no record with the deleted id. */
  lemma WithoutIdCount(expenses: seq<Expense>, id: int, e: Expense)
    ensures multiset(WithoutId(expenses, id))[e] == if e.id != id then multiset(expenses)[e] else 0
  {
    FilterCount(expenses, IdDiffers(id), e);
  }

  /** Deleting keeps exactly the records at the indices whose id differs, in
      increasing index order. */
  lemma WithoutIdKeepsOrder(expenses: seq<Expense>, id: int)
    ensures var idx := Positions(expenses, IdDiffers(id));
      && |WithoutId(expenses, id)| == |idx|
      && (forall k :: 0 <= k < |idx| ==> WithoutId(expenses, id)[k] == expenses[idx[k]])
      && (forall k, l :: 0 <= k < l < |idx| ==> idx[k] < idx[l])
      && (forall i :: 0 <= i < |expenses| ==> (i in idx <==> expenses[i].id != id))
  {
    FilterAtPositions(expenses, IdDiffers(id));
  }

  /** Deleting an id that no record has changes nothing, and only then. */
  lemma WithoutIdNoMatch(expenses: seq<Expense>, id: int)
    ensures WithoutId(expenses, id) == expenses <==> forall e :: e in expenses ==> e.id != id
  {
    FilterKeepsAll(expenses, IdDiffers(id));
  }

  /** Deleting the same id twice is the same as deleting it once. */
  lemma WithoutIdIdempotent(expenses: seq<Expense>, id: int)
    ensures WithoutId(WithoutId(expenses, id), id) == WithoutId(expenses, id)
  {
    FilterIdempotent(expenses, IdDiffers(id));
  }

  /** Ids as the page assigns them while nothing has been deleted: 1, 2, ... */
  ghost predicate NumberedFromOne(expenses: seq<Expense>) {
    forall i :: 0 <= i < |expenses| ==> expenses[i].id == i + 1
  }

  /** While nothing is deleted, numbering a new record length + 1 keeps the
      ids 1, 2, ..., so they stay distinct. */
  lemma AppendKeepsNumbering(expenses: seq<Expense>, category: string, amount: real, date: string)
    requires NumberedFromOne(expenses)
    ensures NumberedFromOne(expenses + [Expense(|expenses| + 1, category, amount, date)])
  {
  }

  /** After deleting any record but the last from a list numbered 1..n, the
      id the next add assigns (new length + 1) is the id of the last record,
      which is still present: ids repeat. */
  lemma IdReusedAfterDelete(expenses: seq<Expense>, id: int)
    requires NumberedFromOne(expenses)
    requires 1 <= id < |expenses|
    ensures var rest := WithoutId(expenses, id);
      |rest| + 1 == |expenses| && rest[|rest| - 1] == expenses[|expenses| - 1]
      && exists e :: e in rest && e.id == |rest| + 1
  {
    FilterDropsOne(expenses, IdDiffers(id), id - 1);
    var rest := WithoutId(expenses, id);
    assert rest[|rest| - 1] == expenses[|expenses| - 1];
  }

  /** The list shown for `sortType` and category `selected`: exactly the records
      of the category, stably sorted by the chosen key. */
  lemma DisplayedProperties(h: Host, expenses: seq<Expense>, sortType: string, selected: string)
    requires SortKeyOf(sortType) == Some(Alphabetical) ==> ValidHost(h)
    ensures var shown := Filter(SortedCopy(h, expenses, sortType), ShowsCategory(selected));
      && (forall e :: multiset(shown)[e] ==
            if ShowsCategory(selected)(e) then multiset(expenses)[e] else 0)
      && (SortKeyOf(sortType).None? ==> shown == Filter(expenses, ShowsCategory(selected)))
      && (forall k :: SortKeyOf(sortType) == Some(k) ==>
            shown == Sort(Precedes(h, k), Filter(expenses, ShowsCategory(selected))))
      && (forall k, y :: SortKeyOf(sortType) == Some(k) ==>
            Filter(shown, TiesWith(Precedes(h, k), y)) ==
            Filter(Filter(expenses, ShowsCategory(selected)), TiesWith(Precedes(h, k), y)))
      && (sortType == "alphabetical" ==> forall i, j :: 0 <= i < j < |shown| ==>
            h.localeCompare(shown[i].category, shown[j].category) <= 0)
      && (sortType == "date" ==> forall i, j :: 0 <= i < j < |shown| ==>
            h.dateValue(shown[i].date) <= h.dateValue(shown[j].date))
      && (sortType == "amount" ==> forall i, j :: 0 <= i < j < |shown| ==>
            shown[i].amount <= shown[j].amount)
  {
    var p := ShowsCategory(selected);
    var copy := SortedCopy(h, expenses, sortType);
    var shown := Filter(copy, p);
    if SortKeyOf(sortType).Some? {
      SortPermutation(Precedes(h, SortKeyOf(sortType).value), expenses);
    }
    FilterPermutation(copy, expenses, p);
    forall e ensures multiset(shown)[e] == if p(e) then multiset(expenses)[e] else 0 {
      FilterCount(expenses, p, e);
    }
    if SortKeyOf(sortType).Some? {
      var k := SortKeyOf(sortType).value;
      var le := Precedes(h, k);
      PrecedesIsTotalPreorder(h, k);
      SortThenFilter(le, expenses, p);
      forall y ensures Filter(shown, TiesWith(le, y)) == Filter(Filter(expenses, p), TiesWith(le, y)) {
        SortStable(le, Filter(expenses, p), y);
      }
      SortSorted(le, Filter(expenses, p));
    }
  }
}
