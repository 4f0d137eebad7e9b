/** The daily expenses page: flattening grouped or already flat expense
    records into the flat list the month view edits, and keeping the edited
    list in date order. */
module DailyPage {
  import opened Wrappers
  import opened Seqs
  import opened Text
  import opened Expenses
  import opened DateText
  import DailyAnalysis

  /** An entry of the input list: a group whose `items` is an array, or a
      record that is already flat. */
  datatype Entry =
    | Grouped(date: string, items: seq<Item>)
    | Single(date: string, amount: Option<int>, category: Option<string>)

  /** `category || "other"`. */
  function CategoryOr(c: Option<string>): (r: string)
    ensures r != []
    ensures c.Some? && c.value != [] ==> r == c.value
  {
    if c.None? || c.value == [] then "other" else c.value
  }

  /** The flat row pushed for one amount and category under `date`. */
  function Row(date: string, amount: Option<int>, category: Option<string>): DailyAnalysis.Expense {
    DailyAnalysis.Expense(date, Some(AmountOr0(amount)), Some(CategoryOr(category)), [])
  }

  /** The rows one entry contributes: one per item of a group, one for a flat record. */
  function RowsOf(e: Entry): (r: seq<DailyAnalysis.Expense>)
    ensures e.Grouped? ==> |r| == |e.items| && forall i :: 0 <= i < |e.items| ==>
      r[i] == Row(e.date, e.items[i].amount, e.items[i].category)
    ensures e.Single? ==> r == [Row(e.date, e.amount, e.category)]
  {
    match e
    case Grouped(date, items) => seq(|items|, i requires 0 <= i < |items| => Row(date, items[i].amount, items[i].category))
    case Single(date, amount, category) => [Row(date, amount, category)]
  }

  /** The number of rows an entry contributes. */
  function Count(e: Entry): nat {
    if e.Grouped? then |e.items| else 1
  }

  function CountSum(es: seq<Entry>): nat {
    if es == [] then 0 else CountSum(es[..|es| - 1]) + Count(es[|es| - 1])
  }

  /** `toFlatExpenses(list)`: a list that is not an array gives no rows;
      otherwise the rows of each entry, entry after entry. */
  method ToFlatExpenses(list: Option<seq<Entry>>) returns (flat: seq<DailyAnalysis.Expense>)
    ensures list.None? ==> flat == []
    ensures list.Some? ==> flat == FlatMap(list.value, RowsOf)
  {
    if list.None? {
      return [];
    }
    var es := list.value;
    flat := [];
    for i := 0 to |es|
      invariant flat == FlatMap(es[..i], RowsOf)
    {
      FlatMapPrefix(es, i, RowsOf);
      match es[i]
      case Grouped(date, items) =>
        flat := PushItems(flat, date, items);
      case Single(date, amount, category) =>
        flat := flat + [Row(date, amount, category)];
    }
    assert es[..|es|] == es;
  }

  /** The inner loop over a group's items. */
  method PushItems(flat0: seq<DailyAnalysis.Expense>, date: string, items: seq<Item>) returns (flat: seq<DailyAnalysis.Expense>)
    ensures flat == flat0 + RowsOf(Grouped(date, items))
  {
    flat := flat0;
    for k := 0 to |items|
      invariant flat == flat0 + RowsOf(Grouped(date, items))[..k]
    {
      assert RowsOf(Grouped(date, items))[..k + 1] == RowsOf(Grouped(date, items))[..k] + [Row(date, items[k].amount, items[k].category)];
      flat := flat + [Row(date, items[k].amount, items[k].category)];
    }
    assert RowsOf(Grouped(date, items))[..|items|] == RowsOf(Grouped(date, items));
  }

  /** One row per item of a group and one per flat record. */
  lemma {:induction false} FlatLength(es: seq<Entry>)
    ensures |FlatMap(es, RowsOf)| == CountSum(es)
    decreases |es|
  {
    if es != [] {
      FlatLength(es[..|es| - 1]);
    }
  }

  /** The rows keep the input order: item `i` of entry `j` sits right after
      the rows of the entries before `j`, with the entry's date, its numeric
      amount (0 for a non-number) and its category ("other" when missing). */
  lemma FlatOrder(es: seq<Entry>, j: int, i: int)
    requires 0 <= j < |es| && es[j].Grouped? && 0 <= i < |es[j].items|
    ensures var at := CountSum(es[..j]) + i;
      at < |FlatMap(es, RowsOf)|
      && FlatMap(es, RowsOf)[at] == Row(es[j].date, es[j].items[i].amount, es[j].items[i].category)
  {
    FlatMapAt(es, RowsOf, j, i);
    FlatLength(es[..j]);
  }

  /** A flat record keeps its place the same way. */
  lemma FlatOrderSingle(es: seq<Entry>, j: int)
    requires 0 <= j < |es| && es[j].Single?
    ensures var at := CountSum(es[..j]);
      at < |FlatMap(es, RowsOf)|
      && FlatMap(es, RowsOf)[at] == Row(es[j].date, es[j].amount, es[j].category)
  {
    FlatMapAt(es, RowsOf, j, 0);
    FlatLength(es[..j]);
  }

  /** Every row carries a number and a non-empty category. */
  lemma {:induction false} FlatRowsComplete(es: seq<Entry>)
    ensures forall r :: r in FlatMap(es, RowsOf) ==> r.amount.Some? && r.category.Some? && r.category.value != []
    decreases |es|
  {
    if es != [] {
      FlatRowsComplete(es[..|es| - 1]);
    }
  }

  /** The date text an expense is sorted by. */
  function ExpenseDate(e: DailyAnalysis.Expense): string {
    e.date
  }

  /** The page's state: the shown month and the flat expense list. */
  class Page {
    var year: int
    var month: int
    var expenses: seq<DailyAnalysis.Expense>

    /** The initial state: December 2025 and the flattened sample groups. */
    constructor(sample: seq<Entry>)
      ensures year == 2025 && month == 12
      ensures expenses == FlatMap(sample, RowsOf)
    {
      var flat := ToFlatExpenses(Some(sample));
      year, month, expenses := 2025, 12, flat;
    }

    /** `handleChange(y, m)`. */
    method HandleChange(y: int, m: int)
      modifies this
      ensures year == y && month == m && expenses == old(expenses)
    {
      year, month := y, m;
    }

    /** `handleUpdateExpenses(next)`: the edited list, stably sorted by date. */
    method HandleUpdateExpenses(next: seq<DailyAnalysis.Expense>)
      modifies this
      ensures expenses == SortBy(next, ByDate(ExpenseDate))
      ensures multiset(expenses) == multiset(next)
      ensures forall i, j :: 0 <= i < j < |expenses| ==> LexLe(expenses[i].date, expenses[j].date)
      ensures year == old(year) && month == old(month)
    {
      SortByDateOrdered(next, ExpenseDate);
      expenses := SortBy(next, ByDate(ExpenseDate));
    }
  }

  /** The stored list is the update rearranged into date order. */
  lemma UpdateSorted(next: seq<DailyAnalysis.Expense>)
    ensures multiset(SortBy(next, ByDate(ExpenseDate))) == multiset(next)
    ensures forall i, j :: 0 <= i < j < |next| ==> LexLe(SortBy(next, ByDate(ExpenseDate))[i].date, SortBy(next, ByDate(ExpenseDate))[j].date)
  {
    SortByDateOrdered(next, ExpenseDate);
  }
}
