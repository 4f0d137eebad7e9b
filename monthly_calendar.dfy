/** The month calendar: the weekday offset and the 42-cell grid, (year, month)
    arithmetic and the navigation clamps, the per-day totals and category
    breakdowns, and the three most expensive days. */
module MonthlyCalendar {
  import opened Wrappers
  import opened Seqs
  import opened OrderedMap
  import opened DateText
  import opened Expenses
  import GroupAnalysis

  // ---- the grid ----

  /** `toMondayFirst(d)`: a weekday counted from Sunday (0..6) counted from
      Monday instead; Sunday becomes the last day of the week. */
  function ToMondayFirst(d: int): (r: int)
    requires 0 <= d <= 6
    ensures 0 <= r <= 6
    ensures (r + 1) % 7 == d
  {
    if d == 0 then 6 else d - 1
  }

  /** The blank cells before day 1: the weekday of the month's first day,
      counted from Monday when the week starts on Monday. */
  function Offset(startWeekday: int, startOnMonday: bool): (r: int)
    requires 0 <= startWeekday <= 6
    ensures 0 <= r <= 6
  {
    if startOnMonday then ToMondayFirst(startWeekday) else startWeekday
  }

  /** `cells`: `offset` blanks, the days 1..`days` in order, then blanks up to
      42 cells (none when the first two parts already fill them). */
  function Cells(offset: nat, days: nat): (r: seq<Option<int>>)
    ensures offset + days <= 42 ==> |r| == 42
    ensures offset + days > 42 ==> |r| == offset + days
    ensures forall i :: 0 <= i < |r| ==> (r[i].Some? <==> offset <= i < offset + days)
    ensures forall i :: offset <= i < offset + days ==> r[i] == Some(i - offset + 1)
  {
    var after := if 42 - offset - days > 0 then 42 - offset - days else 0;
    seq(offset, _ => None) + seq(days, i => Some(i + 1)) + seq(after, _ => None)
  }

  /** Every month fits the six-week grid: 42 cells in which day `d` sits at
      `offset + d - 1` and every other cell is blank. */
  lemma GridFits(y: int, m: int, startWeekday: int, startOnMonday: bool)
    requires 1 <= m <= 12 && 0 <= startWeekday <= 6
    ensures var off, n := Offset(startWeekday, startOnMonday), DaysInMonth(y, m);
      var c := Cells(off, n);
      && |c| == 42
      && (forall d :: 1 <= d <= n ==> c[off + d - 1] == Some(d))
      && (forall i :: 0 <= i < 42 && (i < off || i >= off + n) ==> c[i].None?)
  {
    var off, n := Offset(startWeekday, startOnMonday), DaysInMonth(y, m);
    assert off + n <= 37;
  }

  // ---- (year, month) arithmetic ----

  /** A `{ year, month }` pair; `month` is 1..12 when valid. */
  datatype YM = YM(year: int, month: int)

  predicate ValidYM(a: YM) {
    1 <= a.month <= 12
  }

  /** Months counted from January of year 0. */
  function MonthNumber(a: YM): int {
    12 * a.year + a.month - 1
  }

  /** The (year, month) of a month number. */
  function OfMonthNumber(n: int): (r: YM)
    ensures ValidYM(r) && MonthNumber(r) == n
  {
    YM(n / 12, n % 12 + 1)
  }

  /** A valid pair is the only one with its month number. */
  lemma MonthNumberInjective(a: YM, b: YM)
    requires ValidYM(a) && ValidYM(b) && MonthNumber(a) == MonthNumber(b)
    ensures a == b
  {}

  /** The part of a `Date` on the first of a month that `addMonths` reads and
      writes: its full year and its 0-based month. */
  class FirstOfMonth {
    var year: int
    var monthIndex: int

    /** `new Date(year, monthIndex, 1)`: a month outside 0..11 rolls over
        into the neighbouring years. */
    constructor(year: int, monthIndex: int)
      ensures 0 <= this.monthIndex < 12
      ensures 12 * this.year + this.monthIndex == 12 * year + monthIndex
    {
      this.year := year + monthIndex / 12;
      this.monthIndex := monthIndex % 12;
    }

    /** `d.setMonth(mi)`, rolling over the same way. */
    method SetMonth(mi: int)
      modifies this
      ensures 0 <= monthIndex < 12
      ensures 12 * year + monthIndex == 12 * old(year) + mi
    {
      year := year + mi / 12;
      monthIndex := mi % 12;
    }
  }

  /** `addMonths({ year, month }, delta)`: the month `delta` months away,
      always a valid pair. */
  method AddMonths(a: YM, delta: int) returns (r: YM)
    ensures ValidYM(r)
    ensures MonthNumber(r) == MonthNumber(a) + delta
  {
    var d := new FirstOfMonth(a.year, a.month - 1);
    d.SetMonth(d.monthIndex + delta);
    r := YM(d.year, d.monthIndex + 1);
  }

  /** Going one month forward and then one back returns to a valid start. */
  lemma ForwardThenBack(a: YM, b: YM, c: YM)
    requires ValidYM(a) && ValidYM(c)
    requires MonthNumber(b) == MonthNumber(a) + 1 && MonthNumber(c) == MonthNumber(b) - 1
    ensures c == a
  {
    MonthNumberInjective(a, c);
  }

  /** `isBefore(a, b)`: strictly earlier in (year, month) order. */
  function IsBefore(a: YM, b: YM): (r: bool)
    ensures ValidYM(a) && ValidYM(b) ==> (r <==> MonthNumber(a) < MonthNumber(b))
  {
    a.year < b.year || (a.year == b.year && a.month < b.month)
  }

  /** `isAfter(a, b)`: strictly later, the converse of `isBefore`. */
  function IsAfter(a: YM, b: YM): (r: bool)
    ensures r <==> IsBefore(b, a)
  {
    a.year > b.year || (a.year == b.year && a.month > b.month)
  }

  /** `isBeforeOrEqual(a, b)`: `!isAfter(a, b)`, earlier or the same month. */
  function IsBeforeOrEqual(a: YM, b: YM): (r: bool)
    ensures r <==> IsBefore(a, b) || a == b
  {
    !IsAfter(a, b)
  }

  /** `isAfterOrEqual(a, b)`: `!isBefore(a, b)`, later or the same month. */
  function IsAfterOrEqual(a: YM, b: YM): (r: bool)
    ensures r <==> IsAfter(a, b) || a == b
  {
    !IsBefore(a, b)
  }

  /** The strict order is irreflexive and transitive, and any two different
      months are ordered one way or the other. */
  lemma BeforeIsStrictTotal(a: YM, b: YM, c: YM)
    ensures !IsBefore(a, a)
    ensures IsBefore(a, b) && IsBefore(b, c) ==> IsBefore(a, c)
    ensures a != b ==> IsBefore(a, b) || IsBefore(b, a)
  {}

  /** `canGoPrev`: no lower bound, or not before it. */
  function CanGoPrev(cur: YM, min: Option<YM>): bool {
    min.None? || IsAfterOrEqual(cur, min.value)
  }

  /** `canGoNext`: not after the upper bound and not on it. */
  function CanGoNext(cur: YM, max: YM): bool {
    IsBeforeOrEqual(cur, max) && !(cur.year == max.year && cur.month == max.month)
  }

  /** `prevMonth()`: the month passed to `onChange`, or None when the clamp
      refuses. It never goes before the lower bound, and for valid months it
      moves exactly when the current month is after the bound. */
  method PrevMonth(cur: YM, min: Option<YM>) returns (moved: Option<YM>)
    ensures moved.Some? ==> ValidYM(moved.value) && MonthNumber(moved.value) == MonthNumber(cur) - 1
    ensures moved.Some? && min.Some? ==> !IsBefore(moved.value, min.value)
    ensures ValidYM(cur) && (min.Some? ==> ValidYM(min.value)) ==>
      (moved.Some? <==> min.None? || IsBefore(min.value, cur))
  {
    if !CanGoPrev(cur, min) {
      return None;
    }
    var prev := AddMonths(cur, -1);
    if min.Some? && IsBefore(prev, min.value) {
      return None;
    }
    moved := Some(prev);
  }

  /** `nextMonth()`: the month passed to `onChange`, or None. It never goes
      past the upper bound (`maxYearMonth`, else today's month), and for
      valid months it moves exactly when the current month is before it. */
  method NextMonth(cur: YM, max: YM) returns (moved: Option<YM>)
    ensures moved.Some? ==> ValidYM(moved.value) && MonthNumber(moved.value) == MonthNumber(cur) + 1
    ensures moved.Some? ==> !IsAfter(moved.value, max)
    ensures ValidYM(cur) && ValidYM(max) ==> (moved.Some? <==> IsBefore(cur, max))
  {
    if !CanGoNext(cur, max) {
      return None;
    }
    var next := AddMonths(cur, 1);
    if IsAfter(next, max) {
      return None;
    }
    moved := Some(next);
  }

  // ---- per-day totals ----

  /** The day of a group's date as the `Map` key `split('-').map(Number)` gives. */
  function DayKey(g: DayGroup): PartKey {
    DayPartKey(g.date)
  }

  /** The days of the groups, in order. */
  function DayKeys(gs: seq<DayGroup>): (r: seq<PartKey>)
    ensures |r| == |gs|
  {
    KeysOf(gs, DayKey)
  }

  lemma MonthStep(gs: seq<DayGroup>, i: int, year: int, month: int)
    requires 0 <= i < |gs|
    ensures GroupAnalysis.GroupsForMonth(gs[..i + 1], year, month)
      == GroupAnalysis.GroupsForMonth(gs[..i], year, month) + (if GroupAnalysis.InMonth(gs[i], year, month) then [gs[i]] else [])
  {
    PrefixSnoc(gs, i);
  }

  lemma SumStep(totals: seq<(PartKey, int)>, ms: seq<DayGroup>, g: DayGroup)
    requires Sum(Values(totals)) == GroupAnalysis.GroupsSum(ms)
    ensures Sum(Values(AddTo(totals, DayKey(g), GroupTotal(g)))) == GroupAnalysis.GroupsSum(ms + [g])
  {
    SumAddTo(totals, DayKey(g), GroupTotal(g));
    assert (ms + [g])[..|ms|] == ms;
  }

  /** The `useMemo` building `totalsByDay` and `itemsByDay`: only the groups
      dated in the shown year and month count; each adds its total to its
      day and its items to the day's list. Every day of such a group has its
      entry, no other day has one, and the day totals add up to the month's. */
  method TotalsByDay(gs: seq<DayGroup>, year: int, month: int)
    returns (totals: seq<(PartKey, int)>, items: seq<(PartKey, seq<Item>)>)
    ensures var ms := GroupAnalysis.GroupsForMonth(gs, year, month);
      forall d :: Get(totals, d) == if d in DayKeys(ms) then Some(TotalFor(ms, DayKey, GroupTotal, d)) else None
    ensures var ms := GroupAnalysis.GroupsForMonth(gs, year, month);
      forall d :: Get(items, d) == if d in DayKeys(ms) then Some(ListFor(ms, DayKey, ItemsOf, d)) else None
    ensures Sum(Values(totals)) == GroupAnalysis.GroupsSum(GroupAnalysis.GroupsForMonth(gs, year, month))
    ensures Distinct(Keys(totals)) && Distinct(Keys(items))
  {
    totals, items := [], [];
    for i := 0 to |gs|
      invariant SumsBy(totals, GroupAnalysis.GroupsForMonth(gs[..i], year, month), DayKey, GroupTotal)
      invariant ListsBy(items, GroupAnalysis.GroupsForMonth(gs[..i], year, month), DayKey, ItemsOf)
      invariant Sum(Values(totals)) == GroupAnalysis.GroupsSum(GroupAnalysis.GroupsForMonth(gs[..i], year, month))
      invariant Distinct(Keys(totals)) && Distinct(Keys(items))
    {
      var g := gs[i];
      ghost var ms := GroupAnalysis.GroupsForMonth(gs[..i], year, month);
      MonthStep(gs, i, year, month);
      if GroupAnalysis.InMonth(g, year, month) {
        var d := DayKey(g);
        SumsByStep(totals, ms, g, DayKey, GroupTotal);
        ListsByStep(items, ms, g, DayKey, ItemsOf);
        SumStep(totals, ms, g);
        SetKeepsDistinct(totals, d, Get(totals, d).GetOr(0) + GroupTotal(g));
        SetKeepsDistinct(items, d, Get(items, d).GetOr([]) + ItemsOf(g));
        totals := AddTo(totals, d, GroupTotal(g));
        items := Set(items, d, Get(items, d).GetOr([]) + ItemsOf(g));
      } else {
        ConcatEmpty(ms);
      }
    }
    assert gs[..|gs|] == gs;
  }

  // ---- per-day category breakdown ----

  function CatKey(it: Item): Category {
    NormalizeCat(it.category)
  }

  function CatAmount(it: Item): int {
    AmountOr0(it.amount)
  }

  /** The comparator `(a, b) => b.total - a.total`: larger totals first. */
  predicate HigherFirst<K>(a: (K, int), b: (K, int)) {
    a.1 >= b.1
  }

  lemma HigherFirstPreorder<K(!new)>()
    ensures TotalPreorder(HigherFirst<K>)
  {}

  /** One day's badges: the category Map of its items, largest total first
      (a stable sort, so equal totals keep their first-seen order). */
  function DayBreakdown(items: seq<Item>): seq<(Category, int)> {
    SortBy(AccBy(items, CatKey, CatAmount), HigherFirst<Category>)
  }

  lemma {:induction false} ItemsSumOf(items: seq<Item>)
    ensures ItemsSum(items) == SumOf(items, CatAmount)
    decreases |items|
  {
    if items != [] {
      ItemsSumOf(items[..|items| - 1]);
    }
  }

  /** Every category of the day's items appears once, with the sum of its
      items' amounts, and no other; the list runs from the largest total
      down; and the badges add up to the day's item total. */
  lemma DayBreakdownSpec(items: seq<Item>)
    ensures var r := DayBreakdown(items);
      forall c :: c in Keys(r) <==> c in KeysOf(items, CatKey)
    ensures var r := DayBreakdown(items);
      forall e :: e in r ==> e.1 == TotalFor(items, CatKey, CatAmount, e.0)
    ensures Distinct(Keys(DayBreakdown(items)))
    ensures SortedBy(DayBreakdown(items), HigherFirst<Category>)
    ensures Sum(Values(DayBreakdown(items))) == ItemsSum(items)
  {
    SortedTotals(items, CatKey, CatAmount);
    ItemsSumOf(items);
  }

  /** The totals per key, largest first: each key once, with its total, and
      nothing lost from the sum. */
  lemma SortedTotals<T, K(!new)>(xs: seq<T>, key: T -> K, val: T -> int)
    ensures var r := SortBy(AccBy(xs, key, val), HigherFirst<K>);
      forall k :: k in Keys(r) <==> k in KeysOf(xs, key)
    ensures var r := SortBy(AccBy(xs, key, val), HigherFirst<K>);
      forall e :: e in r ==> e.1 == TotalFor(xs, key, val, e.0)
    ensures Distinct(Keys(SortBy(AccBy(xs, key, val), HigherFirst<K>)))
    ensures SortedBy(SortBy(AccBy(xs, key, val), HigherFirst<K>), HigherFirst<K>)
    ensures Sum(Values(SortBy(AccBy(xs, key, val), HigherFirst<K>))) == SumOf(xs, val)
  {
    var acc := AccBy(xs, key, val);
    SortedTotalsKeys(xs, key, val);
    SortedTotalsEntries(xs, key, val);
    AccBySpec(xs, key, val);
    SortByValues(acc, HigherFirst<K>);
    HigherFirstPreorder<K>();
    SortBySorted(acc, HigherFirst<K>);
  }

  lemma SortedTotalsKeys<T, K(!new)>(xs: seq<T>, key: T -> K, val: T -> int)
    ensures var r := SortBy(AccBy(xs, key, val), HigherFirst<K>);
      forall k :: k in Keys(r) <==> k in KeysOf(xs, key)
    ensures Distinct(Keys(SortBy(AccBy(xs, key, val), HigherFirst<K>)))
  {
    var acc := AccBy(xs, key, val);
    var r := SortBy(acc, HigherFirst<K>);
    AccBySpec(xs, key, val);
    SortByKeys(acc, HigherFirst<K>);
    DistinctPermutation(Keys(acc), Keys(r));
    forall k ensures k in Keys(r) <==> k in KeysOf(xs, key) {
      assert k in Keys(r) <==> k in multiset(Keys(r));
      assert k in Keys(acc) <==> k in multiset(Keys(acc));
      assert k in Keys(acc) <==> Get(acc, k).Some?;
    }
  }

  lemma SortedTotalsEntries<T, K(!new)>(xs: seq<T>, key: T -> K, val: T -> int)
    ensures var r := SortBy(AccBy(xs, key, val), HigherFirst<K>);
      forall e :: e in r ==> e.1 == TotalFor(xs, key, val, e.0)
  {
    var acc := AccBy(xs, key, val);
    var r := SortBy(acc, HigherFirst<K>);
    AccBySpec(xs, key, val);
    HigherFirstPreorder<K>();
    SortBySorted(acc, HigherFirst<K>);
    forall e | e in r ensures e.1 == TotalFor(xs, key, val, e.0) {
      assert e in multiset(acc);
      var j :| 0 <= j < |acc| && acc[j] == e;
      GetEntry(acc, j);
    }
  }

  /** The inner loop of `categoryTotalsByDay` for one day. */
  method CategoryTotals(items: seq<Item>) returns (acc: seq<(Category, int)>)
    ensures acc == AccBy(items, CatKey, CatAmount)
  {
    acc := [];
    for i := 0 to |items|
      invariant acc == AccBy(items[..i], CatKey, CatAmount)
    {
      assert items[..i + 1][..i] == items[..i];
      acc := AddTo(acc, CatKey(items[i]), CatAmount(items[i]));
    }
    assert items[..|items|] == items;
  }

  /** The `categoryTotalsByDay` memo: one sorted breakdown per day of the
      per-day item Map, under the same day and in the same order. */
  method CategoryTotalsByDay(byDay: seq<(PartKey, seq<Item>)>)
    returns (r: seq<(PartKey, seq<(Category, int)>)>)
    requires Distinct(Keys(byDay))
    ensures |r| == |byDay|
    ensures forall i :: 0 <= i < |byDay| ==> r[i] == (byDay[i].0, DayBreakdown(byDay[i].1))
  {
    r := [];
    for i := 0 to |byDay|
      invariant |r| == i
      invariant forall j :: 0 <= j < i ==> r[j] == (byDay[j].0, DayBreakdown(byDay[j].1))
    {
      var acc := CategoryTotals(byDay[i].1);
      var arr := SortBy(acc, HigherFirst<Category>);
      MapEntriesStep(byDay, r, i, DayBreakdown);
      r := Set(r, byDay[i].0, arr);
    }
  }

  /** Looking a day up in the breakdown Map finds that day's breakdown. */
  lemma BreakdownLookup(byDay: seq<(PartKey, seq<Item>)>, r: seq<(PartKey, seq<(Category, int)>)>, d: PartKey)
    requires Distinct(Keys(byDay)) && |r| == |byDay|
    requires forall i :: 0 <= i < |byDay| ==> r[i] == (byDay[i].0, DayBreakdown(byDay[i].1))
    ensures Get(r, d) == if Get(byDay, d).Some? then Some(DayBreakdown(Get(byDay, d).value)) else None
  {
    assert Keys(r) == Keys(byDay);
    if Get(byDay, d).Some? {
      var i := IndexOf(byDay, d);
      GetEntry(byDay, i);
      GetEntry(r, i);
    }
  }

  // ---- the three most expensive days ----

  /** `Array.from(totalsByDay.entries()).sort((a, b) => b[1] - a[1]).slice(0, 3).map(([d]) => d)`. */
  function Top3Days(totals: seq<(PartKey, int)>): seq<PartKey> {
    var sorted := SortBy(totals, HigherFirst<PartKey>);
    Keys(sorted[..if |sorted| < 3 then |sorted| else 3])
  }

  /** In a list sorted largest first with distinct keys, an entry among the
      first `n` totals at least as much as one after them. */
  lemma PrefixDominates<K>(s: seq<(K, int)>, n: nat, a: (K, int), b: (K, int))
    requires Distinct(Keys(s)) && SortedBy(s, HigherFirst<K>) && n <= |s|
    requires a in s && b in s && a.0 in Keys(s)[..n] && b.0 !in Keys(s)[..n]
    ensures a.1 >= b.1
  {
    var i :| 0 <= i < |s| && s[i] == a;
    var j :| 0 <= j < |s| && s[j] == b;
    var k :| 0 <= k < n && Keys(s)[k] == a.0;
    assert Keys(s)[k] == Keys(s)[i];
    assert forall t :: 0 <= t < n ==> Keys(s)[..n][t] == s[t].0;
    assert i < n <= j;
  }

  /** At most three days, none twice, all of them days with a total. */
  lemma Top3Chosen(totals: seq<(PartKey, int)>)
    requires Distinct(Keys(totals))
    ensures |Top3Days(totals)| == if |totals| < 3 then |totals| else 3
    ensures Distinct(Top3Days(totals))
    ensures forall d :: d in Top3Days(totals) ==> d in Keys(totals)
  {
    var s := SortBy(totals, HigherFirst<PartKey>);
    var n := if |s| < 3 then |s| else 3;
    var r := Top3Days(totals);
    SortByKeys(totals, HigherFirst<PartKey>);
    DistinctPermutation(Keys(totals), Keys(s));
    assert r == Keys(s)[..n];
    forall d | d in r ensures d in Keys(totals) {
      assert d in multiset(Keys(s));
    }
  }

  /** No day left out has a larger total than a day chosen. */
  lemma Top3Dominates(totals: seq<(PartKey, int)>)
    requires Distinct(Keys(totals))
    ensures forall a, b :: a in totals && b in totals && a.0 in Top3Days(totals) && b.0 !in Top3Days(totals) ==> a.1 >= b.1
  {
    var s := SortBy(totals, HigherFirst<PartKey>);
    var n := if |s| < 3 then |s| else 3;
    var r := Top3Days(totals);
    SortByKeys(totals, HigherFirst<PartKey>);
    DistinctPermutation(Keys(totals), Keys(s));
    HigherFirstPreorder<PartKey>();
    SortBySorted(totals, HigherFirst<PartKey>);
    assert r == Keys(s)[..n];
    forall a, b | a in totals && b in totals && a.0 in r && b.0 !in r ensures a.1 >= b.1 {
      assert a in multiset(s) && b in multiset(s);
      PrefixDominates(s, n, a, b);
    }
  }

  /** The three days shown: at most three, none twice, all of them days with
      a total, and no day left out has a larger total than a day chosen. */
  lemma Top3Spec(totals: seq<(PartKey, int)>)
    requires Distinct(Keys(totals))
    ensures |Top3Days(totals)| == if |totals| < 3 then |totals| else 3
    ensures Distinct(Top3Days(totals))
    ensures forall d :: d in Top3Days(totals) ==> d in Keys(totals)
    ensures forall a, b :: a in totals && b in totals && a.0 in Top3Days(totals) && b.0 !in Top3Days(totals) ==> a.1 >= b.1
  {
    Top3Chosen(totals);
    Top3Dominates(totals);
  }
}
