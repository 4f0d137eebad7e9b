/** The shared expense helpers: the day number a local `Date` built from
    year, month and day stands for, the filter of day groups by an inclusive
    custom range, and the per-category totals Map over raw categories. */
module ExpenseUtils {
  import opened Wrappers
  import opened Seqs
  import opened OrderedMap
  import opened DateText
  import opened Expenses

  /** Days from 1 January of year 0 to 1 January of year `y` in the
      proleptic Gregorian calendar (negative before year 0). */
  function DaysBeforeYear(y: int): int {
    365 * y + (y + 3) / 4 - (y + 99) / 100 + (y + 399) / 400
  }

  /** Days from 1 January to the first of month `m` (13 standing for the
      next 1 January): the common-year table, one more after February in a
      leap year. */
  function DaysBeforeMonth(y: int, m: int): int
    requires 1 <= m <= 13
  {
    [0, 31, 59, 90, 120, 151, 181, 212, 243, 273, 304, 334, 365][m - 1]
      + (if m > 2 && IsLeapYear(y) then 1 else 0)
  }

  /** `new Date(y, monthIndex, d)` as a day count: a year 0..99 means 1900
      plus that year, the month index rolls over into the year, and the day
      rolls over into the following (or preceding) months. */
  function MakeDay(y: int, monthIndex: int, d: int): int {
    var yr := if 0 <= y <= 99 then 1900 + y else y;
    var ym := yr + monthIndex / 12;
    DaysBeforeYear(ym) + DaysBeforeMonth(ym, monthIndex % 12 + 1) + d - 1
  }

  /** `parseYMD(s)` as a day count from the numbers read out of `s`, None
      for the Invalid Date a NaN part gives. */
  function ParsedDay(p: YMD): Option<int> {
    if p.y.Some? && p.m.Some? && p.d.Some? then Some(MakeDay(p.y.value, p.m.value - 1, p.d.value)) else None
  }

  /** `parseYMD(group.date)`. */
  function GroupDay(g: DayGroup): Option<int> {
    ParsedDay(ParseYMD(g.date))
  }

  /** `new Date(d.getFullYear(), d.getMonth(), d.getDate())` as a day count. */
  function DayOf(d: Date): int {
    MakeDay(d.year, d.month - 1, d.day)
  }

  /** A year has 366 days when it is a leap year and 365 otherwise. */
  lemma YearLength(y: int)
    ensures DaysBeforeYear(y + 1) - DaysBeforeYear(y) == if IsLeapYear(y) then 366 else 365
  {
    LeapStep4(y);
    LeapStep100(y);
    LeapStep400(y);
    PeriodsNest(y);
    var a, b, c := (y + 4) / 4 - (y + 3) / 4, (y + 100) / 100 - (y + 99) / 100, (y + 400) / 400 - (y + 399) / 400;
    assert DaysBeforeYear(y + 1) - DaysBeforeYear(y) == 365 + a - b + c;
  }

  /** The leap-year periods divide each other: a multiple of 400 is one of 100,
      and a multiple of 100 is one of 4. */
  lemma PeriodsNest(y: int)
    ensures y % 400 == 0 ==> y % 100 == 0
    ensures y % 100 == 0 ==> y % 4 == 0
  {
    if y % 400 == 0 {
      var k, q := y / 400, y / 100;
      assert y == 400 * k && y == 100 * q + y % 100;
      assert 100 * (4 * k - q) == y % 100;
    }
    if y % 100 == 0 {
      var k, q := y / 100, y / 4;
      assert y == 100 * k && y == 4 * q + y % 4;
      assert 4 * (25 * k - q) == y % 4;
    }
  }

  /** Each of the three leap-day counts grows by one exactly at a multiple of its period. */
  lemma LeapStep4(y: int)
    ensures (y + 4) / 4 - (y + 3) / 4 == if y % 4 == 0 then 1 else 0
  {}

  lemma LeapStep100(y: int)
    ensures (y + 100) / 100 - (y + 99) / 100 == if y % 100 == 0 then 1 else 0
  {}

  lemma LeapStep400(y: int)
    ensures (y + 400) / 400 - (y + 399) / 400 == if y % 400 == 0 then 1 else 0
  {}

  /** Each month starts where the one before it ends. */
  lemma MonthStep(y: int, m: int)
    requires 1 <= m <= 12
    ensures DaysBeforeMonth(y, m) + DaysInMonth(y, m) == DaysBeforeMonth(y, m + 1)
  {}

  /** The months of a year add up to its length. */
  lemma MonthsFillYear(y: int)
    ensures DaysBeforeYear(y) + DaysBeforeMonth(y, 13) == DaysBeforeYear(y + 1)
  {
    YearLength(y);
  }

  /** Later years start later, by at least a year's worth of days. */
  lemma {:induction false} YearsAscend(a: int, b: int)
    requires a < b
    ensures DaysBeforeYear(a + 1) <= DaysBeforeYear(b)
    decreases b - a
  {
    if a + 1 < b {
      YearsAscend(a + 1, b);
      YearLength(a + 1);
    }
  }

  /** Within a year, later months start after every day of an earlier one. */
  lemma {:induction false} MonthsAscend(y: int, a: int, b: int)
    requires 1 <= a < b <= 13
    ensures DaysBeforeMonth(y, a) + DaysInMonth(y, a) <= DaysBeforeMonth(y, b)
    decreases b - a
  {
    MonthStep(y, a);
    if a + 1 < b {
      MonthsAscend(y, a + 1, b);
      MonthStep(y, a + 1);
    }
  }

  /** The day of a real calendar date lies within its year. */
  lemma DayWithinYear(d: Date)
    requires ValidDate(d) && d.year >= 100
    ensures DaysBeforeYear(d.year) <= DayOf(d) < DaysBeforeYear(d.year + 1)
  {
    DayOfDate(d);
    MonthsFillYear(d.year);
    MonthsAscend(d.year, d.month, 13);
  }

  /** For a calendar date from year 100 on, no rollover happens. */
  lemma DayOfDate(d: Date)
    requires 1 <= d.month <= 12 && d.year >= 100
    ensures DayOf(d) == DaysBeforeYear(d.year) + DaysBeforeMonth(d.year, d.month) + d.day - 1
  {
    assert (d.month - 1) / 12 == 0 && (d.month - 1) % 12 == d.month - 1;
  }

  /** An earlier calendar date has a smaller day number. */
  lemma EarlierDay(a: Date, b: Date)
    requires ValidDate(a) && ValidDate(b) && a.year >= 100 && b.year >= 100
    requires DateLt(a, b)
    ensures DayOf(a) < DayOf(b)
  {
    DayOfDate(a);
    DayOfDate(b);
    if a.year < b.year {
      DayWithinYear(a);
      DayWithinYear(b);
      YearsAscend(a.year, b.year);
    } else if a.month < b.month {
      MonthsAscend(a.year, a.month, b.month);
    }
  }

  /** Comparing the day numbers of two calendar dates (from year 100 on)
      orders them as the calendar does. */
  lemma DayOrder(a: Date, b: Date)
    requires ValidDate(a) && ValidDate(b) && a.year >= 100 && b.year >= 100
    ensures DayOf(a) <= DayOf(b) <==> DateLe(a, b)
  {
    if DateLt(a, b) {
      EarlierDay(a, b);
    } else if DateLt(b, a) {
      EarlierDay(b, a);
    }
  }

  /** Whether the day of `x` is a date within [lo, hi]. */
  predicate InRange<T>(x: T, day: T -> Option<int>, lo: int, hi: int) {
    day(x).Some? && lo <= day(x).value <= hi
  }

  /** `xs.filter(...)` keeping the elements whose day is within [lo, hi], in their order. */
  function FilterDays<T(!new)>(xs: seq<T>, day: T -> Option<int>, lo: int, hi: int): (r: seq<T>)
    ensures |r| <= |xs|
  {
    if xs == [] then []
    else
      var init := FilterDays(xs[..|xs| - 1], day, lo, hi);
      var x := xs[|xs| - 1];
      if InRange(x, day, lo, hi) then init + [x] else init
  }

  /** The kept elements are exactly those whose day is in range. */
  lemma {:induction false} FilterDaysMembers<T(!new)>(xs: seq<T>, day: T -> Option<int>, lo: int, hi: int)
    ensures forall x :: x in FilterDays(xs, day, lo, hi) <==> x in xs && InRange(x, day, lo, hi)
    decreases |xs|
  {
    if xs != [] {
      var init, x := xs[..|xs| - 1], xs[|xs| - 1];
      FilterDaysMembers(init, day, lo, hi);
      assert xs == init + [x];
    }
  }

  /** `filterByCustomRange(dayGroups, startDate, endDate)`. */
  function FilterByCustomRange(gs: seq<DayGroup>, start: Option<Date>, end: Option<Date>): seq<DayGroup> {
    if start.None? || end.None? then [] else FilterDays(gs, GroupDay, DayOf(start.value), DayOf(end.value))
  }

  /** A missing bound gives no groups at all. */
  lemma MissingBound(gs: seq<DayGroup>, start: Option<Date>, end: Option<Date>)
    requires start.None? || end.None?
    ensures FilterByCustomRange(gs, start, end) == []
  {}

  /** Filtering splits over concatenation, so the kept groups stay in the
      order the input lists them. */
  lemma {:induction false} FilterDaysConcat<T(!new)>(a: seq<T>, b: seq<T>, day: T -> Option<int>, lo: int, hi: int)
    ensures FilterDays(a + b, day, lo, hi) == FilterDays(a, day, lo, hi) + FilterDays(b, day, lo, hi)
    decreases |b|
  {
    if b == [] {
      assert a + b == a;
    } else {
      var init, x := b[..|b| - 1], b[|b| - 1];
      FilterDaysConcat(a, init, day, lo, hi);
      assert (a + b)[..|a + b| - 1] == a + init;
      assert (a + b)[|a + b| - 1] == x;
      var fa, fi := FilterDays(a, day, lo, hi), FilterDays(init, day, lo, hi);
      if InRange(x, day, lo, hi) {
        assert FilterDays(b, day, lo, hi) == fi + [x];
        assert FilterDays(a + b, day, lo, hi) == (fa + fi) + [x];
      } else {
        assert FilterDays(b, day, lo, hi) == fi;
        assert FilterDays(a + b, day, lo, hi) == fa + fi;
      }
    }
  }

  /** A single element is kept when it is in range, and dropped otherwise. */
  lemma FilterDaysOne<T(!new)>(x: T, day: T -> Option<int>, lo: int, hi: int)
    ensures FilterDays([x], day, lo, hi) == if InRange(x, day, lo, hi) then [x] else []
  {
    assert [x][..0] == [];
  }

  /** An empty range keeps nothing. */
  lemma {:induction false} EmptyRange<T(!new)>(xs: seq<T>, day: T -> Option<int>, lo: int, hi: int)
    requires hi < lo
    ensures FilterDays(xs, day, lo, hi) == []
    decreases |xs|
  {
    if xs != [] {
      EmptyRange(xs[..|xs| - 1], day, lo, hi);
    }
  }

  /** A range whose start is after its end keeps nothing. */
  lemma ReversedRangeEmpty(gs: seq<DayGroup>, start: Date, end: Date)
    requires ValidDate(start) && ValidDate(end) && start.year >= 100 && end.year >= 100
    requires DateLt(end, start)
    ensures FilterByCustomRange(gs, Some(start), Some(end)) == []
  {
    EarlierDay(end, start);
    EmptyRange(gs, GroupDay, DayOf(start), DayOf(end));
  }

  /** A date string the client formatted reads back as the day of its date. */
  lemma FormattedDay(g: DayGroup, dt: Date)
    requires ValidDate(dt) && dt.year >= 100
    requires g.date == ToYMD(dt.year, dt.month, dt.day)
    ensures GroupDay(g) == Some(DayOf(dt))
  {
    ParseToYMD(dt.year, dt.month, dt.day);
    ParsedDayOf(dt);
  }

  lemma ParsedDayOf(dt: Date)
    ensures ParsedDay(YMD(Some(dt.year), Some(dt.month), Some(dt.day))) == Some(DayOf(dt))
  {}

  /** A group whose date string the client formatted from a calendar date is
      kept exactly when that date lies between start and end, both included. */
  lemma KeptWhenBetween(gs: seq<DayGroup>, g: DayGroup, dt: Date, start: Date, end: Date)
    requires g in gs
    requires ValidDate(dt) && ValidDate(start) && ValidDate(end)
    requires dt.year >= 100 && start.year >= 100 && end.year >= 100
    requires g.date == ToYMD(dt.year, dt.month, dt.day)
    ensures g in FilterByCustomRange(gs, Some(start), Some(end)) <==> DateLe(start, dt) && DateLe(dt, end)
  {
    FilterDaysMembers(gs, GroupDay, DayOf(start), DayOf(end));
    FormattedDay(g, dt);
    DayOrder(start, dt);
    DayOrder(dt, end);
  }

  /** The key `item.category` as it is, missing included. */
  function RawCategory(it: Item): Option<string> {
    it.category
  }

  /** `Number(item.amount) || 0`. */
  function ItemAmount(it: Item): int {
    AmountOr0(it.amount)
  }

  /** Every item of every group, group after group. */
  function AllItems(gs: seq<DayGroup>): seq<Item> {
    FlatMap(gs, ItemsOf)
  }

  /** `categoryTotalsMap(dayGroups)`: the nested `forEach` loops adding each
      item's amount under its raw category. Every group needs an `items`
      array; the loop throws a TypeError on one without. */
  method CategoryTotalsMap(gs: seq<DayGroup>) returns (totals: seq<(Option<string>, int)>)
    requires forall g :: g in gs ==> g.items.Some?
    ensures totals == AccBy(AllItems(gs), RawCategory, ItemAmount)
  {
    totals := [];
    for i := 0 to |gs|
      invariant totals == AccBy(AllItems(gs[..i]), RawCategory, ItemAmount)
    {
      FlatMapPrefix(gs, i, ItemsOf);
      ghost var before := AllItems(gs[..i]);
      var items := gs[i].items.value;
      assert before + items[..0] == before;
      for j := 0 to |items|
        invariant totals == AccBy(before + items[..j], RawCategory, ItemAmount)
      {
        AccByStep(before, items, j, RawCategory, ItemAmount);
        var amt := ItemAmount(items[j]);
        totals := AddTo(totals, items[j].category, amt);
      }
      assert items[..|items|] == items;
    }
    assert gs[..|gs|] == gs;
  }

  /** The Map's keys are exactly the raw categories that occur, each once and
      without normalising; each holds the sum of its items' amounts; and the
      values add up to the amounts of all items, a non-number counting 0. */
  lemma CategoryTotalsSpec(gs: seq<DayGroup>)
    ensures forall c :: (Get(AccBy(AllItems(gs), RawCategory, ItemAmount), c).Some?
      <==> exists it :: it in AllItems(gs) && it.category == c)
    ensures forall c :: Get(AccBy(AllItems(gs), RawCategory, ItemAmount), c).Some? ==>
      Get(AccBy(AllItems(gs), RawCategory, ItemAmount), c).value == TotalFor(AllItems(gs), RawCategory, ItemAmount, c)
    ensures Distinct(Keys(AccBy(AllItems(gs), RawCategory, ItemAmount)))
    ensures Sum(Values(AccBy(AllItems(gs), RawCategory, ItemAmount))) == SumOf(AllItems(gs), ItemAmount)
  {
    var xs := AllItems(gs);
    AccBySpec(xs, RawCategory, ItemAmount);
    forall c ensures Get(AccBy(xs, RawCategory, ItemAmount), c).Some? <==> exists it :: it in xs && it.category == c {
      KeysOfMembers(xs, RawCategory, c);
    }
  }
}
