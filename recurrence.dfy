/** The recurring-payment engine: for EMI, SIP and fixed items with a
    recurrence rule, a start date, an optional end date and an optional
    step-up rule, which months an item is due in, how much it costs there,
    monthly totals, and the next due date. Months are the client's 0-based
    `(year, month)` pairs; dates are calendar triples. */
module Recurrence {
  import opened Wrappers
  import opened DateText
  import opened Seqs

  /** A step-up rule. `mode` and `every` are "" when the stored rule has none;
      `value` is `Number(value)` (None is NaN); `from` is None when missing or "". */
  datatype StepUp = StepUp(enabled: bool, mode: string, every: string, value: Option<int>, from: Option<Date>)

  /** A recurring item as stored. `kind` is the stored `type` ("EMI", "SIP",
      "Fixed"), `title` its `label`; `amount` is `Number(amount)` (None is NaN); a date field is None
      when it is missing or "". */
  datatype RecurringItem = RecurringItem(
    id: string, kind: string, title: string, amount: Option<int>, recurrence: string,
    startDate: Option<Date>, endDate: Option<Date>, stepUp: Option<StepUp>)

  /** Every date the item carries is a real calendar date, as a parsed `Date` is. */
  predicate DatesValid(it: RecurringItem) {
    && (it.startDate.Some? ==> ValidDate(it.startDate.value))
    && (it.endDate.Some? ==> ValidDate(it.endDate.value))
    && (it.stepUp.Some? && it.stepUp.value.from.Some? ==> ValidDate(it.stepUp.value.from.value))
  }

  /** `PERIOD_MONTHS[recurrence]`: the cadence in months, None for a rule
      without one (including "one-time"). */
  function PeriodMonths(recurrence: string): (p: Option<int>)
    ensures p.Some? <==> recurrence in {"monthly", "quarterly", "half-yearly", "yearly"}
    ensures p.Some? ==> p.value in {1, 3, 6, 12}
  {
    match recurrence
    case "monthly" => Some(1)
    case "quarterly" => Some(3)
    case "half-yearly" => Some(6)
    case "yearly" => Some(12)
    case _ => None
  }

  /** The month a date lies in, counted in months from January of year 0. */
  function Index(d: Date): int {
    12 * d.year + d.month - 1
  }

  /** `new Date(y, m, 1)`: the first day of month `m` (0-based, rolled over
      into neighbouring years when outside 0..11). */
  function MonthStart(y: int, m: int): (d: Date)
    ensures ValidDate(d) && d.day == 1 && Index(d) == 12 * y + m
  {
    var n := 12 * y + m;
    Date(n / 12, n % 12 + 1, 1)
  }

  /** `new Date(y, m + 1, 0)`: the last day of month `m`. */
  function MonthEnd(y: int, m: int): (d: Date)
    ensures ValidDate(d) && Index(d) == 12 * y + m
    ensures d.day == DaysInMonth(d.year, d.month)
  {
    var n := 12 * y + m;
    Date(n / 12, n % 12 + 1, DaysInMonth(n / 12, n % 12 + 1))
  }

  /** `monthsBetween(a, b)`: whole months from `a` to `b`, days ignored. */
  function MonthsBetween(a: Date, b: Date): (r: int)
    ensures r == Index(b) - Index(a)
  {
    (b.year - a.year) * 12 + (b.month - a.month)
  }

  lemma MonthsBetweenAntisymmetric(a: Date, b: Date)
    ensures MonthsBetween(a, b) == -MonthsBetween(b, a)
  {}

  /** `inRangeMonth(item, y, m)`: the month does not end before the start date
      and does not begin after the end date. */
  predicate InRangeMonth(it: RecurringItem, y: int, m: int) {
    && it.startDate.Some?
    && !DateLt(MonthEnd(y, m), it.startDate.value)
    && !(it.endDate.Some? && DateLt(it.endDate.value, MonthStart(y, m)))
  }

  /** Within one month index, chronological order of valid dates is order of their days. */
  lemma IndexOrder(a: Date, b: Date)
    requires 1 <= a.month <= 12 && 1 <= b.month <= 12
    ensures Index(a) < Index(b) ==> DateLt(a, b)
    ensures Index(a) == Index(b) ==> a.year == b.year && a.month == b.month
  {}

  /** The range test only looks at months: an item is in range in month `n`
      exactly when its start month is not later and its end month not earlier. */
  lemma InRangeByIndex(it: RecurringItem, y: int, m: int)
    requires DatesValid(it)
    ensures InRangeMonth(it, y, m) <==>
      && it.startDate.Some?
      && Index(it.startDate.value) <= 12 * y + m
      && (it.endDate.Some? ==> 12 * y + m <= Index(it.endDate.value))
  {
    var first, last := MonthStart(y, m), MonthEnd(y, m);
    if it.startDate.Some? {
      IndexOrder(last, it.startDate.value);
      IndexOrder(it.startDate.value, last);
    }
    if it.endDate.Some? {
      IndexOrder(it.endDate.value, first);
      IndexOrder(first, it.endDate.value);
    }
  }

  /** `diff % PERIOD_MONTHS[recurrence] === 0`, spelled out per cadence. */
  predicate OnCadence(diff: int, recurrence: string) {
    match recurrence
    case "monthly" => diff % 1 == 0
    case "quarterly" => diff % 3 == 0
    case "half-yearly" => diff % 6 == 0
    case "yearly" => diff % 12 == 0
    case _ => false
  }

  /** `occursInMonth(item, y, m)`: a one-time item occurs in the month of its
      start date; a periodic one whenever a whole number of periods has passed
      since its start month. */
  predicate OccursInMonth(it: RecurringItem, y: int, m: int) {
    && it.startDate.Some?
    && if it.recurrence == "one-time" then
         it.startDate.value.year == y && it.startDate.value.month - 1 == m
       else
         var diff := MonthsBetween(it.startDate.value, MonthStart(y, m));
         PeriodMonths(it.recurrence).Some? && diff >= 0 && OnCadence(diff, it.recurrence)
  }

  lemma OccursPeriodic(it: RecurringItem, y: int, m: int, p: int)
    requires it.startDate.Some? && PeriodMonths(it.recurrence) == Some(p)
    ensures OccursInMonth(it, y, m) <==>
      var diff := 12 * y + m - Index(it.startDate.value);
      diff >= 0 && diff % p == 0
  {}

  lemma OccursUnknownNever(it: RecurringItem, y: int, m: int)
    requires it.startDate.None? || (it.recurrence != "one-time" && PeriodMonths(it.recurrence).None?)
    ensures !OccursInMonth(it, y, m)
  {}

  /** `stepUpK(item, y, m)`: completed step-up cycles by month `m`. */
  function StepUpK(it: RecurringItem, y: int, m: int): (k: int)
    ensures k >= 0
    ensures k > 0 ==> it.startDate.Some? && it.stepUp.Some? && it.stepUp.value.enabled
  {
    if it.startDate.None? then 0
    else if it.stepUp.None? || !it.stepUp.value.enabled then 0
    else
      var step := it.stepUp.value;
      var from := if step.from.Some? then step.from.value else it.startDate.value;
      var every := if step.every == "12m" then 12 else 6;
      var diff := MonthsBetween(from, MonthStart(y, m));
      if diff < 0 then 0 else diff / every
  }

  /** Where step-up cycles are counted from: the rule's own date, else the start date. */
  function StepFrom(it: RecurringItem): Date
    requires it.startDate.Some? && it.stepUp.Some?
  {
    if it.stepUp.value.from.Some? then it.stepUp.value.from.value else it.startDate.value
  }

  function StepEvery(step: StepUp): int {
    if step.every == "12m" then 12 else 6
  }

  /** With step-up on, `k` cycles of `every` months have fully elapsed and the
      next one has not. */
  lemma StepUpKCycles(it: RecurringItem, y: int, m: int)
    requires it.startDate.Some? && it.stepUp.Some? && it.stepUp.value.enabled
    requires Index(StepFrom(it)) <= 12 * y + m
    ensures var k, e, d := StepUpK(it, y, m), StepEvery(it.stepUp.value), 12 * y + m - Index(StepFrom(it));
      k * e <= d < (k + 1) * e
  {}

  /** Step-up cycles never go down as the months advance. */
  lemma StepUpKMonotone(it: RecurringItem, y: int, m: int, y': int, m': int)
    requires 12 * y + m <= 12 * y' + m'
    ensures StepUpK(it, y, m) <= StepUpK(it, y', m')
  {
    if it.startDate.Some? && it.stepUp.Some? && it.stepUp.value.enabled {
      var e := StepEvery(it.stepUp.value);
      var d := 12 * y + m - Index(StepFrom(it));
      var d' := 12 * y' + m' - Index(StepFrom(it));
      if d >= 0 { DivMonotone(d, d', e); }
    }
  }

  lemma DivMonotone(a: int, b: int, e: int)
    requires 0 <= a <= b && (e == 6 || e == 12)
    ensures a / e <= b / e
  {
    if e == 6 { assert a / 6 <= b / 6; } else { assert a / 12 <= b / 12; }
  }

  function Pow(b: int, e: nat): int {
    if e == 0 then 1 else b * Pow(b, e - 1)
  }

  lemma {:induction false} PowPositive(b: int, e: nat)
    requires b > 0
    ensures Pow(b, e) > 0
  {
    if e > 0 { PowPositive(b, e - 1); }
  }

  lemma {:induction false} PowMonotone(a: int, b: int, e: nat)
    requires 0 < a <= b
    ensures Pow(a, e) <= Pow(b, e)
  {
    if e > 0 {
      PowMonotone(a, b, e - 1);
      PowPositive(a, e - 1);
      assert a * Pow(a, e - 1) <= b * Pow(a, e - 1) <= b * Pow(b, e - 1);
    }
  }

  /** `Math.round(num / den)`: the nearest integer, halves rounded up. */
  function RoundHalfUp(num: int, den: int): (r: int)
    requires den > 0
    ensures 2 * r * den - den <= 2 * num < 2 * r * den + den
  {
    (2 * num + den) / (2 * den)
  }

  /** `applyStepUp(base, step, k)`: "amount" adds `value` per cycle, "percent"
      compounds `value`% per cycle (exact arithmetic, rounded half up). */
  function ApplyStepUp(base: int, step: Option<StepUp>, k: int): (r: int)
    ensures (step.None? || !step.value.enabled || k <= 0) ==> r == base
    ensures step.Some? && step.value.enabled && k > 0 && step.value.mode !in {"amount", "percent"} ==> r == base
  {
    if step.None? || !step.value.enabled || k <= 0 then base
    else if step.value.mode == "amount" then base + k * step.value.value.GetOr(0)
    else if step.value.mode == "percent" then
      PowPositive(100, k);
      RoundHalfUp(base * Pow(100 + step.value.value.GetOr(0), k), Pow(100, k))
    else base
  }

  /** In "amount" mode every further cycle, the first included, adds exactly `value`. */
  lemma AmountModeStep(base: int, step: StepUp, k: int)
    requires step.enabled && step.mode == "amount" && k >= 0
    ensures ApplyStepUp(base, Some(step), k + 1) == ApplyStepUp(base, Some(step), k) + step.value.GetOr(0)
  {}

  /** So after `k` cycles "amount" mode has added `value` exactly `k` times. */
  lemma {:induction false} AmountModeClosedForm(base: int, step: StepUp, k: nat)
    requires step.enabled && step.mode == "amount"
    ensures ApplyStepUp(base, Some(step), k) == base + k * step.value.GetOr(0)
  {
    if k > 0 {
      AmountModeClosedForm(base, step, k - 1);
      AmountModeStep(base, step, k - 1);
    }
  }

  /** In "percent" mode the amount after `k` cycles is the base compounded
      by `(100 + value) / 100` per cycle, rounded to the nearest integer with
      halves going up: twice the exact value lies within one unit of twice
      the result. */
  lemma PercentModeRounding(base: int, step: StepUp, k: nat)
    requires step.enabled && step.mode == "percent"
    ensures var r, q, p := ApplyStepUp(base, Some(step), k), Pow(100, k), Pow(100 + step.value.GetOr(0), k);
      2 * r * q - q <= 2 * base * p < 2 * r * q + q
  {
    var r, q, p := ApplyStepUp(base, Some(step), k), Pow(100, k), Pow(100 + step.value.GetOr(0), k);
    if k == 0 {
      assert q == 1 && p == 1;
    } else {
      PowPositive(100, k);
      assert r == RoundHalfUp(base * p, q);
      assert 2 * (base * p) == 2 * base * p;
    }
  }

  /** `Math.round(x)` never decreases as `x` grows: a smaller ratio
      `n1 / d1` rounds to no more than a larger `n2 / d2`. */
  lemma RoundMonotone(n1: int, d1: int, n2: int, d2: int)
    requires d1 > 0 && d2 > 0 && n1 * d2 <= n2 * d1
    ensures RoundHalfUp(n1, d1) <= RoundHalfUp(n2, d2)
  {
    var r1 := RoundHalfUp(n1, d1);
    var a := 2 * r1 - 1;
    assert a * d1 <= 2 * n1;
    MulLe(a * d1, 2 * n1, d2);
    assert (a * d2) * d1 <= (2 * n2) * d1 by {
      assert (a * d1) * d2 == (a * d2) * d1;
      assert (2 * n1) * d2 == 2 * (n1 * d2);
      assert (2 * n2) * d1 == 2 * (n2 * d1);
    }
    MulCancel(a * d2, 2 * n2, d1);
    assert r1 * (2 * d2) <= 2 * n2 + d2;
    DivLower(r1, 2 * n2 + d2, 2 * d2);
  }

  lemma MulLe(x: int, y: int, z: int)
    requires x <= y && z >= 0
    ensures x * z <= y * z
  {
    MulNonNegative(y - x, z);
    assert (y - x) * z == y * z - x * z;
  }

  lemma MulCancel(x: int, y: int, z: int)
    requires x * z <= y * z && z > 0
    ensures x <= y
  {
    assert (x - y) * z == x * z - y * z;
    if x > y {
      MulNonNegative(x - y - 1, z);
    }
  }

  lemma DivLower(r: int, n: int, d: int)
    requires d > 0 && r * d <= n
    ensures r <= n / d
  {
    var q := n / d;
    assert n == q * d + n % d && n % d < d;
    assert (q + 1) * d == q * d + d;
    if r > q {
      MulLe(q + 1, r, d);
    }
  }

  /** With a non-negative base and percentage, one more "percent" cycle
      never lowers the amount. */
  lemma PercentModeMonotone(base: int, step: StepUp, k: nat)
    requires step.enabled && step.mode == "percent"
    requires base >= 0 && step.value.GetOr(0) >= 0
    ensures ApplyStepUp(base, Some(step), k) <= ApplyStepUp(base, Some(step), k + 1)
  {
    if k == 0 {
      PercentModeGrows(base, step, 1);
    } else {
      var v := step.value.GetOr(0);
      var q, p := Pow(100, k), Pow(100 + v, k);
      PowPositive(100, k);
      PowPositive(100, k + 1);
      PowPositive(100 + v, k);
      var x := base * p * q;
      MulNonNegative(base, p);
      MulNonNegative(base * p, q);
      MulLe(100, 100 + v, x);
      assert (base * p) * Pow(100, k + 1) == x * 100;
      assert (base * Pow(100 + v, k + 1)) * q == x * (100 + v);
      RoundMonotone(base * p, q, base * Pow(100 + v, k + 1), Pow(100, k + 1));
    }
  }

  /** With a non-negative rule, more step-up cycles never cost less, in
      every mode. */
  lemma {:induction false} ApplyStepUpMonotone(base: int, step: Option<StepUp>, k: nat, k': nat)
    requires k <= k' && base >= 0 && (step.Some? ==> step.value.value.GetOr(0) >= 0)
    ensures ApplyStepUp(base, step, k) <= ApplyStepUp(base, step, k')
    decreases k' - k
  {
    if k < k' {
      ApplyStepUpMonotone(base, step, k, k' - 1);
      if step.Some? && step.value.enabled && step.value.mode == "amount" {
        AmountModeStep(base, step.value, k' - 1);
      } else if step.Some? && step.value.enabled && step.value.mode == "percent" {
        PercentModeMonotone(base, step.value, k' - 1);
      }
    }
  }

  /** A non-negative percentage never lowers a non-negative amount. */
  lemma PercentModeGrows(base: int, step: StepUp, k: int)
    requires step.enabled && step.mode == "percent" && k >= 1
    requires base >= 0 && step.value.GetOr(0) >= 0
    ensures ApplyStepUp(base, Some(step), k) >= base
  {
    var q := Pow(100, k);
    var p := Pow(100 + step.value.GetOr(0), k);
    PowPositive(100, k);
    PowMonotone(100, 100 + step.value.GetOr(0), k);
    MulNonNegative(base, p - q);
    assert base * p >= base * q by { assert base * p - base * q == base * (p - q); }
    var r := ApplyStepUp(base, Some(step), k);
    assert r == RoundHalfUp(base * p, q);
    var x := 2 * base - 2 * r - 1;
    assert x * q < 0 by {
      assert 2 * (base * p) < 2 * r * q + q;
      assert x * q == 2 * base * q - 2 * r * q - q;
    }
    if x >= 0 { MulNonNegative(x, q); }
  }

  lemma MulNonNegative(x: int, y: int)
    requires x >= 0 && y >= 0
    ensures x * y >= 0
  {}

  /** `amountForItemInMonth(item, y, m)`: nothing outside the item's range or
      off its cadence; otherwise the base amount after step-up. */
  function AmountForItemInMonth(it: RecurringItem, y: int, m: int): (r: int)
    ensures !InRangeMonth(it, y, m) || !OccursInMonth(it, y, m) ==> r == 0
    ensures InRangeMonth(it, y, m) && OccursInMonth(it, y, m) && StepUpK(it, y, m) == 0 ==> r == it.amount.GetOr(0)
    ensures (InRangeMonth(it, y, m) && OccursInMonth(it, y, m) && it.stepUp.Some? && it.stepUp.value.enabled
      && it.stepUp.value.mode == "amount") ==>
      r == it.amount.GetOr(0) + StepUpK(it, y, m) * it.stepUp.value.value.GetOr(0)
  {
    if !InRangeMonth(it, y, m) then 0
    else if !OccursInMonth(it, y, m) then 0
    else ApplyStepUp(it.amount.GetOr(0), it.stepUp, StepUpK(it, y, m))
  }

  /** Items whose amounts and step-up values are not negative never cost a
      negative amount. */
  predicate NonNegative(it: RecurringItem) {
    it.amount.GetOr(0) >= 0 && (it.stepUp.Some? ==> it.stepUp.value.value.GetOr(0) >= 0)
  }

  lemma AmountNonNegative(it: RecurringItem, y: int, m: int)
    requires NonNegative(it)
    ensures AmountForItemInMonth(it, y, m) >= 0
  {
    var k := StepUpK(it, y, m);
    if InRangeMonth(it, y, m) && OccursInMonth(it, y, m) && k > 0 && it.stepUp.value.enabled
       && it.stepUp.value.mode == "percent" {
      PercentModeGrows(it.amount.GetOr(0), it.stepUp.value, k);
    }
  }

  /** With a non-negative rule, a due month costs no less than any earlier
      due month of the same item: step-up cycles only accumulate. */
  lemma LaterDueNotCheaper(it: RecurringItem, y: int, m: int, y': int, m': int)
    requires NonNegative(it) && 12 * y + m <= 12 * y' + m'
    requires InRangeMonth(it, y, m) && OccursInMonth(it, y, m)
    requires InRangeMonth(it, y', m') && OccursInMonth(it, y', m')
    ensures AmountForItemInMonth(it, y, m) <= AmountForItemInMonth(it, y', m')
  {
    StepUpKMonotone(it, y, m, y', m');
    ApplyStepUpMonotone(it.amount.GetOr(0), it.stepUp, StepUpK(it, y, m), StepUpK(it, y', m'));
  }

  /** The optional type filter of `amountForMonth`: an empty filter is none. */
  predicate Matches(it: RecurringItem, filter: Option<string>) {
    filter.None? || filter.value == "" || it.kind == filter.value
  }

  /** `amountForMonth(items, y, m, filter)`: the `reduce` over the items that
      pass the filter. */
  function AmountForMonth(items: seq<RecurringItem>, y: int, m: int, filter: Option<string>): int {
    if items == [] then 0
    else
      var last := items[|items| - 1];
      AmountForMonth(items[..|items| - 1], y, m, filter)
        + (if Matches(last, filter) then AmountForItemInMonth(last, y, m) else 0)
  }

  /** The items of one type, in order. */
  function OfKind(items: seq<RecurringItem>, kind: string): (r: seq<RecurringItem>)
    ensures forall i :: 0 <= i < |r| ==> r[i].kind == kind && r[i] in items
  {
    if items == [] then []
    else
      var last := items[|items| - 1];
      OfKind(items[..|items| - 1], kind) + (if last.kind == kind then [last] else [])
  }

  /** Filtering by a non-empty type sums the same as summing that type's items. */
  lemma {:induction false} FilterIsOfKind(items: seq<RecurringItem>, y: int, m: int, kind: string)
    requires kind != ""
    ensures AmountForMonth(items, y, m, Some(kind)) == AmountForMonth(OfKind(items, kind), y, m, None)
    decreases |items|
  {
    if items != [] {
      var init, last := items[..|items| - 1], items[|items| - 1];
      FilterIsOfKind(init, y, m, kind);
      var o := OfKind(init, kind);
      if last.kind == kind {
        assert (o + [last])[..|o + [last]| - 1] == o;
      } else {
        assert o + [] == o;
      }
    }
  }

  /** Two type filters together never exceed the unfiltered total when no
      item costs a negative amount (the EMI and SIP tiles against the total). */
  lemma {:induction false} TwoKindsWithinTotal(items: seq<RecurringItem>, y: int, m: int, a: string, b: string)
    requires a != "" && b != "" && a != b
    requires forall i :: 0 <= i < |items| ==> NonNegative(items[i])
    ensures AmountForMonth(items, y, m, Some(a)) + AmountForMonth(items, y, m, Some(b))
            <= AmountForMonth(items, y, m, None)
    decreases |items|
  {
    if items != [] {
      var init := items[..|items| - 1];
      TwoKindsWithinTotal(init, y, m, a, b);
      AmountNonNegative(items[|items| - 1], y, m);
    }
  }

  /** `monthlyTotals(items, y)`: the twelve month totals of a year, filled by
      adding each item's amount month by month. */
  method MonthlyTotals(items: seq<RecurringItem>, y: int) returns (totals: seq<int>)
    ensures |totals| == 12
    ensures forall m :: 0 <= m < 12 ==> totals[m] == AmountForMonth(items, y, m, None)
  {
    var t := new int[12](_ => 0);
    for i := 0 to |items|
      invariant forall m :: 0 <= m < 12 ==> t[m] == AmountForMonth(items[..i], y, m, None)
    {
      AddToMonths(t, items[i], y, items[..i]);
      PrefixSnoc(items, i);
    }
    assert items[..|items|] == items;
    totals := t[..];
  }

  lemma AmountForMonthSnoc(items: seq<RecurringItem>, it: RecurringItem, y: int, m: int)
    ensures AmountForMonth(items + [it], y, m, None) == AmountForMonth(items, y, m, None) + AmountForItemInMonth(it, y, m)
  {
    assert (items + [it])[..|items|] == items;
  }

  /** The inner loop: one item's amount added into each month's slot. */
  method AddToMonths(t: array<int>, it: RecurringItem, y: int, ghost before: seq<RecurringItem>)
    requires t.Length == 12
    requires forall m :: 0 <= m < 12 ==> t[m] == AmountForMonth(before, y, m, None)
    modifies t
    ensures forall m :: 0 <= m < 12 ==> t[m] == AmountForMonth(before + [it], y, m, None)
  {
    for m := 0 to 12
      invariant forall j :: 0 <= j < 12 ==> t[j] == AmountForMonth(before, y, j, None) + (if j < m then AmountForItemInMonth(it, y, j) else 0)
    {
      t[m] := t[m] + AmountForItemInMonth(it, y, m);
    }
    forall m | 0 <= m < 12 ensures t[m] == AmountForMonth(before + [it], y, m, None) {
      AmountForMonthSnoc(before, it, y, m);
    }
  }

  lemma OfKindPrefix(items: seq<RecurringItem>, i: int, kind: string)
    requires 0 <= i < |items|
    ensures OfKind(items[..i + 1], kind) == OfKind(items[..i], kind) + (if items[i].kind == kind then [items[i]] else [])
  {
    PrefixSnoc(items, i);
  }

  /** `monthlyTotalsByType(items, y, type)`: the same, skipping items of other types. */
  method MonthlyTotalsByType(items: seq<RecurringItem>, y: int, kind: string) returns (totals: seq<int>)
    ensures |totals| == 12
    ensures forall m :: 0 <= m < 12 ==> totals[m] == AmountForMonth(OfKind(items, kind), y, m, None)
  {
    var t := new int[12](_ => 0);
    for i := 0 to |items|
      invariant forall m :: 0 <= m < 12 ==> t[m] == AmountForMonth(OfKind(items[..i], kind), y, m, None)
    {
      OfKindPrefix(items, i, kind);
      if items[i].kind == kind {
        AddToMonths(t, items[i], y, OfKind(items[..i], kind));
      } else {
        ConcatEmpty(OfKind(items[..i], kind));
      }
    }
    assert items[..|items|] == items;
    totals := t[..];
  }

  /** `new Date(y, m, day)` for a 0-based month and a day of 1..31: a day past
      the month's end rolls over into the next month. */
  function MakeDate(y: int, m: int, day: int): (d: Date)
    requires 0 <= m < 12 && 1 <= day <= 31
    ensures ValidDate(d)
    ensures day <= DaysInMonth(y, m + 1) ==> d == Date(y, m + 1, day)
    ensures day > DaysInMonth(y, m + 1) ==> Index(d) == 12 * y + m + 1 && d.day == day - DaysInMonth(y, m + 1)
  {
    if day <= DaysInMonth(y, m + 1) then Date(y, m + 1, day)
    else
      var n := 12 * y + m + 1;
      Date(n / 12, n % 12 + 1, day - DaysInMonth(y, m + 1))
  }

  /** The item is due in month index `n`: it occurs there and is in range. */
  predicate DueIn(it: RecurringItem, n: int) {
    OccursInMonth(it, n / 12, n % 12) && InRangeMonth(it, n / 12, n % 12)
  }

  /** Due `i` months after the month of `from`. */
  predicate DueAfter(it: RecurringItem, from: Date, i: int) {
    DueIn(it, Index(from) + i)
  }

  /** Month `m` of year `y` is month index `12 * y + m`. */
  lemma DueInMonth(it: RecurringItem, y: int, m: int)
    requires 0 <= m < 12
    ensures DueIn(it, 12 * y + m) <==> OccursInMonth(it, y, m) && InRangeMonth(it, y, m)
  {
    assert (12 * y + m) / 12 == y && (12 * y + m) % 12 == m;
  }

  /** Once a month starts after the end date, no later month is in range. */
  lemma PastEndStaysPast(it: RecurringItem, y: int, m: int, i: int, j: int)
    requires it.endDate.Some? && 0 <= m < 12 && i <= j
    requires DateLt(it.endDate.value, MonthStart(y, m))
    ensures !DueIn(it, 12 * y + m + j - i)
  {
    var n' := 12 * y + m + j - i;
    var a, b := MonthStart(y, m), MonthStart(n' / 12, n' % 12);
    IndexOrder(a, b);
    assert DateLe(a, b);
  }

  /** The least `k` with `i <= k < bound` and `p(k)`, if any. */
  function FirstFrom(p: nat -> bool, i: nat, bound: nat): Option<nat>
    decreases bound - i
  {
    if i >= bound then None
    else if p(i) then Some(i)
    else FirstFrom(p, i + 1, bound)
  }

  lemma {:induction false} FirstFromSpec(p: nat -> bool, i: nat, bound: nat)
    ensures FirstFrom(p, i, bound).None? <==> forall j :: i <= j < bound ==> !p(j)
    ensures FirstFrom(p, i, bound).Some? ==>
      var k := FirstFrom(p, i, bound).value;
      i <= k < bound && p(k) && forall j :: i <= j < k ==> !p(j)
    decreases bound - i
  {
    if i < bound && !p(i) {
      FirstFromSpec(p, i + 1, bound);
    }
  }

  /** The first of the months `i`, `i + 1`, ..., 59 after `from`'s month in
      which the item is due. */
  ghost function FirstDue(it: RecurringItem, from: Date, i: nat): Option<nat> {
    FirstFrom((j: nat) => DueAfter(it, from, j), i, 60)
  }

  /** `FirstDue` finds a due month exactly when there is one, and the earliest. */
  lemma FirstDueSpec(it: RecurringItem, from: Date, i: nat)
    ensures FirstDue(it, from, i).None? <==> forall j :: i <= j < 60 ==> !DueAfter(it, from, j)
    ensures FirstDue(it, from, i).Some? ==>
      var k := FirstDue(it, from, i).value;
      i <= k < 60 && DueAfter(it, from, k) && forall j :: i <= j < k ==> !DueAfter(it, from, j)
  {
    var due := (j: nat) => DueAfter(it, from, j);
    FirstFromSpec(due, i, 60);
    var r := FirstFrom(due, i, 60);
    if r.None? {
      forall j | i <= j < 60 ensures !DueAfter(it, from, j) {
        assert !due(j);
      }
    } else {
      var k := r.value;
      assert due(k);
      forall j | i <= j < k ensures !DueAfter(it, from, j) {
        assert !due(j);
      }
    }
  }

  /** Past the end date the search cannot find anything any more. */
  lemma PastEndNoneDue(it: RecurringItem, from: Date, y: int, m: int, i: nat)
    requires it.endDate.Some? && 0 <= m < 12 && 12 * y + m == Index(from) + i
    requires DateLt(it.endDate.value, MonthStart(y, m))
    ensures FirstDue(it, from, i).None?
  {
    forall j | i <= j < 60 ensures !DueAfter(it, from, j) {
      PastEndStaysPast(it, y, m, i, j);
    }
    FirstDueSpec(it, from, i);
  }

  /** The date `nextDueDate` reports for the `i`-th month after `from`'s month. */
  function DueDate(from: Date, i: int, day: int): Date
    requires 1 <= day <= 31
  {
    var n := Index(from) + i;
    MakeDate(n / 12, n % 12, day)
  }

  /** `nextDueDate(item, fromDate)`. A one-time item is due on its start date
      unless that lies before the month of `fromDate`; a periodic item is due in
      the first of the next 60 months (from `fromDate`'s month) in which it
      occurs and is in range, on its start date's day of the month. */
  method NextDueDate(it: RecurringItem, from: Date) returns (r: Option<Date>)
    requires DatesValid(it) && ValidDate(from)
    ensures it.startDate.None? ==> r.None?
    ensures it.startDate.Some? && it.recurrence == "one-time" ==>
      r == (if DateLe(Date(from.year, from.month, 1), it.startDate.value) then it.startDate else None)
    ensures it.recurrence != "one-time" && PeriodMonths(it.recurrence).None? ==> r.None?
    ensures it.startDate.Some? && PeriodMonths(it.recurrence).Some? ==>
      r == match FirstDue(it, from, 0)
           case None => None
           case Some(i) => Some(DueDate(from, i, it.startDate.value.day))
  {
    if it.startDate.None? { return None; }
    var start := it.startDate.value;
    var y0, m0 := from.year, from.month - 1;
    if it.recurrence == "one-time" {
      return if DateLe(MonthStart(y0, m0), start) then Some(start) else None;
    }
    if PeriodMonths(it.recurrence).None? { return None; }
    r := ScanMonths(it, from);
  }

  /** Month `m` of year `y`, `i` months after `from`'s month. */
  lemma DueAfterAt(it: RecurringItem, from: Date, i: nat, y: int, m: int)
    requires 0 <= m < 12 && 12 * y + m == Index(from) + i
    ensures DueAfter(it, from, i) <==> OccursInMonth(it, y, m) && InRangeMonth(it, y, m)
    ensures it.startDate.Some? && 1 <= it.startDate.value.day <= 31 ==>
      DueDate(from, i, it.startDate.value.day) == MakeDate(y, m, it.startDate.value.day)
  {
    DueInMonth(it, y, m);
  }

  /** The month-by-month search of `nextDueDate` for a periodic item: at most
      60 months, stopping early once a month starts after the end date. */
  method ScanMonths(it: RecurringItem, from: Date) returns (r: Option<Date>)
    requires DatesValid(it) && ValidDate(from) && it.startDate.Some?
    ensures r == match FirstDue(it, from, 0)
           case None => None
           case Some(i) => Some(DueDate(from, i, it.startDate.value.day))
  {
    var start := it.startDate.value;
    var y, m := from.year, from.month - 1;
    var i := 0;
    while i < 60
      invariant 0 <= i <= 60 && 0 <= m < 12 && 12 * y + m == Index(from) + i
      invariant FirstDue(it, from, 0) == FirstDue(it, from, i)
    {
      DueAfterAt(it, from, i, y, m);
      if OccursInMonth(it, y, m) && InRangeMonth(it, y, m) {
        return Some(MakeDate(y, m, start.day));
      }
      m := m + 1;
      if m > 11 { m := 0; y := y + 1; }
      i := i + 1;
      if it.endDate.Some? && DateLt(it.endDate.value, MonthStart(y, m)) {
        PastEndNoneDue(it, from, y, m, i);
        return None;
      }
    }
    return None;
  }
}
