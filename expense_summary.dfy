/** The range summary: the pretty category labels, the date-range controls
    with their validation and clamping, the date order of fetched groups,
    and the per-label totals behind the chart. */
module ExpenseSummary {
  import opened Wrappers
  import opened Seqs
  import opened Text
  import opened OrderedMap
  import opened DateText
  import opened Expenses

  // ---- labels ----

  /** `toPrettyLabel(raw)`: the trimmed category, kept as is for "Credit
      Card" and "EMIs", mapped by case-insensitive keyword otherwise, and
      "Other" for "other", "Other" or nothing. */
  function PrettyLabel(raw: Option<string>): string {
    LabelOfTrimmed(Trim(raw.GetOr("")))
  }

  /** The mapping applied to the already trimmed text `s`. */
  function LabelOfTrimmed(s: string): string {
    if s == "Credit Card" then "Credit Card"
    else if s == "EMIs" then "EMIs"
    else match KeywordLabel(ToLower(s))
      case Some(l) => l
      case None => if s == "other" || s == "Other" || s == [] then "Other" else s
  }

  /** The case-insensitive keyword tests, in order, on the lowered text. */
  function KeywordLabel(l: string): Option<string> {
    if Contains(l, "mutual") then Some("Mutual Fund")
    else if Contains(l, "stock") then Some("Stocks")
    else if Contains(l, "shop") then Some("Shopping")
    else if Contains(l, "groc") then Some("Grocery")
    else if Contains(l, "rent") || Contains(l, "bill") then Some("Rent/Bills")
    else None
  }

  /** The labels the mapping itself produces. */
  predicate FixedLabel(l: string) {
    l in ["Credit Card", "EMIs", "Mutual Fund", "Stocks", "Shopping", "Grocery", "Rent/Bills", "Other"]
  }

  /** A label is never empty; it is a fixed label or the trimmed raw text. */
  lemma PrettyLabelSpec(raw: Option<string>)
    ensures PrettyLabel(raw) != []
    ensures FixedLabel(PrettyLabel(raw)) || PrettyLabel(raw) == Trim(raw.GetOr(""))
  {
    LabelOfTrimmedSpec(Trim(raw.GetOr("")));
  }

  lemma LabelOfTrimmedSpec(s: string)
    ensures LabelOfTrimmed(s) != []
    ensures FixedLabel(LabelOfTrimmed(s)) || LabelOfTrimmed(s) == s
  {}

  /** Blank or missing text is labelled "Other". */
  lemma BlankIsOther(raw: Option<string>)
    requires AllSpace(raw.GetOr(""))
    ensures PrettyLabel(raw) == "Other"
  {
    TrimEmptyIff(raw.GetOr(""));
    BlankTrimmedIsOther(Trim(raw.GetOr("")));
  }

  lemma BlankTrimmedIsOther(s: string)
    requires s == []
    ensures LabelOfTrimmed(s) == "Other"
  {
    assert !Contains(ToLower(s), "mutual") && !Contains(ToLower(s), "stock") && !Contains(ToLower(s), "shop");
    assert !Contains(ToLower(s), "groc") && !Contains(ToLower(s), "rent") && !Contains(ToLower(s), "bill");
  }

  /** White space around the raw text does not change its label. */
  lemma PrettyLabelIgnoresPadding(raw: string)
    ensures PrettyLabel(Some(Trim(raw))) == PrettyLabel(Some(raw))
  {
    TrimIdempotent(raw);
  }

  lemma LowerOf(s: string, l: string)
    requires |s| == |l| && forall i :: 0 <= i < |s| ==> LowerChar(s[i]) == l[i]
    ensures ToLower(s) == l
  {}

  lemma Found(s: string, pat: string, i: int)
    requires OccursAt(s, pat, i)
    ensures Contains(s, pat)
  {
    ContainsSpec(s, pat);
  }

  lemma MutualFundKeyword(s: string)
    requires s == "mutual fund"
    ensures KeywordLabel(s) == Some("Mutual Fund")
  {
    Found(s, "mutual", 0);
  }

  lemma MutualFundTrimmedStable(l: string)
    requires l == "Mutual Fund"
    ensures LabelOfTrimmed(l) == l
  {
    MutualFundLowered();
    MutualFundKeyword("mutual fund");
    assert l[0] != "Credit Card"[0];
    KeywordDecides(l, "mutual fund", "Mutual Fund");
  }

  /** Text other than the two kept labels takes the label its keyword gives. */
  lemma KeywordDecides(s: string, lowered: string, pretty: string)
    requires s != "Credit Card" && s != "EMIs"
    requires ToLower(s) == lowered && KeywordLabel(lowered) == Some(pretty)
    ensures LabelOfTrimmed(s) == pretty
  {}

  lemma MutualFundLowered()
    ensures ToLower("Mutual Fund") == "mutual fund"
  {
    LowerOf("Mutual Fund", "mutual fund");
  }


  lemma StocksKeyword(s: string)
    requires s == "stocks"
    ensures KeywordLabel(s) == Some("Stocks")
  {
    MissingCharNotContained(s, "mutual", 'm');
    Found(s, "stock", 0);
  }

  lemma StocksTrimmedStable(l: string)
    requires l == "Stocks"
    ensures LabelOfTrimmed(l) == l
  {
    LowerOf(l, "stocks");
    StocksKeyword(ToLower(l));
  }


  lemma ShoppingKeyword(s: string)
    requires s == "shopping"
    ensures KeywordLabel(s) == Some("Shopping")
  {
    MissingCharNotContained(s, "mutual", 'm');
    MissingCharNotContained(s, "stock", 'k');
    Found(s, "shop", 0);
  }

  lemma ShoppingTrimmedStable(l: string)
    requires l == "Shopping"
    ensures LabelOfTrimmed(l) == l
  {
    LowerOf(l, "shopping");
    ShoppingKeyword(ToLower(l));
  }


  lemma GroceryKeyword(s: string)
    requires s == "grocery"
    ensures KeywordLabel(s) == Some("Grocery")
  {
    MissingCharNotContained(s, "mutual", 'm');
    MissingCharNotContained(s, "stock", 'k');
    MissingCharNotContained(s, "shop", 'h');
    Found(s, "groc", 0);
  }

  lemma GroceryTrimmedStable(l: string)
    requires l == "Grocery"
    ensures LabelOfTrimmed(l) == l
  {
    LowerOf(l, "grocery");
    GroceryKeyword(ToLower(l));
  }


  lemma RentBillsKeyword(s: string)
    requires s == "rent/bills"
    ensures KeywordLabel(s) == Some("Rent/Bills")
  {
    RentBillsMissesEarlier(s);
    Found(s, "rent", 0);
  }

  lemma RentBillsMissesEarlier(s: string)
    requires s == "rent/bills"
    ensures !Contains(s, "mutual") && !Contains(s, "stock") && !Contains(s, "shop") && !Contains(s, "groc")
  {
    MissingCharNotContained(s, "mutual", 'm');
    MissingCharNotContained(s, "stock", 'k');
    MissingCharNotContained(s, "shop", 'h');
    MissingCharNotContained(s, "groc", 'g');
  }

  lemma RentBillsTrimmedStable(l: string)
    requires l == "Rent/Bills"
    ensures LabelOfTrimmed(l) == l
  {
    LowerOf(l, "rent/bills");
    RentBillsKeyword(ToLower(l));
  }


  lemma OtherKeyword(s: string)
    requires s == "other"
    ensures KeywordLabel(s) == None
  {
    MissingCharNotContained(s, "mutual", 'm');
    MissingCharNotContained(s, "stock", 'k');
    MissingCharNotContained(s, "shop", 's');
    MissingCharNotContained(s, "groc", 'g');
    MissingCharNotContained(s, "rent", 'n');
    MissingCharNotContained(s, "bill", 'b');
  }

  lemma OtherTrimmedStable(l: string)
    requires l == "Other"
    ensures LabelOfTrimmed(l) == l
  {
    LowerOf(l, "other");
    OtherKeyword(ToLower(l));
  }


  /** Text with nothing to trim is labelled as it stands. */
  lemma PrettyOfTrimmed(l: string)
    requires Trim(l) == l
    ensures PrettyLabel(Some(l)) == LabelOfTrimmed(l)
  {}

  lemma FixedLabelTrimmed(l: string)
    requires FixedLabel(l)
    ensures LabelOfTrimmed(l) == l
  {
    if l == "Mutual Fund" { MutualFundTrimmedStable(l); }
    else if l == "Stocks" { StocksTrimmedStable(l); }
    else if l == "Shopping" { ShoppingTrimmedStable(l); }
    else if l == "Grocery" { GroceryTrimmedStable(l); }
    else if l == "Rent/Bills" { RentBillsTrimmedStable(l); }
    else if l == "Other" { OtherTrimmedStable(l); }
  }

  lemma FixedLabelUnpadded(l: string)
    requires FixedLabel(l)
    ensures Trim(l) == l
  {
    assert l != [] && !IsSpace(l[0]) && !IsSpace(l[|l| - 1]);
    TrimTrimmed(l);
  }

  /** Each fixed label is its own label. */
  lemma FixedLabelStable(l: string)
    requires FixedLabel(l)
    ensures PrettyLabel(Some(l)) == l
  {
    FixedLabelTrimmed(l);
    FixedLabelUnpadded(l);
    PrettyOfTrimmed(l);
  }

  /** Labelling a label again changes nothing. */
  lemma PrettyLabelIdempotent(raw: Option<string>)
    ensures PrettyLabel(Some(PrettyLabel(raw))) == PrettyLabel(raw)
  {
    var l := PrettyLabel(raw);
    PrettyLabelSpec(raw);
    if FixedLabel(l) {
      FixedLabelStable(l);
    } else {
      var r0 := raw.GetOr("");
      assert l == Trim(r0);
      assert PrettyLabel(raw) == PrettyLabel(Some(r0));
      PrettyLabelIgnoresPadding(r0);
    }
  }

  // ---- dates ----

  /** `toYMD(date)`: `YYYY-MM-DD` with the month and day padded to two digits. */
  function DateString(d: Date): string {
    ToYMD(d.year, d.month, d.day)
  }

  /** Reading a formatted date back gives the date. */
  lemma DateStringParses(d: Date)
    requires d.year >= 0 && 1 <= d.month <= 12 && 1 <= d.day <= 31
    ensures ParseYMD(DateString(d)) == YMD(Some(d.year), Some(d.month), Some(d.day))
  {
    ParseToYMD(d.year, d.month, d.day);
  }

  /** `new Date(Math.max(min, Math.min(x, max)))`. */
  function Clamp(x: Date, lo: Date, hi: Date): Date {
    var y := if DateLe(x, hi) then x else hi;
    if DateLe(lo, y) then y else lo
  }

  /** With ordered bounds the clamped date lies between them, and a date
      already between them is kept. */
  lemma ClampBounds(x: Date, lo: Date, hi: Date)
    requires DateLe(lo, hi)
    ensures DateLe(lo, Clamp(x, lo, hi)) && DateLe(Clamp(x, lo, hi), hi)
    ensures DateLe(lo, x) && DateLe(x, hi) ==> Clamp(x, lo, hi) == x
  {}

  /** Clamping keeps the order of two dates, so a valid range stays valid. */
  lemma ClampMonotone(a: Date, b: Date, lo: Date, hi: Date)
    requires DateLe(a, b)
    ensures DateLe(Clamp(a, lo, hi), Clamp(b, lo, hi))
  {}

  /** The date text a group is sorted by. */
  function GroupDate(g: DayGroup): string {
    g.date
  }

  /** `[...data].sort(...)`: the fetched groups in ascending date order. */
  function SortedByDate(data: seq<DayGroup>): seq<DayGroup> {
    SortBy(data, ByDate(GroupDate))
  }

  /** The stored groups are the fetched ones, rearranged into date order. */
  lemma SortedByDateSpec(data: seq<DayGroup>)
    ensures multiset(SortedByDate(data)) == multiset(data)
    ensures forall i, j :: 0 <= i < j < |data| ==> LexLe(SortedByDate(data)[i].date, SortedByDate(data)[j].date)
  {
    SortByDateOrdered(data, GroupDate);
    var r := SortedByDate(data);
    forall i, j | 0 <= i < j < |data| ensures LexLe(r[i].date, r[j].date) {
      assert r == SortBy(data, ByDate(GroupDate)) && |r| == |data|;
      assert LexLe(GroupDate(r[i]), GroupDate(r[j]));
    }
  }

  // ---- the range controls ----

  const StartAfterEnd := "Start date cannot be later than end date."
  const EndBeforeStart := "End date cannot be earlier than start date."
  const InvalidRange := "Invalid date range: Start must be earlier than End."
  const NotLoggedIn := "You must be logged in to fetch summary data."
  const FetchFailed := "Failed to fetch range summary"

  /** A `Date` the range inputs hold: `parseInputDate` of a cleared input
      is an Invalid Date, None here. */
  type InputDate = Option<Date>

  /** `a > b` on `Date`s: false whenever either is an Invalid Date. */
  predicate Later(a: InputDate, b: InputDate) {
    a.Some? && b.Some? && DateLt(b.value, a.value)
  }

  /** The clamp of `handleApply`: `Math.min` and `Math.max` of NaN are NaN,
      so an Invalid Date stays invalid. */
  function ClampInput(x: InputDate, lo: Date, hi: Date): (r: InputDate)
    ensures r.None? <==> x.None?
    ensures DateLe(lo, hi) && r.Some? ==> DateLe(lo, r.value) && DateLe(r.value, hi)
  {
    if x.None? then None else Some(Clamp(x.value, lo, hi))
  }

  /** `toYMD(date)`: each part of an Invalid Date prints as "NaN". */
  function InputString(d: InputDate): (s: string)
    ensures d.None? ==> s == "NaN-NaN-NaN"
    ensures d.Some? ==> s == DateString(d.value)
  {
    if d.None? then "NaN-NaN-NaN" else DateString(d.value)
  }

  /** The component's range state: the dates being edited, the dates last
      applied, the error line and the groups on show. */
  class RangeControls {
    var pendingStart: InputDate
    var pendingEnd: InputDate
    var appliedStart: InputDate
    var appliedEnd: InputDate
    var error: string
    var rangeGroups: seq<DayGroup>

    /** The initial state: the year to date, nothing fetched yet. */
    constructor(today: Date)
      ensures pendingStart == appliedStart == Some(Date(today.year, 1, 1))
      ensures pendingEnd == appliedEnd == Some(today)
      ensures error == [] && rangeGroups == []
    {
      pendingStart, pendingEnd := Some(Date(today.year, 1, 1)), Some(today);
      appliedStart, appliedEnd := Some(Date(today.year, 1, 1)), Some(today);
      error, rangeGroups := [], [];
    }

    /** `onPendingStartChange`: a start after the pending end is flagged at
        once; a cleared input (or a cleared end) compares false and clears
        the error. */
    method OnPendingStartChange(next: InputDate)
      modifies this
      ensures pendingStart == next
      ensures error == if Later(next, pendingEnd) then StartAfterEnd else []
      ensures pendingEnd == old(pendingEnd) && appliedStart == old(appliedStart) && appliedEnd == old(appliedEnd)
      ensures rangeGroups == old(rangeGroups)
    {
      pendingStart := next;
      error := if Later(next, pendingEnd) then StartAfterEnd else [];
    }

    /** `onPendingEndChange`: an end before the pending start is flagged at
        once, with the same reading of Invalid Dates. */
    method OnPendingEndChange(next: InputDate)
      modifies this
      ensures pendingEnd == next
      ensures error == if Later(pendingStart, next) then EndBeforeStart else []
      ensures pendingStart == old(pendingStart) && appliedStart == old(appliedStart) && appliedEnd == old(appliedEnd)
      ensures rangeGroups == old(rangeGroups)
    {
      pendingEnd := next;
      error := if Later(pendingStart, next) then EndBeforeStart else [];
    }

    /** `handleApply` up to the request: a start after the end is refused
        with an error and nothing applied; otherwise both dates are clamped
        into [minDate, maxDate] and applied (an Invalid Date stays invalid),
        and with a token the range to fetch is returned as two date
        strings, "NaN-NaN-NaN" for an Invalid Date. */
    method Apply(minDate: Date, maxDate: Date, hasToken: bool) returns (request: Option<(string, string)>)
      modifies this
      ensures pendingStart == old(pendingStart) && pendingEnd == old(pendingEnd)
      ensures rangeGroups == old(rangeGroups)
      ensures Later(pendingStart, pendingEnd) ==>
        error == InvalidRange && request.None?
        && appliedStart == old(appliedStart) && appliedEnd == old(appliedEnd)
      ensures !Later(pendingStart, pendingEnd) ==>
        && appliedStart == ClampInput(pendingStart, minDate, maxDate)
        && appliedEnd == ClampInput(pendingEnd, minDate, maxDate)
        && (appliedStart.Some? && appliedEnd.Some? ==> DateLe(appliedStart.value, appliedEnd.value))
        && error == (if hasToken then [] else NotLoggedIn)
        && request == (if hasToken then Some((InputString(appliedStart), InputString(appliedEnd))) else None)
    {
      if Later(pendingStart, pendingEnd) {
        error := InvalidRange;
        return None;
      }
      var start := ClampInput(pendingStart, minDate, maxDate);
      var end := ClampInput(pendingEnd, minDate, maxDate);
      if pendingStart.Some? && pendingEnd.Some? {
        ClampMonotone(pendingStart.value, pendingEnd.value, minDate, maxDate);
      }
      appliedStart, appliedEnd := start, end;
      error := [];
      if !hasToken {
        error := NotLoggedIn;
        return None;
      }
      request := Some((InputString(start), InputString(end)));
    }

    /** A successful fetch: the groups are stored in date order. */
    method Receive(data: seq<DayGroup>)
      modifies this
      ensures rangeGroups == SortedByDate(data)
      ensures pendingStart == old(pendingStart) && pendingEnd == old(pendingEnd)
      ensures appliedStart == old(appliedStart) && appliedEnd == old(appliedEnd) && error == old(error)
    {
      rangeGroups := SortedByDate(data);
    }

    /** A failed fetch: its message (or the default) and no groups. */
    method Fail(message: Option<string>)
      modifies this
      ensures error == (if message.Some? && message.value != [] then message.value else FetchFailed)
      ensures rangeGroups == []
      ensures pendingStart == old(pendingStart) && pendingEnd == old(pendingEnd)
      ensures appliedStart == old(appliedStart) && appliedEnd == old(appliedEnd)
    {
      error := if message.Some? && message.value != [] then message.value else FetchFailed;
      rangeGroups := [];
    }
  }

  // ---- per-label totals ----

  function LabelOf(it: Item): string {
    PrettyLabel(it.category)
  }

  function AmountOf(it: Item): int {
    AmountOr0(it.amount)
  }

  /** Every item of every group (`Array.isArray(g.items) ? g.items : []`), in order. */
  function RangeItems(gs: seq<DayGroup>): seq<Item> {
    FlatMap(gs, ItemsOf)
  }

  /** The `labels`/`values`/`total` memo: one pass over every item, adding
      its amount to its label's entry and to the grand total. */
  method LabelTotals(gs: seq<DayGroup>) returns (labels: seq<string>, values: seq<int>, total: int)
    ensures var acc := AccBy(RangeItems(gs), LabelOf, AmountOf);
      labels == Keys(acc) && values == Values(acc)
    ensures total == SumOf(RangeItems(gs), AmountOf)
  {
    var acc: seq<(string, int)> := [];
    total := 0;
    for i := 0 to |gs|
      invariant acc == AccBy(RangeItems(gs[..i]), LabelOf, AmountOf)
      invariant total == SumOf(RangeItems(gs[..i]), AmountOf)
    {
      FlatMapPrefix(gs, i, ItemsOf);
      acc, total := Accumulate(acc, total, RangeItems(gs[..i]), ItemsOf(gs[i]), LabelOf, AmountOf);
    }
    assert gs[..|gs|] == gs;
    labels, values := Keys(acc), Values(acc);
  }

  /** The chart's labels are distinct, are exactly the labels of the items,
      each carries the sum of its items' amounts, and the values add up to
      the grand total. */
  lemma LabelTotalsSpec(gs: seq<DayGroup>)
    ensures var acc := AccBy(RangeItems(gs), LabelOf, AmountOf);
      && Distinct(Keys(acc))
      && Sum(Values(acc)) == SumOf(RangeItems(gs), AmountOf)
      && (forall l :: l in Keys(acc) <==> l in KeysOf(RangeItems(gs), LabelOf))
      && (forall i :: 0 <= i < |acc| ==> acc[i].1 == TotalFor(RangeItems(gs), LabelOf, AmountOf, acc[i].0))
  {
    var items := RangeItems(gs);
    var acc := AccBy(items, LabelOf, AmountOf);
    AccBySpec(items, LabelOf, AmountOf);
    forall l ensures l in Keys(acc) <==> l in KeysOf(items, LabelOf) {
      assert Get(acc, l).Some? <==> l in Keys(acc);
    }
    forall i | 0 <= i < |acc| ensures acc[i].1 == TotalFor(items, LabelOf, AmountOf, acc[i].0) {
      GetEntry(acc, i);
    }
  }
}
