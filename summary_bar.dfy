/** The monthly summary shown above the recurring list (and, identically, in
    the profile dialog): this month's total, EMI and SIP tiles and the pills
    for the next six months. */
module SummaryBar {
  import opened Wrappers
  import opened Text
  import opened Seqs
  import opened Recurrence

  const MonthNames: seq<string> :=
    ["Jan", "Feb", "Mar", "Apr", "May", "Jun", "Jul", "Aug", "Sep", "Oct", "Nov", "Dec"]

  /** The year and 0-based month `i` months after month `m` of year `y`. */
  function MonthAt(y: int, m: int, i: nat): (r: (int, int))
    ensures 0 <= r.1 < 12
    ensures 12 * r.0 + r.1 == 12 * y + m + i
  {
    (y + (m + i) / 12, (m + i) % 12)
  }

  /** `String(yy).slice(-2)`: the last two characters, or all of a shorter string. */
  function YearSuffix(yy: int): (r: string)
    ensures |r| == if |IntToString(yy)| < 2 then |IntToString(yy)| else 2
    ensures r <= IntToString(yy)[|IntToString(yy)| - |r|..]
  {
    var s := IntToString(yy);
    if |s| < 2 then s else s[|s| - 2..]
  }

  lemma NatToStringLast(n: nat)
    ensures NatToString(n)[|NatToString(n)| - 1] == DigitChar(n % 10)
  {}

  /** From year 10 on, the suffix is the tens digit then the units digit. */
  lemma YearSuffixDigits(yy: int)
    requires yy >= 10
    ensures YearSuffix(yy) == [DigitChar((yy / 10) % 10), DigitChar(yy % 10)]
  {
    var head := NatToString(yy / 10);
    NatToStringLast(yy / 10);
    assert NatToString(yy) == head + [DigitChar(yy % 10)];
    assert YearSuffix(yy) == [head[|head| - 1], DigitChar(yy % 10)];
  }

  /** A pill's label: the short month name, a space and the year suffix. */
  function PillLabel(yy: int, mm: int): (r: string)
    requires 0 <= mm < 12
    ensures |r| >= 5 && r[..3] == MonthNames[mm] && r[3] == ' '
  {
    MonthNames[mm] + " " + YearSuffix(yy)
  }

  datatype Pill = Pill(caption: string, amount: int)

  /** The pill of the month `i` months after month `m` of year `y`. */
  function PillAt(items: seq<RecurringItem>, y: int, m: int, i: nat): Pill {
    var at := MonthAt(y, m, i);
    Pill(PillLabel(at.0, at.1), AmountForMonth(items, at.0, at.1, None))
  }

  /** The `next6` loop: one pill per month from this month on, each with the
      total of every item due that month. */
  method Next6(items: seq<RecurringItem>, y: int, m: int) returns (pills: seq<Pill>)
    requires 0 <= m < 12
    ensures |pills| == 6
    ensures forall i :: 0 <= i < 6 ==> pills[i] == PillAt(items, y, m, i)
  {
    pills := [];
    for i := 0 to 6
      invariant pills == Tabulate(i, (k: nat) => PillAt(items, y, m, k))
    {
      var at := MonthAt(y, m, i);
      pills := pills + [Pill(PillLabel(at.0, at.1), AmountForMonth(items, at.0, at.1, None))];
    }
    TabulateAt(6, (k: nat) => PillAt(items, y, m, k));
  }

  function Labels(pills: seq<Pill>): (r: seq<string>)
    ensures |r| == |pills| && forall i :: 0 <= i < |pills| ==> r[i] == pills[i].caption
  {
    seq(|pills|, i requires 0 <= i < |pills| => pills[i].caption)
  }

  /** No two months share a short name. */
  lemma MonthNamesDistinct(a: int, b: int)
    requires 0 <= a < 12 && 0 <= b < 12 && a != b
    ensures MonthNames[a] != MonthNames[b]
  {}

  /** Two months fewer than twelve apart have different month numbers. */
  lemma MonthsDiffer(y: int, m: int, i: nat, j: nat)
    requires 0 <= m < 12 && i < j < i + 12
    ensures MonthAt(y, m, i).1 != MonthAt(y, m, j).1
  {
    var a, b := MonthAt(y, m, i), MonthAt(y, m, j);
    assert 12 * (b.0 - a.0) + (b.1 - a.1) == j - i;
  }

  /** The six pills cover six consecutive months, so their labels (the list's
      keys) are distinct. */
  lemma Next6LabelsDistinct(items: seq<RecurringItem>, y: int, m: int, pills: seq<Pill>)
    requires 0 <= m < 12 && |pills| == 6
    requires forall i :: 0 <= i < 6 ==> pills[i] == PillAt(items, y, m, i)
    ensures Distinct(Labels(pills))
  {
    forall i, j | 0 <= i < j < 6 ensures pills[i].caption != pills[j].caption {
      var a, b := MonthAt(y, m, i), MonthAt(y, m, j);
      MonthsDiffer(y, m, i, j);
      MonthNamesDistinct(a.1, b.1);
      assert pills[i] == PillAt(items, y, m, i) && pills[j] == PillAt(items, y, m, j);
      assert pills[i].caption[..3] == MonthNames[a.1];
      assert pills[j].caption[..3] == MonthNames[b.1];
    }
  }

  datatype Tiles = Tiles(total: int, emi: int, sip: int)

  /** The three tiles of this month: everything, then only EMI and only SIP
      items (each the unfiltered total of that type's items). */
  function MonthTiles(items: seq<RecurringItem>, y: int, m: int): (t: Tiles)
    ensures t.total == AmountForMonth(items, y, m, None)
    ensures t.emi == AmountForMonth(OfKind(items, "EMI"), y, m, None)
    ensures t.sip == AmountForMonth(OfKind(items, "SIP"), y, m, None)
  {
    FilterIsOfKind(items, y, m, "EMI");
    FilterIsOfKind(items, y, m, "SIP");
    Tiles(AmountForMonth(items, y, m, None), AmountForMonth(items, y, m, Some("EMI")),
          AmountForMonth(items, y, m, Some("SIP")))
  }

  /** With no negative amounts, the EMI and SIP tiles together never exceed
      the total tile. */
  lemma TilesWithinTotal(items: seq<RecurringItem>, y: int, m: int)
    requires forall i :: 0 <= i < |items| ==> NonNegative(items[i])
    ensures MonthTiles(items, y, m).emi + MonthTiles(items, y, m).sip <= MonthTiles(items, y, m).total
  {
    TwoKindsWithinTotal(items, y, m, "EMI", "SIP");
  }

  /** This month's total tile equals the first pill's amount. */
  lemma FirstPillIsThisMonth(items: seq<RecurringItem>, y: int, m: int, pills: seq<Pill>)
    requires 0 <= m < 12 && |pills| == 6
    requires forall i :: 0 <= i < 6 ==> pills[i] == PillAt(items, y, m, i)
    ensures pills[0].amount == MonthTiles(items, y, m).total
    ensures pills[0].caption == PillLabel(y, m)
  {
    assert MonthAt(y, m, 0) == (y, m);
    assert pills[0] == PillAt(items, y, m, 0);
  }
}
