/** The month view of flat expenses (`{ date, amount, category }` records):
    the month filter, the month, category and per-day totals, the percentage
    helper, and the day editor with its save step. */
module DailyAnalysis {
  import opened Wrappers
  import opened Text
  import opened DateText
  import opened OrderedMap
  import opened Expenses
  import opened Seqs
  import Recurrence

  /** A flat expense; `extra` stands for any further fields the record
      carries, which the editor's spread keeps. */
  datatype Expense = Expense(date: string, amount: Option<int>, category: Option<string>, extra: seq<(string, string)>)

  /** `parseYMD(e.date)` names year `y` and month `m` (NaN equals nothing). */
  predicate InMonth(e: Expense, y: int, m: int) {
    var p := ParseYMD(e.date);
    p.y == Some(y) && p.m == Some(m)
  }

  /** `monthExpenses`: the expenses of the selected month, in order. */
  function MonthExpenses(es: seq<Expense>, y: int, m: int): (r: seq<Expense>)
    ensures |r| <= |es|
    ensures forall e :: e in r <==> e in es && InMonth(e, y, m)
  {
    if es == [] then []
    else
      var last := es[|es| - 1];
      MonthExpenses(es[..|es| - 1], y, m) + (if InMonth(last, y, m) then [last] else [])
  }

  /** An expense dated by `toYMD` for a month belongs to that month's view. */
  lemma OwnDateInMonth(e: Expense, y: nat, m: int, d: int)
    requires 1 <= m <= 12 && 1 <= d <= 31 && e.date == ToYMD(y, m, d)
    ensures InMonth(e, y, m)
  {
    ParseToYMD(y, m, d);
  }

  /** The expenses read as day-group items, so the shared sums apply. */
  function AsItems(es: seq<Expense>): (r: seq<Item>)
    ensures |r| == |es|
    ensures forall i :: 0 <= i < |es| ==> r[i] == Item(None, es[i].amount, es[i].category)
  {
    seq(|es|, i requires 0 <= i < |es| => Item(None, es[i].amount, es[i].category))
  }

  lemma AsItemsSnoc(es: seq<Expense>, e: Expense)
    ensures AsItems(es + [e]) == AsItems(es) + [Item(None, e.amount, e.category)]
  {}

  lemma AsItemsPrefix(ms: seq<Expense>, i: int)
    requires 0 <= i < |ms|
    ensures AsItems(ms[..i + 1]) == AsItems(ms[..i]) + [Item(None, ms[i].amount, ms[i].category)]
  {
    assert ms[..i + 1] == ms[..i] + [ms[i]];
    AsItemsSnoc(ms[..i], ms[i]);
  }

  /** `monthTotal`: `t += Number(e.amount) || 0` over the month's expenses. */
  method MonthTotal(ms: seq<Expense>) returns (t: int)
    ensures t == ItemsSum(AsItems(ms))
  {
    t := 0;
    for i := 0 to |ms|
      invariant t == ItemsSum(AsItems(ms[..i]))
    {
      AsItemsPrefix(ms, i);
      ItemsSumSnoc(AsItems(ms[..i]), Item(None, ms[i].amount, ms[i].category));
      t := t + AmountOr0(ms[i].amount);
    }
    assert ms[..|ms|] == ms;
  }

  /** `monthByCategory`: each amount added to its normalised category; the
      six totals add up to the month total. */
  method MonthByCategory(ms: seq<Expense>) returns (cat: CatTotals)
    ensures HasAllCats(cat)
    ensures forall c :: cat[c] == CatSum(AsItems(ms), c)
    ensures TotalOfCats(cat) == ItemsSum(AsItems(ms))
  {
    cat := ZeroCats;
    ZeroCatsComplete();
    for i := 0 to |ms|
      invariant HasAllCats(cat)
      invariant forall c :: cat[c] == CatSum(AsItems(ms[..i]), c)
    {
      AsItemsPrefix(ms, i);
      AddToCats(cat, AsItems(ms[..i]), Item(None, ms[i].amount, ms[i].category));
      var c := NormalizeCat(ms[i].category);
      cat := cat[c := cat[c] + AmountOr0(ms[i].amount)];
    }
    assert ms[..|ms|] == ms;
    CatSumsAddUp(AsItems(ms));
  }

  /** The day `parseYMD(e.date).d` as a `Map` key: `undefined`, NaN or a number. */
  function DayOf(e: Expense): PartKey {
    DayPartKey(e.date)
  }

  function DaysOf(ms: seq<Expense>): (r: seq<PartKey>)
    ensures |r| == |ms| && forall i :: 0 <= i < |ms| ==> r[i] == DayOf(ms[i])
  {
    if ms == [] then [] else DaysOf(ms[..|ms| - 1]) + [DayOf(ms[|ms| - 1])]
  }

  /** The expenses of one day, in order. */
  function DayFilter(ms: seq<Expense>, d: PartKey): (r: seq<Expense>)
    ensures forall e :: e in r <==> e in ms && DayOf(e) == d
  {
    if ms == [] then []
    else
      var last := ms[|ms| - 1];
      DayFilter(ms[..|ms| - 1], d) + (if DayOf(last) == d then [last] else [])
  }

  /** One day's record: `{ total, categories }`. */
  datatype DayRec = DayRec(total: int, cats: CatTotals)

  function DayTotal(r: DayRec): int {
    r.total
  }

  /** `rec.total += amt; rec.categories[c] += amt`. */
  function Bump(rec: DayRec, e: Expense): (r: DayRec)
    requires HasAllCats(rec.cats)
    ensures HasAllCats(r.cats)
  {
    var c, amt := NormalizeCat(e.category), AmountOr0(e.amount);
    DayRec(rec.total + amt, rec.cats[c := rec.cats[c] + amt])
  }

  /** The record the loop holds for day `d` after the expenses `ms`. */
  function DayRecOf(ms: seq<Expense>, d: PartKey): (r: DayRec)
    ensures HasAllCats(r.cats)
  {
    if ms == [] then ZeroCatsComplete(); DayRec(0, ZeroCats)
    else
      var prev := DayRecOf(ms[..|ms| - 1], d);
      if DayOf(ms[|ms| - 1]) == d then Bump(prev, ms[|ms| - 1]) else prev
  }

  lemma {:induction false} DayRecTotal(ms: seq<Expense>, d: PartKey)
    ensures DayRecOf(ms, d).total == ItemsSum(AsItems(DayFilter(ms, d)))
    decreases |ms|
  {
    if ms != [] {
      var init, last := ms[..|ms| - 1], ms[|ms| - 1];
      DayRecTotal(init, d);
      var f := DayFilter(init, d);
      if DayOf(last) == d {
        AsItemsSnoc(f, last);
        var a := AsItems(f + [last]);
        assert a[..|a| - 1] == AsItems(f);
      } else {
        assert DayFilter(ms, d) == f;
      }
    }
  }

  /** Bumping adds the amount to the total and to its own category only. */
  lemma BumpCat(rec: DayRec, e: Expense, c: Category)
    requires HasAllCats(rec.cats)
    ensures Bump(rec, e).cats[c] == rec.cats[c] + (if NormalizeCat(e.category) == c then AmountOr0(e.amount) else 0)
  {}

  lemma {:induction false} DayRecCat(ms: seq<Expense>, d: PartKey, c: Category)
    ensures DayRecOf(ms, d).cats[c] == CatSum(AsItems(DayFilter(ms, d)), c)
    decreases |ms|
  {
    if ms == [] {
      ZeroCatsComplete();
    } else {
      var init, last := ms[..|ms| - 1], ms[|ms| - 1];
      DayRecCat(init, d, c);
      var f := DayFilter(init, d);
      if DayOf(last) == d {
        AsItemsSnoc(f, last);
        BumpCat(DayRecOf(init, d), last, c);
        CatSumSnoc(AsItems(f), Item(None, last.amount, last.category), c);
      } else {
        assert DayFilter(ms, d) == f;
      }
    }
  }

  /** A day's record totals that day's expenses, per category and overall, and
      its total is the sum of its category amounts. */
  lemma DayRecSpec(ms: seq<Expense>, d: PartKey)
    ensures DayRecOf(ms, d).total == ItemsSum(AsItems(DayFilter(ms, d)))
    ensures forall c :: DayRecOf(ms, d).cats[c] == CatSum(AsItems(DayFilter(ms, d)), c)
    ensures TotalOfCats(DayRecOf(ms, d).cats) == DayRecOf(ms, d).total
  {
    DayRecTotal(ms, d);
    forall c ensures DayRecOf(ms, d).cats[c] == CatSum(AsItems(DayFilter(ms, d)), c) {
      DayRecCat(ms, d, c);
    }
    CatSumsAddUp(AsItems(DayFilter(ms, d)));
  }

  /** A day no expense falls on still has the empty record. */
  lemma {:induction false} DayRecAbsent(ms: seq<Expense>, d: PartKey)
    requires d !in DaysOf(ms)
    ensures DayRecOf(ms, d) == DayRec(0, ZeroCats)
    decreases |ms|
  {
    if ms != [] {
      assert DaysOf(ms[..|ms| - 1]) == DaysOf(ms)[..|ms| - 1];
      assert DaysOf(ms)[|ms| - 1] == DayOf(ms[|ms| - 1]);
      DayRecAbsent(ms[..|ms| - 1], d);
    }
  }

  /** The per-day Map holds exactly the days of `ms`, each with its record. */
  ghost predicate TracksDays(days: seq<(PartKey, DayRec)>, ms: seq<Expense>) {
    forall d :: Get(days, d) == if d in DaysOf(ms) then Some(DayRecOf(ms, d)) else None
  }

  lemma DayRecSnoc(ms: seq<Expense>, e: Expense, d: PartKey)
    ensures DayRecOf(ms + [e], d) == if DayOf(e) == d then Bump(DayRecOf(ms, d), e) else DayRecOf(ms, d)
  {
    assert (ms + [e])[..|ms|] == ms;
  }

  lemma TracksSet(days: seq<(PartKey, DayRec)>, ms: seq<Expense>, e: Expense, next: DayRec)
    requires TracksDays(days, ms) && next == DayRecOf(ms + [e], DayOf(e))
    ensures TracksDays(Set(days, DayOf(e), next), ms + [e])
  {
    forall x ensures Get(Set(days, DayOf(e), next), x) == if x in DaysOf(ms + [e]) then Some(DayRecOf(ms + [e], x)) else None {
      TracksAt(days, ms, e, next, x);
    }
  }

  /** One day of the updated Map: the bumped day has its new record, any
      other day keeps its entry. */
  lemma TracksAt(days: seq<(PartKey, DayRec)>, ms: seq<Expense>, e: Expense, next: DayRec, x: PartKey)
    requires Get(days, x) == if x in DaysOf(ms) then Some(DayRecOf(ms, x)) else None
    requires next == DayRecOf(ms + [e], DayOf(e))
    ensures Get(Set(days, DayOf(e), next), x) == if x in DaysOf(ms + [e]) then Some(DayRecOf(ms + [e], x)) else None
  {
    DaysOfSnoc(ms, e);
    if x != DayOf(e) {
      SetOthers(days, DayOf(e), next, x);
      DayRecSnoc(ms, e, x);
    }
  }

  lemma DaysOfSnoc(ms: seq<Expense>, e: Expense)
    ensures DaysOf(ms + [e]) == DaysOf(ms) + [DayOf(e)]
  {
    assert (ms + [e])[..|ms|] == ms;
  }

  /** The record the loop finds for a day: the tracked one, or the empty
      record for a day not seen yet. */
  lemma RecFound(days: seq<(PartKey, DayRec)>, ms: seq<Expense>, d: PartKey)
    requires TracksDays(days, ms)
    ensures Get(days, d).GetOr(DayRec(0, ZeroCats)) == DayRecOf(ms, d)
  {
    if Get(days, d).None? {
      DayRecAbsent(ms, d);
    }
  }

  /** Bumping one day's record by an expense keeps the day totals adding up
      to the month total. */
  lemma SumStep(days: seq<(PartKey, DayRec)>, ms: seq<Expense>, e: Expense, rec: DayRec)
    requires MapSum(days, DayTotal) == ItemsSum(AsItems(ms))
    requires HasAllCats(rec.cats) && rec == Get(days, DayOf(e)).GetOr(DayRec(0, ZeroCats))
    ensures MapSum(Set(days, DayOf(e), Bump(rec, e)), DayTotal) == ItemsSum(AsItems(ms + [e]))
  {
    MapSumSet(days, DayOf(e), Bump(rec, e), DayTotal);
    AsItemsSnoc(ms, e);
    ItemsSumSnoc(AsItems(ms), Item(None, e.amount, e.category));
  }

  /** `totalsByDayInMonth`: a Map from day to record, a new day starting from
      the empty record. Every day that occurs has its record, and the day
      totals add up to the month total. */
  method TotalsByDay(ms: seq<Expense>) returns (days: seq<(PartKey, DayRec)>)
    ensures forall d :: Get(days, d) == if d in DaysOf(ms) then Some(DayRecOf(ms, d)) else None
    ensures MapSum(days, DayTotal) == ItemsSum(AsItems(ms))
  {
    days := [];
    for i := 0 to |ms|
      invariant TracksDays(days, ms[..i])
      invariant MapSum(days, DayTotal) == ItemsSum(AsItems(ms[..i]))
    {
      var e := ms[i];
      var d := DayOf(e);
      var rec := Get(days, d).GetOr(DayRec(0, ZeroCats));
      RecFound(days, ms[..i], d);
      DayRecSnoc(ms[..i], e, d);
      TracksSet(days, ms[..i], e, Bump(rec, e));
      SumStep(days, ms[..i], e, rec);
      PrefixSnoc(ms, i);
      days := Set(days, d, Bump(rec, e));
    }
    assert ms[..|ms|] == ms;
  }

  /** `pct(part, whole)`: 0 for a zero whole, else `Math.round(part / whole * 100)`
      (rounding half up). */
  function Pct(part: int, whole: int): (r: int)
    ensures whole == 0 ==> r == 0
  {
    if whole == 0 then 0
    else if whole > 0 then Recurrence.RoundHalfUp(100 * part, whole)
    else Recurrence.RoundHalfUp(-100 * part, -whole)
  }

  /** A share of a positive whole is a percentage between 0 and 100, and the
      whole itself is 100. */
  lemma PctBounds(part: int, whole: int)
    requires 0 <= part <= whole && whole > 0
    ensures 0 <= Pct(part, whole) <= 100
    ensures part == whole ==> Pct(part, whole) == 100
  {
    ShareBounds(Pct(part, whole), part, whole);
  }

  lemma MulSign(a: int, w: int)
    requires w > 0
    ensures a > 0 <==> a * w > 0
  {
    if a > 0 {
      assert a * w >= w;
    } else {
      assert a * w <= 0;
    }
  }

  /** A rounded percentage of a share of a positive whole lies in 0..100. */
  lemma ShareBounds(r: int, p: int, w: int)
    requires w > 0 && 0 <= p <= w && 2 * r * w - w <= 200 * p < 2 * r * w + w
    ensures 0 <= r <= 100 && (p == w ==> r == 100)
  {
    MulSign(2 * r + 1, w);
    MulSign(201 - 2 * r, w);
    if p == w {
      MulSign(2 * r - 199, w);
    }
  }

  // ---- the day editor ----

  datatype EditRow = EditRow(id: string, amount: RowAmount, category: string, originalIndex: int, isNew: bool)

  function PatchRow(r: EditRow, p: RowPatch): EditRow {
    match p
    case SetAmount(t) => r.(amount := Text(t))
    case SetCategory(c) => r.(category := c)
  }

  /** `rows.map(r => r.id === id ? { ...r, ...patch } : r)`. */
  function PatchRows(rows: seq<EditRow>, id: string, p: RowPatch): (r: seq<EditRow>)
    ensures |r| == |rows|
    ensures forall i :: 0 <= i < |rows| ==> r[i] == if rows[i].id == id then PatchRow(rows[i], p) else rows[i]
  {
    seq(|rows|, i requires 0 <= i < |rows| => if rows[i].id == id then PatchRow(rows[i], p) else rows[i])
  }

  /** A patch keeps every row's id, index and newness, and changes nothing
      when no row has the id. */
  lemma PatchRowsKeeps(rows: seq<EditRow>, id: string, p: RowPatch)
    ensures forall i :: 0 <= i < |rows| ==>
      var q := PatchRows(rows, id, p)[i];
      q.id == rows[i].id && q.originalIndex == rows[i].originalIndex && q.isNew == rows[i].isNew
    ensures (forall i :: 0 <= i < |rows| ==> rows[i].id != id) ==> PatchRows(rows, id, p) == rows
  {}

  /** The record an existing row rewrites: `{ ...e, date, amount, category }`. */
  function Overwrite(e: Expense, r: EditRow, dateStr: string): Expense {
    e.(date := dateStr, amount := Some(RowValue(r.amount)), category := Some(r.category))
  }

  /** The record a new row adds: `{ date, amount, category }`. */
  function Fresh(r: EditRow, dateStr: string): Expense {
    Expense(dateStr, Some(RowValue(r.amount)), Some(r.category), [])
  }

  // -- saveChanges as written: a JS array with holes, spliced in place --

  /** `slice()` of the expenses, as array slots (None is a hole). */
  function SomeAll(es: seq<Expense>): (r: seq<Option<Expense>>)
    ensures |r| == |es| && forall j :: 0 <= j < |es| ==> r[j] == Some(es[j])
  {
    seq(|es|, j requires 0 <= j < |es| => Some(es[j]))
  }

  /** `next.splice(i, 1)`: nothing happens at or past the end. */
  function SpliceOut(next: seq<Option<Expense>>, i: nat): seq<Option<Expense>> {
    if i < |next| then next[..i] + next[i + 1..] else next
  }

  /** `next[i] = v`: past the end the array grows, leaving holes. */
  function AssignAt(next: seq<Option<Expense>>, i: nat, v: Expense): seq<Option<Expense>> {
    if i < |next| then next[i := Some(v)]
    else next + seq(i - |next|, _ => None) + [Some(v)]
  }

  /** `{ ...next[i], date, amount, category }`; spreading a hole gives only
      the three fields. */
  function Spread(x: Option<Expense>, r: EditRow, dateStr: string): Expense {
    match x
    case Some(e) => Overwrite(e, r, dateStr)
    case None => Fresh(r, dateStr)
  }

  /** One iteration of the save loop as written. */
  function StepAsWritten(next: seq<Option<Expense>>, r: EditRow, pending: set<string>, dateStr: string): seq<Option<Expense>> {
    var oi := r.originalIndex;
    if oi >= 0 then
      if r.id in pending then SpliceOut(next, oi)
      else AssignAt(next, oi, Spread(if oi < |next| then next[oi] else None, r, dateStr))
    else if r.id !in pending then next + [Some(Fresh(r, dateStr))]
    else next
  }

  /** `saveChanges` as written: every row in turn applied to a copy. Each
      splice shifts the later entries, but the rows keep the indices they
      were opened with. */
  function SaveAsWritten(es: seq<Expense>, rows: seq<EditRow>, pending: set<string>, dateStr: string): seq<Option<Expense>> {
    if rows == [] then SomeAll(es)
    else StepAsWritten(SaveAsWritten(es, rows[..|rows| - 1], pending, dateStr), rows[|rows| - 1], pending, dateStr)
  }

  // -- saveChanges as intended: each row acts on the entry it was opened for --

  /** The last row opened for entry `j`. */
  function RowAt(rows: seq<EditRow>, j: int): (r: Option<EditRow>)
    ensures r.Some? ==> r.value in rows && r.value.originalIndex == j
  {
    if rows == [] then None
    else if rows[|rows| - 1].originalIndex == j then Some(rows[|rows| - 1])
    else RowAt(rows[..|rows| - 1], j)
  }

  /** What becomes of entry `j`: deleted when its row is flagged, rewritten
      by its row otherwise, kept when no row was opened for it. */
  function SlotFor(es: seq<Expense>, rows: seq<EditRow>, pending: set<string>, dateStr: string, j: int): Option<Expense>
    requires 0 <= j < |es|
  {
    match RowAt(rows, j)
    case None => Some(es[j])
    case Some(r) => if r.id in pending then None else Some(Overwrite(es[j], r, dateStr))
  }

  /** Every entry's fate, in the entries' order. */
  function Slots(es: seq<Expense>, rows: seq<EditRow>, pending: set<string>, dateStr: string): (r: seq<Option<Expense>>)
    ensures |r| == |es| && forall j :: 0 <= j < |es| ==> r[j] == SlotFor(es, rows, pending, dateStr, j)
  {
    seq(|es|, j requires 0 <= j < |es| => SlotFor(es, rows, pending, dateStr, j))
  }

  /** The records of the new rows not flagged for deletion, in order. */
  function NewRows(rows: seq<EditRow>, pending: set<string>, dateStr: string): seq<Expense> {
    if rows == [] then []
    else
      var r := rows[|rows| - 1];
      NewRows(rows[..|rows| - 1], pending, dateStr) + (if r.originalIndex < 0 && r.id !in pending then [Fresh(r, dateStr)] else [])
  }

  /** The slots that are not deleted, in order. */
  function Compact(s: seq<Option<Expense>>): (r: seq<Expense>)
    ensures |r| <= |s|
    ensures forall e :: e in r <==> Some(e) in s
  {
    if s == [] then []
    else
      var last := s[|s| - 1];
      Compact(s[..|s| - 1]) + (if last.Some? then [last.value] else [])
  }

  /** The saved list: the surviving (possibly rewritten) entries in their
      order, then the new rows. */
  function SaveSpec(es: seq<Expense>, rows: seq<EditRow>, pending: set<string>, dateStr: string): seq<Expense> {
    Compact(Slots(es, rows, pending, dateStr)) + NewRows(rows, pending, dateStr)
  }

  /** `saveChanges` with deletions that do not shift the other rows' entries:
      flagged entries become empty slots, removed once every row is applied. */
  method SaveChanges(es: seq<Expense>, rows: seq<EditRow>, pending: set<string>, dateStr: string)
    returns (next: seq<Expense>)
    ensures next == SaveSpec(es, rows, pending, dateStr)
  {
    var slots := SomeAll(es);
    var added: seq<Expense> := [];
    for i := 0 to |rows|
      invariant |slots| == |es|
      invariant forall j :: 0 <= j < |es| ==> slots[j] == SlotFor(es, rows[..i], pending, dateStr, j)
      invariant added == NewRows(rows[..i], pending, dateStr)
    {
      var r := rows[i];
      assert rows[..i + 1][..i] == rows[..i];
      var oi := r.originalIndex;
      if oi >= 0 {
        if oi < |es| {
          slots := slots[oi := if r.id in pending then None else Some(Overwrite(es[oi], r, dateStr))];
        }
      } else if r.id !in pending {
        added := added + [Fresh(r, dateStr)];
      }
    }
    assert rows[..|rows|] == rows;
    assert slots == Slots(es, rows, pending, dateStr);
    next := Compact(slots) + added;
  }

  lemma {:induction false} CompactAllSome(s: seq<Option<Expense>>)
    requires forall j :: 0 <= j < |s| ==> s[j].Some?
    ensures SomeAll(Compact(s)) == s
    decreases |s|
  {
    if s != [] {
      CompactAllSome(s[..|s| - 1]);
      assert SomeAll(Compact(s)) == SomeAll(Compact(s[..|s| - 1])) + [s[|s| - 1]];
      assert s == s[..|s| - 1] + [s[|s| - 1]];
    }
  }

  lemma OverwriteTwice(e: Expense, r: EditRow, r': EditRow, dateStr: string)
    ensures Overwrite(Overwrite(e, r', dateStr), r, dateStr) == Overwrite(e, r, dateStr)
  {}

  /** With no row flagged and every row opened for an entry that exists (as
      the editor opens them), the loop as written does what was meant: each
      existing row rewrites its entry in place and the new rows are appended. */
  lemma {:induction false} AsWrittenWithoutDeletes(es: seq<Expense>, rows: seq<EditRow>, pending: set<string>, dateStr: string)
    requires forall i :: 0 <= i < |rows| ==> rows[i].id !in pending && rows[i].originalIndex < |es|
    ensures SaveAsWritten(es, rows, pending, dateStr)
      == Slots(es, rows, pending, dateStr) + SomeAll(NewRows(rows, pending, dateStr))
    decreases |rows|
  {
    if rows == [] {
      assert Slots(es, rows, pending, dateStr) == SomeAll(es);
    } else {
      var init := rows[..|rows| - 1];
      AsWrittenWithoutDeletes(es, init, pending, dateStr);
      if rows[|rows| - 1].originalIndex >= 0 {
        ExistingRowStep(es, rows, pending, dateStr);
      } else {
        NewRowStep(es, rows, pending, dateStr);
      }
    }
  }

  /** A row opened for an existing entry rewrites that entry's slot in place
      (overwriting a rewrite by an earlier row for the same entry). */
  lemma ExistingRowStep(es: seq<Expense>, rows: seq<EditRow>, pending: set<string>, dateStr: string)
    requires |rows| > 0 && forall i :: 0 <= i < |rows| ==> rows[i].id !in pending
    requires 0 <= rows[|rows| - 1].originalIndex < |es|
    ensures var init := rows[..|rows| - 1];
      StepAsWritten(Slots(es, init, pending, dateStr) + SomeAll(NewRows(init, pending, dateStr)), rows[|rows| - 1], pending, dateStr)
      == Slots(es, rows, pending, dateStr) + SomeAll(NewRows(rows, pending, dateStr))
  {
    var init, r := rows[..|rows| - 1], rows[|rows| - 1];
    var oi := r.originalIndex;
    var before := Slots(es, init, pending, dateStr);
    var added := SomeAll(NewRows(init, pending, dateStr));
    var v := Overwrite(es[oi], r, dateStr);
    assert (before + added)[oi] == before[oi];
    match RowAt(init, oi)
    case None =>
    case Some(r') =>
      assert r' in rows;
      OverwriteTwice(es[oi], r, r', dateStr);
    assert Spread(before[oi], r, dateStr) == v;
    assert (before + added)[oi := Some(v)] == before[oi := Some(v)] + added;
    assert Slots(es, rows, pending, dateStr) == before[oi := Some(v)];
    assert NewRows(rows, pending, dateStr) == NewRows(init, pending, dateStr) + [];
  }

  /** A new row leaves the slots alone and adds its record after the others. */
  lemma NewRowStep(es: seq<Expense>, rows: seq<EditRow>, pending: set<string>, dateStr: string)
    requires |rows| > 0 && rows[|rows| - 1].id !in pending && rows[|rows| - 1].originalIndex < 0
    ensures var init := rows[..|rows| - 1];
      StepAsWritten(Slots(es, init, pending, dateStr) + SomeAll(NewRows(init, pending, dateStr)), rows[|rows| - 1], pending, dateStr)
      == Slots(es, rows, pending, dateStr) + SomeAll(NewRows(rows, pending, dateStr))
  {
    var init, r := rows[..|rows| - 1], rows[|rows| - 1];
    assert Slots(es, rows, pending, dateStr) == Slots(es, init, pending, dateStr);
    assert NewRows(rows, pending, dateStr) == NewRows(init, pending, dateStr) + [Fresh(r, dateStr)];
    SomeAllConcat(NewRows(init, pending, dateStr), [Fresh(r, dateStr)]);
  }

  lemma SomeAllConcat(a: seq<Expense>, b: seq<Expense>)
    ensures SomeAll(a + b) == SomeAll(a) + SomeAll(b)
  {}

  lemma SlotKept(es: seq<Expense>, rows: seq<EditRow>, pending: set<string>, dateStr: string, j: int)
    requires forall i :: 0 <= i < |rows| ==> rows[i].id !in pending
    requires 0 <= j < |es|
    ensures SlotFor(es, rows, pending, dateStr, j).Some?
  {
    if RowAt(rows, j).Some? {
      var r := RowAt(rows, j).value;
      assert r in rows;
    }
  }

  /** Hence, with no deletions, the list as written has no holes and equals
      the intended one, one entry per expense plus one per new row. */
  lemma AsWrittenAgreesWithoutDeletes(es: seq<Expense>, rows: seq<EditRow>, pending: set<string>, dateStr: string)
    requires forall i :: 0 <= i < |rows| ==> rows[i].id !in pending && rows[i].originalIndex < |es|
    ensures SaveAsWritten(es, rows, pending, dateStr) == SomeAll(SaveSpec(es, rows, pending, dateStr))
    ensures |SaveSpec(es, rows, pending, dateStr)| == |es| + |NewRows(rows, pending, dateStr)|
  {
    AsWrittenWithoutDeletes(es, rows, pending, dateStr);
    var slots := Slots(es, rows, pending, dateStr);
    forall j | 0 <= j < |es| ensures slots[j].Some? {
      SlotKept(es, rows, pending, dateStr, j);
    }
    CompactAllSome(slots);
    SomeAllConcat(Compact(slots), NewRows(rows, pending, dateStr));
  }

  /** With deletions, the intended save keeps what the rows did not delete:
      an entry no row was opened for survives unchanged, an entry whose row is
      not flagged survives as that row rewrote it, and every unflagged new row
      is added. */
  lemma SaveSpecKeeps(es: seq<Expense>, rows: seq<EditRow>, pending: set<string>, dateStr: string, j: int)
    requires 0 <= j < |es|
    ensures RowAt(rows, j).None? ==> es[j] in SaveSpec(es, rows, pending, dateStr)
    ensures RowAt(rows, j).Some? && RowAt(rows, j).value.id !in pending ==>
      Overwrite(es[j], RowAt(rows, j).value, dateStr) in SaveSpec(es, rows, pending, dateStr)
    ensures forall e :: e in NewRows(rows, pending, dateStr) ==> e in SaveSpec(es, rows, pending, dateStr)
  {
    var slots := Slots(es, rows, pending, dateStr);
    assert slots[j] in slots;
  }

  /** Two rows flagged for deletion: the loop as written splices out the
      first entry, then finds the second index past the shortened end and
      removes nothing, so one deleted expense survives. Deleting by the
      opened entries removes both. */
  lemma SecondDeletionLost()
    ensures var x := Expense("2025-01-05", Some(10), Some("grocery"), []);
      var y := Expense("2025-01-05", Some(20), Some("stock"), []);
      var rows := [EditRow("a", Num(10), "grocery", 0, false), EditRow("b", Num(20), "stock", 1, false)];
      && SaveAsWritten([x, y], rows, {"a", "b"}, "2025-01-05") == [Some(y)]
      && SaveSpec([x, y], rows, {"a", "b"}, "2025-01-05") == []
  {
    var x := Expense("2025-01-05", Some(10), Some("grocery"), []);
    var y := Expense("2025-01-05", Some(20), Some("stock"), []);
    var rows := [EditRow("a", Num(10), "grocery", 0, false), EditRow("b", Num(20), "stock", 1, false)];
    assert rows[..1][..0] == [];
    assert SaveAsWritten([x, y], rows[..1], {"a", "b"}, "2025-01-05") == [Some(y)];
    var slots := seq(2, j requires 0 <= j < 2 => SlotFor([x, y], rows, {"a", "b"}, "2025-01-05", j));
    assert RowAt(rows, 0) == Some(rows[0]);
    assert slots == [None, None];
    assert Compact(slots) == [];
    assert NewRows(rows[..1], {"a", "b"}, "2025-01-05") == [];
  }

  /** The day editor's state: the day being edited, its rows and the ids
      flagged for deletion. */
  class DayEditor {
    var editingDay: Option<int>
    var rows: seq<EditRow>
    var pending: set<string>

    constructor()
      ensures editingDay.None? && rows == [] && pending == {}
    {
      editingDay := None;
      rows := [];
      pending := {};
    }

    /** The state `openEditor(day)` leaves: the day, the rows it built for
        that day's expenses, and nothing flagged. */
    method Open(day: int, built: seq<EditRow>)
      modifies this
      ensures editingDay == Some(day) && rows == built && pending == {}
    {
      editingDay := Some(day);
      rows := built;
      pending := {};
    }

    /** `addRow`: one new row worth 0 in "other", tied to no entry; `freshId`
        is what `cryptoRandomId()` returns. */
    method AddRow(freshId: string)
      modifies this
      ensures rows == old(rows) + [EditRow(freshId, Num(0), "other", -1, true)]
      ensures pending == old(pending) && editingDay == old(editingDay)
    {
      rows := rows + [EditRow(freshId, Num(0), "other", -1, true)];
    }

    method UpdateRow(id: string, p: RowPatch)
      modifies this
      ensures rows == PatchRows(old(rows), id, p)
      ensures pending == old(pending) && editingDay == old(editingDay)
    {
      rows := PatchRows(rows, id, p);
    }

    method ToggleDelete(id: string)
      modifies this
      ensures pending == Toggle(old(pending), id)
      ensures rows == old(rows) && editingDay == old(editingDay)
    {
      pending := Toggle(pending, id);
    }

    /** `saveChanges` then `closeEditor`: the saved list goes to the parent's
        callback when there is one (None when there is not). */
    method Save(es: seq<Expense>, year: int, month: int, hasCallback: bool) returns (out: Option<seq<Expense>>)
      requires editingDay.Some?
      modifies this
      ensures hasCallback ==>
        out == Some(SaveSpec(es, old(rows), old(pending), ToYMD(year, month, old(editingDay).value)))
      ensures !hasCallback ==> out.None?
      ensures editingDay.None? && rows == [] && pending == {}
    {
      if hasCallback {
        var dateStr := ToYMD(year, month, editingDay.value);
        var next := SaveChanges(es, rows, pending, dateStr);
        out := Some(next);
      } else {
        out := None;
      }
      editingDay := None;
      rows := [];
      pending := {};
    }
  }
}
