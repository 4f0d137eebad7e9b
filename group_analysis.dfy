/** The month view over day groups (`{ date, items, total }`): the "can edit
    this day" rule, the flattened item list, the month filter and totals, and
    the day editor whose save rewrites one day group. */
module GroupAnalysis {
  import opened Wrappers
  import opened Text
  import opened DateText
  import opened Seqs
  import opened Expenses

  /** Today's year, 1-based month and day, read from the clock by the caller. */
  datatype Today = Today(y: int, m: int, d: int)

  /** `cmpYM(a, b)`: positive, zero or negative as (year, month) `a` comes
      after, equals or comes before `b`. */
  function CmpYM(ya: int, ma: int, yb: int, mb: int): (r: int)
    ensures r > 0 <==> ya > yb || (ya == yb && ma > mb)
    ensures r < 0 <==> ya < yb || (ya == yb && ma < mb)
  {
    if ya == yb then ma - mb else ya - yb
  }

  /** `canEditDay(year, month, day)`: no later month, any earlier month, and
      in this month only up to today. */
  function CanEditDay(t: Today, year: int, month: int, day: int): (r: bool)
    ensures year > t.y || (year == t.y && month > t.m) ==> !r
    ensures year < t.y || (year == t.y && month < t.m) ==> r
    ensures year == t.y && month == t.m ==> (r <==> day <= t.d)
  {
    var diff := CmpYM(year, month, t.y, t.m);
    if diff > 0 then false
    else if diff < 0 then true
    else day <= t.d
  }

  // ---- flatAll ----

  /** An entry of `flatAll`: the item's id, its group's date, its amount as a
      number and its normalised category. */
  datatype Flat = Flat(id: Option<string>, date: string, amount: int, category: Category)

  function FlatItem(g: DayGroup, it: Item): Flat {
    Flat(it.id, g.date, AmountOr0(it.amount), NormalizeCat(it.category))
  }

  function FlatGroup(g: DayGroup): (r: seq<Flat>)
    ensures |r| == |ItemsOf(g)|
  {
    seq(|ItemsOf(g)|, i requires 0 <= i < |ItemsOf(g)| => FlatItem(g, ItemsOf(g)[i]))
  }

  /** The items of all groups, group after group (`g.items || []`). */
  function AllItems(gs: seq<DayGroup>): seq<Item> {
    FlatMap(gs, ItemsOf)
  }

  function FlatOf(gs: seq<DayGroup>): seq<Flat> {
    FlatMap(gs, FlatGroup)
  }

  /** The `flatAll` loop: one push per item of each group in turn. */
  method FlatAll(gs: seq<DayGroup>) returns (out: seq<Flat>)
    ensures out == FlatOf(gs)
  {
    out := [];
    for j := 0 to |gs|
      invariant out == FlatOf(gs[..j])
    {
      out := PushGroup(out, gs[j]);
      FlatMapPrefix(gs, j, FlatGroup);
    }
    assert gs[..|gs|] == gs;
  }

  /** The inner loop over one group's items. */
  method PushGroup(out0: seq<Flat>, g: DayGroup) returns (out: seq<Flat>)
    ensures out == out0 + FlatGroup(g)
  {
    out := out0;
    var items := ItemsOf(g);
    for i := 0 to |items|
      invariant out == out0 + FlatGroup(g)[..i]
    {
      PrefixSnoc(FlatGroup(g), i);
      out := out + [Flat(items[i].id, g.date, AmountOr0(items[i].amount), NormalizeCat(items[i].category))];
    }
    assert FlatGroup(g)[..|items|] == FlatGroup(g);
  }

  lemma AllItemsPrefix(gs: seq<DayGroup>, j: int)
    requires 0 <= j < |gs|
    ensures AllItems(gs[..j + 1]) == AllItems(gs[..j]) + ItemsOf(gs[j])
  {
    FlatMapPrefix(gs, j, ItemsOf);
  }

  /** One entry per item: item `i` of group `j` is entry
      `|AllItems(gs[..j])| + i` of `flatAll`, carrying that group's date, so
      `flatAll` is exactly as long as all the items together. */
  lemma FlatAt(gs: seq<DayGroup>, j: int, i: int)
    requires 0 <= j < |gs| && 0 <= i < |ItemsOf(gs[j])|
    ensures |FlatOf(gs)| == |AllItems(gs)|
    ensures |AllItems(gs[..j])| + i < |FlatOf(gs)|
    ensures FlatOf(gs)[|AllItems(gs[..j])| + i] == FlatItem(gs[j], ItemsOf(gs[j])[i])
    ensures FlatOf(gs)[|AllItems(gs[..j])| + i].date == gs[j].date
  {
    FlatMapLength(gs, FlatGroup, ItemsOf);
    FlatMapLength(gs[..j], FlatGroup, ItemsOf);
    FlatMapAt(gs, FlatGroup, j, i);
  }

  // ---- the month filter and its totals ----

  predicate InMonth(g: DayGroup, y: int, m: int) {
    var p := ParseYMD(g.date);
    p.y == Some(y) && p.m == Some(m)
  }

  /** `groupsForMonth`: the groups dated in the selected month, in order. */
  function GroupsForMonth(gs: seq<DayGroup>, y: int, m: int): (r: seq<DayGroup>)
    ensures |r| <= |gs|
    ensures forall g :: g in r <==> g in gs && InMonth(g, y, m)
  {
    if gs == [] then []
    else
      var last := gs[|gs| - 1];
      GroupsForMonth(gs[..|gs| - 1], y, m) + (if InMonth(last, y, m) then [last] else [])
  }

  /** The sum of the groups' contributions (stored total, else item sum). */
  function GroupsSum(gs: seq<DayGroup>): int {
    if gs == [] then 0 else GroupsSum(gs[..|gs| - 1]) + GroupTotal(gs[|gs| - 1])
  }

  /** `(g.items || []).reduce((s, it) => s + (Number(it.amount) || 0), 0)`. */
  method ItemsTotal(items: seq<Item>) returns (s: int)
    ensures s == ItemsSum(items)
  {
    s := 0;
    for i := 0 to |items|
      invariant s == ItemsSum(items[..i])
    {
      PrefixSnoc(items, i);
      ItemsSumSnoc(items[..i], items[i]);
      s := s + AmountOr0(items[i].amount);
    }
    assert items[..|items|] == items;
  }

  /** `monthTotal`: a group adds its numeric `total`, else its items' sum. */
  method MonthTotal(gs: seq<DayGroup>) returns (t: int)
    ensures t == GroupsSum(gs)
  {
    t := 0;
    for j := 0 to |gs|
      invariant t == GroupsSum(gs[..j])
    {
      var g := gs[j];
      PrefixSnoc(gs, j);
      if g.total.Some? {
        t := t + g.total.value;
      } else {
        var s := ItemsTotal(ItemsOf(g));
        t := t + s;
      }
    }
    assert gs[..|gs|] == gs;
  }

  /** A group whose stored total, if any, is the sum of its items. */
  predicate Consistent(g: DayGroup) {
    g.total.None? || g.total == Some(ItemsSum(ItemsOf(g)))
  }

  /** When every stored total agrees with its items (as every saved group's
      does), the month total is the sum of all the month's items. */
  lemma {:induction false} ConsistentTotal(gs: seq<DayGroup>)
    requires forall j :: 0 <= j < |gs| ==> Consistent(gs[j])
    ensures GroupsSum(gs) == ItemsSum(AllItems(gs))
    decreases |gs|
  {
    if gs != [] {
      ConsistentTotal(gs[..|gs| - 1]);
      ItemsSumConcat(AllItems(gs[..|gs| - 1]), ItemsOf(gs[|gs| - 1]));
    }
  }

  /** The inner loop of `monthByCategory`: one group's items added to their
      categories. */
  method AddItems(cat0: CatTotals, before: seq<Item>, items: seq<Item>) returns (cat: CatTotals)
    requires HasAllCats(cat0) && forall c :: cat0[c] == CatSum(before, c)
    ensures HasAllCats(cat) && forall c :: cat[c] == CatSum(before + items, c)
  {
    cat := cat0;
    assert before + items[..0] == before;
    for i := 0 to |items|
      invariant HasAllCats(cat)
      invariant forall c :: cat[c] == CatSum(before + items[..i], c)
    {
      AddToCats(cat, before + items[..i], items[i]);
      ConcatPrefixSnoc(before, items, i);
      var c := NormalizeCat(items[i].category);
      cat := cat[c := cat[c] + AmountOr0(items[i].amount)];
    }
    assert items[..|items|] == items;
  }

  /** `monthByCategory`: every item of every group of the month added to its
      category; the six totals add up to the sum of all the items. */
  method MonthByCategory(gs: seq<DayGroup>) returns (cat: CatTotals)
    ensures HasAllCats(cat)
    ensures forall c :: cat[c] == CatSum(AllItems(gs), c)
    ensures TotalOfCats(cat) == ItemsSum(AllItems(gs))
  {
    cat := ZeroCats;
    ZeroCatsComplete();
    for j := 0 to |gs|
      invariant HasAllCats(cat)
      invariant forall c :: cat[c] == CatSum(AllItems(gs[..j]), c)
    {
      cat := AddItems(cat, AllItems(gs[..j]), ItemsOf(gs[j]));
      AllItemsPrefix(gs, j);
    }
    assert gs[..|gs|] == gs;
    CatSumsAddUp(AllItems(gs));
  }

  lemma ConcatPrefixSnoc(a: seq<Item>, b: seq<Item>, i: int)
    requires 0 <= i < |b|
    ensures a + b[..i + 1] == a + b[..i] + [b[i]]
  {
    PrefixSnoc(b, i);
  }

  // ---- the day editor ----

  /** A row of the group editor: its own id, the id of the item it was opened
      for (none for a new row), its amount, category key and newness. */
  datatype GroupRow = GroupRow(id: string, expenseId: Option<string>, amount: RowAmount, category: string, isNew: bool)

  /** The first group dated `dateStr` (`findIndex` / `find`). */
  function FindDate(gs: seq<DayGroup>, dateStr: string): (r: Option<nat>)
    ensures r.Some? ==> r.value < |gs| && gs[r.value].date == dateStr
    ensures r.Some? ==> forall j :: 0 <= j < r.value ==> gs[j].date != dateStr
    ensures r.None? ==> forall j :: 0 <= j < |gs| ==> gs[j].date != dateStr
  {
    if gs == [] then None
    else if gs[0].date == dateStr then Some(0)
    else
      match FindDate(gs[1..], dateStr)
      case None => None
      case Some(k) => Some(k + 1)
  }

  /** The row opened for item `i`; `newId(i)` is the `i`-th new id. */
  function OpenRow(it: Item, i: nat, newId: nat -> string): GroupRow {
    GroupRow(newId(i), it.id, Num(AmountOr0(it.amount)), NormalizeCat(it.category).Key(), false)
  }

  /** The rows `openEditor` builds: one per item of the day's group when its
      items are an array, none otherwise. */
  function OpenRows(gs: seq<DayGroup>, dateStr: string, newId: nat -> string): (r: seq<GroupRow>)
    ensures FindDate(gs, dateStr).None? ==> r == []
    ensures FindDate(gs, dateStr).Some? && gs[FindDate(gs, dateStr).value].items.Some? ==>
      var items := gs[FindDate(gs, dateStr).value].items.value;
      |r| == |items| && forall i :: 0 <= i < |items| ==> r[i].expenseId == items[i].id && !r[i].isNew
  {
    var idx := FindDate(gs, dateStr);
    if idx.Some? && gs[idx.value].items.Some? then ItemRows(gs[idx.value].items.value, newId) else []
  }

  /** One row per item, in order. */
  function ItemRows(items: seq<Item>, newId: nat -> string): (r: seq<GroupRow>)
    ensures |r| == |items| && forall i :: 0 <= i < |items| ==> r[i] == OpenRow(items[i], i, newId)
  {
    seq(|items|, i requires 0 <= i < |items| => OpenRow(items[i], i, newId))
  }

  /** The `items.map` building the rows. */
  method BuildRows(items: seq<Item>, newId: nat -> string) returns (built: seq<GroupRow>)
    ensures built == ItemRows(items, newId)
  {
    built := [];
    for i := 0 to |items|
      invariant |built| == i && forall k :: 0 <= k < i ==> built[k] == OpenRow(items[k], k, newId)
    {
      built := built + [GroupRow(newId(i), items[i].id, Num(AmountOr0(items[i].amount)), NormalizeCat(items[i].category).Key(), false)];
    }
  }

  function PatchRow(r: GroupRow, p: RowPatch): GroupRow {
    match p
    case SetAmount(t) => r.(amount := Text(t))
    case SetCategory(c) => r.(category := c)
  }

  /** `rows.map(r => r.id === id ? { ...r, ...patch } : r)`. */
  function PatchRows(rows: seq<GroupRow>, id: string, p: RowPatch): (r: seq<GroupRow>)
    ensures |r| == |rows|
    ensures forall i :: 0 <= i < |rows| ==> r[i] == if rows[i].id == id then PatchRow(rows[i], p) else rows[i]
  {
    seq(|rows|, i requires 0 <= i < |rows| => if rows[i].id == id then PatchRow(rows[i], p) else rows[i])
  }

  /** A patch keeps every row's ids and newness. */
  lemma PatchRowsKeepsIds(rows: seq<GroupRow>, id: string, p: RowPatch)
    ensures forall i :: 0 <= i < |rows| ==>
      var q := PatchRows(rows, id, p)[i];
      q.id == rows[i].id && q.expenseId == rows[i].expenseId && q.isNew == rows[i].isNew
  {}

  /** `if (r.expenseId)`: present and not the empty string. */
  predicate Truthy(s: Option<string>) {
    s.Some? && s.value != ""
  }

  /** The item saved for row `i`: its `expenseId` when truthy, else the
      `i`-th newId id; its amount as a number; its category normalised. */
  function RowItem(r: GroupRow, i: nat, newId: nat -> string): (it: Item)
    ensures Truthy(r.expenseId) ==> it.id == r.expenseId
    ensures !Truthy(r.expenseId) ==> it.id == Some(newId(i))
    ensures it.amount == Some(RowValue(r.amount))
  {
    Item(Some(if Truthy(r.expenseId) then r.expenseId.value else newId(i)),
      Some(RowValue(r.amount)), Some(NormalizeCat(Some(r.category)).Key()))
  }

  /** The saved items: one per row not flagged for deletion, in row order. */
  function KeptItems(rows: seq<GroupRow>, pending: set<string>, newId: nat -> string): seq<Item> {
    KeepIndexed(rows, (r: GroupRow) => r.id !in pending, (r: GroupRow, i: nat) => RowItem(r, i, newId))
  }

  /** The item comes from a row not flagged for deletion. */
  ghost predicate SavedFrom(rows: seq<GroupRow>, pending: set<string>, newId: nat -> string, it: Item) {
    exists j :: 0 <= j < |rows| && rows[j].id !in pending && it == RowItem(rows[j], j, newId)
  }

  /** Every saved item comes from a row not flagged for deletion. */
  lemma KeptItemsSound(rows: seq<GroupRow>, pending: set<string>, newId: nat -> string)
    ensures forall it :: it in KeptItems(rows, pending, newId) ==> SavedFrom(rows, pending, newId, it)
  {
    forall it | it in KeptItems(rows, pending, newId) ensures SavedFrom(rows, pending, newId, it) {
      KeepIndexedSound(rows, (r: GroupRow) => r.id !in pending, (r: GroupRow, i: nat) => RowItem(r, i, newId), it);
    }
  }

  /** Every row not flagged for deletion is saved. */
  lemma KeptItemsComplete(rows: seq<GroupRow>, pending: set<string>, newId: nat -> string)
    ensures forall j :: 0 <= j < |rows| && rows[j].id !in pending ==> RowItem(rows[j], j, newId) in KeptItems(rows, pending, newId)
  {
    forall j | 0 <= j < |rows| && rows[j].id !in pending ensures RowItem(rows[j], j, newId) in KeptItems(rows, pending, newId) {
      KeepIndexedHas(rows, (r: GroupRow) => r.id !in pending, (r: GroupRow, i: nat) => RowItem(r, i, newId), j);
    }
  }

  /** Flagging every row saves nothing. */
  lemma AllFlaggedSavesNothing(rows: seq<GroupRow>, pending: set<string>, newId: nat -> string)
    requires forall j :: 0 <= j < |rows| ==> rows[j].id in pending
    ensures KeptItems(rows, pending, newId) == []
  {
    KeepIndexedNone(rows, (r: GroupRow) => r.id !in pending, (r: GroupRow, i: nat) => RowItem(r, i, newId));
  }

  /** The group list after saving `items` for `dateStr`: with no items the
      day's group is removed when present; otherwise the new group replaces
      it in place or is appended. */
  function SaveGroups(gs: seq<DayGroup>, dateStr: string, items: seq<Item>): (r: seq<DayGroup>)
    ensures items == [] && FindDate(gs, dateStr).None? ==> r == gs
    ensures items != [] && FindDate(gs, dateStr).None? ==> |r| == |gs| + 1
    ensures items != [] && FindDate(gs, dateStr).Some? ==> |r| == |gs|
    ensures items == [] && FindDate(gs, dateStr).Some? ==> |r| == |gs| - 1
  {
    var idx := FindDate(gs, dateStr);
    if items == [] then
      if idx.Some? then gs[..idx.value] + gs[idx.value + 1..] else gs
    else
      var g := DayGroup(dateStr, Some(items), Some(ItemsSum(items)));
      if idx.Some? then gs[idx.value := g] else gs + [g]
  }

  /** `saveChanges` on the list: build the kept items, then splice, assign
      or push. */
  method SaveChanges(gs: seq<DayGroup>, rows: seq<GroupRow>, pending: set<string>, dateStr: string, newId: nat -> string)
    returns (next: seq<DayGroup>)
    ensures next == SaveGroups(gs, dateStr, KeptItems(rows, pending, newId))
  {
    var items: seq<Item> := [];
    for i := 0 to |rows|
      invariant items == KeptItems(rows[..i], pending, newId)
    {
      var r := rows[i];
      KeepIndexedStep(rows, (r: GroupRow) => r.id !in pending, (r: GroupRow, i: nat) => RowItem(r, i, newId), i);
      if r.id !in pending {
        var id := if r.expenseId.Some? && r.expenseId.value != "" then r.expenseId.value else newId(i);
        items := items + [Item(Some(id), Some(RowValue(r.amount)), Some(NormalizeCat(Some(r.category)).Key()))];
      }
    }
    assert rows[..|rows|] == rows;
    var total := ItemsSum(items);
    var idx := FindDate(gs, dateStr);
    next := gs;
    if items == [] {
      if idx.Some? {
        next := next[..idx.value] + next[idx.value + 1..];
      }
    } else {
      var updated := DayGroup(dateStr, Some(items), Some(total));
      if idx.Some? {
        next := next[idx.value := updated];
      } else {
        next := next + [updated];
      }
    }
  }

  /** The groups dated other than `dateStr`, in order. */
  function OtherDates(gs: seq<DayGroup>, dateStr: string): seq<DayGroup> {
    Filter(gs, (g: DayGroup) => g.date != dateStr)
  }

  /** Saving a day leaves the groups of every other date as they were, in
      the same order. */
  lemma SaveKeepsOtherDates(gs: seq<DayGroup>, dateStr: string, items: seq<Item>)
    ensures OtherDates(SaveGroups(gs, dateStr, items), dateStr) == OtherDates(gs, dateStr)
  {
    var other := (g: DayGroup) => g.date != dateStr;
    var g := DayGroup(dateStr, Some(items), Some(ItemsSum(items)));
    match FindDate(gs, dateStr)
    case None =>
      if items != [] {
        FilterConcat(gs, [g], other);
        assert [g][..0] == [];
      }
    case Some(i) =>
      if items == [] {
        FilterRemoveAt(gs, other, i);
      } else {
        FilterReplaceAt(gs, other, i, g);
      }
  }

  /** With items left, the day's (first) group afterwards holds exactly those
      items and a total equal to their sum. */
  lemma SaveStoresDay(gs: seq<DayGroup>, dateStr: string, items: seq<Item>)
    requires items != []
    ensures var r := SaveGroups(gs, dateStr, items);
      && FindDate(r, dateStr).Some?
      && r[FindDate(r, dateStr).value] == DayGroup(dateStr, Some(items), Some(ItemsSum(items)))
      && GroupTotal(r[FindDate(r, dateStr).value]) == ItemsSum(items)
  {
    var r := SaveGroups(gs, dateStr, items);
    var idx := FindDate(gs, dateStr);
    var k := if idx.Some? then idx.value else |gs|;
    assert r[k].date == dateStr;
    var found := FindDate(r, dateStr);
    assert forall j :: 0 <= j < k ==> r[j] == gs[j];
    assert found.Some? && found.value == k;
  }

  function Dates(gs: seq<DayGroup>): (r: seq<string>)
    ensures |r| == |gs| && forall j :: 0 <= j < |gs| ==> r[j] == gs[j].date
  {
    seq(|gs|, j requires 0 <= j < |gs| => gs[j].date)
  }

  /** With no items left and one group per date, the day's group is gone. */
  lemma SaveEmptyRemovesDay(gs: seq<DayGroup>, dateStr: string)
    requires Distinct(Dates(gs))
    ensures FindDate(SaveGroups(gs, dateStr, []), dateStr).None?
  {
    var r := SaveGroups(gs, dateStr, []);
    match FindDate(gs, dateStr)
    case None =>
    case Some(i) =>
      forall j | 0 <= j < |r| ensures r[j].date != dateStr {
        if j < i {
          assert r[j] == gs[j] && Dates(gs)[j] != Dates(gs)[i];
        } else {
          assert r[j] == gs[j + 1] && Dates(gs)[i] != Dates(gs)[j + 1];
        }
      }
  }

  /** Saving keeps stored totals honest: if every group's total agreed with
      its items before, it does afterwards. */
  lemma SaveKeepsConsistent(gs: seq<DayGroup>, dateStr: string, items: seq<Item>)
    requires forall j :: 0 <= j < |gs| ==> Consistent(gs[j])
    ensures var r := SaveGroups(gs, dateStr, items);
      forall j :: 0 <= j < |r| ==> Consistent(r[j])
  {
    var r := SaveGroups(gs, dateStr, items);
    forall j | 0 <= j < |r| ensures Consistent(r[j]) {
      match FindDate(gs, dateStr)
      case None =>
        if j < |gs| { assert r[j] == gs[j]; }
      case Some(i) =>
        if items == [] {
          if j < i { assert r[j] == gs[j]; } else { assert r[j] == gs[j + 1]; }
        } else if j != i {
          assert r[j] == gs[j];
        }
    }
  }

  /** The editor's state: the day being edited (when open), its rows and the
      row ids flagged for deletion. */
  class GroupEditor {
    var editingDay: Option<int>
    var rows: seq<GroupRow>
    var pending: set<string>

    constructor()
      ensures editingDay.None? && rows == [] && pending == {}
    {
      editingDay := None;
      rows := [];
      pending := {};
    }

    /** `openEditor(day)`: nothing for a day that cannot be edited; otherwise
        one row per item of the day's group, and nothing flagged. */
    method OpenEditor(t: Today, year: int, month: int, day: int, gs: seq<DayGroup>, newId: nat -> string)
      modifies this
      ensures !CanEditDay(t, year, month, day) ==>
        editingDay == old(editingDay) && rows == old(rows) && pending == old(pending)
      ensures CanEditDay(t, year, month, day) ==>
        editingDay == Some(day) && rows == OpenRows(gs, ToYMD(year, month, day), newId) && pending == {}
    {
      if !CanEditDay(t, year, month, day) {
        return;
      }
      var dateStr := ToYMD(year, month, day);
      var idx := FindDate(gs, dateStr);
      var built: seq<GroupRow> := [];
      if idx.Some? && gs[idx.value].items.Some? {
        built := BuildRows(gs[idx.value].items.value, newId);
      }
      editingDay := Some(day);
      rows := built;
      pending := {};
    }

    /** `addRow`: refused while an editable-day check fails for the open day
        (a day of 0 or none skips the check, as `editingDay &&` does). */
    method AddRow(t: Today, year: int, month: int, freshId: string)
      modifies this
      ensures editingDay == old(editingDay) && pending == old(pending)
      ensures old(editingDay).Some? && old(editingDay).value != 0 && !CanEditDay(t, year, month, old(editingDay).value) ==>
        rows == old(rows)
      ensures !(old(editingDay).Some? && old(editingDay).value != 0 && !CanEditDay(t, year, month, old(editingDay).value)) ==>
        rows == old(rows) + [GroupRow(freshId, None, Num(0), "other", true)]
    {
      if editingDay.Some? && editingDay.value != 0 && !CanEditDay(t, year, month, editingDay.value) {
        return;
      }
      rows := rows + [GroupRow(freshId, None, Num(0), "other", true)];
    }

    method UpdateRow(id: string, p: RowPatch)
      modifies this
      ensures rows == PatchRows(old(rows), id, p)
      ensures editingDay == old(editingDay) && pending == old(pending)
    {
      rows := PatchRows(rows, id, p);
    }

    method ToggleDelete(id: string)
      modifies this
      ensures pending == Toggle(old(pending), id)
      ensures editingDay == old(editingDay) && rows == old(rows)
    {
      pending := Toggle(pending, id);
    }

    /** `saveChanges` then `closeEditor`; the rewritten list goes to the
        parent's callback when there is one. */
    method Save(gs: seq<DayGroup>, year: int, month: int, hasCallback: bool, newId: nat -> string)
      returns (out: Option<seq<DayGroup>>)
      requires editingDay.Some?
      modifies this
      ensures hasCallback ==> out == Some(SaveGroups(gs, ToYMD(year, month, old(editingDay).value),
        KeptItems(old(rows), old(pending), newId)))
      ensures !hasCallback ==> out.None?
      ensures editingDay.None? && rows == [] && pending == {}
    {
      if hasCallback {
        var next := SaveChanges(gs, rows, pending, ToYMD(year, month, editingDay.value), newId);
        out := Some(next);
      } else {
        out := None;
      }
      editingDay := None;
      rows := [];
      pending := {};
    }
  }
}
