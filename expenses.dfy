/** What both expense analysis views share: the six category keys and the
    substring classification into them, the records of a day group, the
    numeric reading of amounts, and the pending-delete set of the day editor. */
module Expenses {
  import opened Wrappers
  import opened Text

  /** The six keys of `emptyCats`. */
  datatype Category = MutualFund | Stock | Shopping | Grocery | RentBills | Other {
    function Key(): string {
      match this
      case MutualFund => "mutualFund"
      case Stock => "stock"
      case Shopping => "shopping"
      case Grocery => "grocery"
      case RentBills => "rentBills"
      case Other => "other"
    }
  }

  const AllCategories: seq<Category> := [MutualFund, Stock, Shopping, Grocery, RentBills, Other]

  /** `String(c || "other").toLowerCase()`: a missing or empty category reads
      as "other". */
  function LoweredCat(c: Option<string>): string {
    if c.None? || c.value == "" then "other" else ToLower(c.value)
  }

  /** `normalizeCat(c)`: the first of the substring tests that matches the
      lower-cased text decides, "other" when none does. */
  function NormalizeCat(c: Option<string>): Category {
    var s := LoweredCat(c);
    if Contains(s, "mutual") then MutualFund
    else if Contains(s, "stock") then Stock
    else if Contains(s, "shop") then Shopping
    else if Contains(s, "groc") then Grocery
    else if Contains(s, "rent") || Contains(s, "bill") then RentBills
    else Other
  }

  /** Text mentioning "mutual" is a mutual fund whatever else it mentions, and
      text that falls through to "other" mentions none of the tested words. */
  lemma NormalizeCatSpec(c: Option<string>)
    ensures NormalizeCat(c) == MutualFund <==> Contains(LoweredCat(c), "mutual")
    ensures NormalizeCat(c) == Other ==>
      && !Contains(LoweredCat(c), "mutual") && !Contains(LoweredCat(c), "stock")
      && !Contains(LoweredCat(c), "shop") && !Contains(LoweredCat(c), "groc")
      && !Contains(LoweredCat(c), "rent") && !Contains(LoweredCat(c), "bill")
    ensures Contains(LoweredCat(c), "stock") && !Contains(LoweredCat(c), "mutual") ==> NormalizeCat(c) == Stock
  {}

  /** Every key classifies as itself, so normalising a normalised category
      changes nothing. */
  lemma NormalizeCatKey(c: Category)
    ensures NormalizeCat(Some(c.Key())) == c
  {
    match c
    case MutualFund => KeyLowered("mutualFund", "mutualfund"); assert OccursAt("mutualfund", "mutual", 0);
    case Stock => KeyLowered("stock", "stock"); assert OccursAt("stock", "stock", 0);
    case Shopping => ShoppingKey();
    case Grocery => GroceryKey();
    case RentBills => RentBillsKey();
    case Other => OtherKey();
  }

  lemma ShoppingKey()
    ensures NormalizeCat(Some("shopping")) == Shopping
  {
    KeyLowered("shopping", "shopping"); ClassifiesShopping();
  }

  lemma GroceryKey()
    ensures NormalizeCat(Some("grocery")) == Grocery
  {
    KeyLowered("grocery", "grocery"); ClassifiesGrocery();
  }

  lemma RentBillsKey()
    ensures NormalizeCat(Some("rentBills")) == RentBills
  {
    KeyLowered("rentBills", "rentbills"); ClassifiesRentBills();
  }

  lemma OtherKey()
    ensures NormalizeCat(Some("other")) == Other
  {
    KeyLowered("other", "other"); ClassifiesOther();
  }

  lemma KeyLowered(key: string, low: string)
    requires |key| == |low| && forall i :: 0 <= i < |key| ==> LowerChar(key[i]) == low[i]
    requires key != ""
    ensures LoweredCat(Some(key)) == low
  {}

  /** The substring tests on the lower-cased keys that need a proof. */
  lemma ClassifiesShopping()
    ensures !Contains("shopping", "mutual") && !Contains("shopping", "stock") && Contains("shopping", "shop")
  {
    assert OccursAt("shopping", "shop", 0);
    NotContains("shopping", "mutual", 0); NotContains("shopping", "stock", 1);
  }

  lemma ClassifiesGrocery()
    ensures !Contains("grocery", "mutual") && !Contains("grocery", "stock") && !Contains("grocery", "shop")
    ensures Contains("grocery", "groc")
  {
    assert OccursAt("grocery", "groc", 0);
    NotContains("grocery", "mutual", 0); NotContains("grocery", "stock", 0); NotContains("grocery", "shop", 0);
  }

  lemma ClassifiesRentBills()
    ensures !Contains("rentbills", "mutual") && !Contains("rentbills", "stock") && !Contains("rentbills", "shop")
    ensures !Contains("rentbills", "groc") && Contains("rentbills", "rent")
  {
    RentBillsMissesInvestments();
    RentBillsMissesShopping();
    RentBillsHasRent();
  }

  lemma RentBillsMissesInvestments()
    ensures !Contains("rentbills", "mutual") && !Contains("rentbills", "stock")
  {
    NotContains("rentbills", "mutual", 0); NotContains("rentbills", "stock", 2);
  }

  lemma RentBillsMissesShopping()
    ensures !Contains("rentbills", "shop") && !Contains("rentbills", "groc")
  {
    NotContains("rentbills", "shop", 1); NotContains("rentbills", "groc", 0);
  }

  lemma RentBillsHasRent()
    ensures Contains("rentbills", "rent")
  {
    assert OccursAt("rentbills", "rent", 0);
  }

  lemma ClassifiesOther()
    ensures !Contains("other", "mutual") && !Contains("other", "stock") && !Contains("other", "shop")
    ensures !Contains("other", "groc") && !Contains("other", "rent") && !Contains("other", "bill")
  {
    NotContains("other", "mutual", 0); NotContains("other", "stock", 0); NotContains("other", "shop", 0);
    NotContains("other", "groc", 0); NotContains("other", "rent", 2); NotContains("other", "bill", 0);
  }

  /** A pattern with a letter the text lacks does not occur in it. */
  lemma NotContains(s: string, pat: string, k: int)
    requires 0 <= k < |pat| && pat[k] !in s
    ensures !Contains(s, pat)
  {
    ContainsSpec(s, pat);
  }

  lemma LowerCharIdempotent(c: char)
    ensures LowerChar(LowerChar(c)) == LowerChar(c)
  {}

  /** The classification ignores ASCII case. */
  lemma NormalizeCatIgnoresCase(s: string)
    ensures NormalizeCat(Some(ToLower(s))) == NormalizeCat(Some(s))
  {
    if s != [] {
      var t := ToLower(s);
      forall i | 0 <= i < |s| ensures ToLower(t)[i] == t[i] {
        LowerCharIdempotent(s[i]);
      }
      assert ToLower(t) == t;
    }
  }

  /** `Number(x) || 0`: NaN (and a missing amount) reads as 0. */
  function AmountOr0(a: Option<int>): int {
    a.GetOr(0)
  }

  /** An editor row's amount: the number it was opened with, or the text
      typed into its input since. */
  datatype RowAmount = Num(n: int) | Text(t: string)

  /** `Number(r.amount) || 0`. */
  function RowValue(a: RowAmount): int {
    match a
    case Num(n) => n
    case Text(t) => JsNumber(t).GetOr(0)
  }

  /** Typing a number's decimal text into a row gives that number; clearing
      the input gives 0. */
  lemma RowValueTyped(n: int)
    ensures RowValue(Text(IntToString(n))) == n == RowValue(Num(n))
    ensures RowValue(Text("")) == 0
  {
    JsNumberOfInt(n);
    JsNumberBlank("");
  }

  /** The patches an editor row's inputs apply through `updateRow`. */
  datatype RowPatch = SetAmount(text: string) | SetCategory(cat: string)

  /** An item of a day group: `{ id, amount, category }`, each possibly missing. */
  datatype Item = Item(id: Option<string>, amount: Option<int>, category: Option<string>)

  /** A day group: its date string, its items (`g.items || []`), and its
      stored `total` when that is a number. */
  datatype DayGroup = DayGroup(date: string, items: Option<seq<Item>>, total: Option<int>)

  function ItemsOf(g: DayGroup): seq<Item> {
    g.items.GetOr([])
  }

  /** `items.reduce((s, it) => s + (Number(it.amount) || 0), 0)`. */
  function ItemsSum(items: seq<Item>): int {
    if items == [] then 0 else ItemsSum(items[..|items| - 1]) + AmountOr0(items[|items| - 1].amount)
  }

  lemma {:induction false} ItemsSumConcat(a: seq<Item>, b: seq<Item>)
    ensures ItemsSum(a + b) == ItemsSum(a) + ItemsSum(b)
    decreases |b|
  {
    if b != [] {
      assert (a + b)[..|a + b| - 1] == a + b[..|b| - 1];
      assert (a + b)[|a + b| - 1] == b[|b| - 1];
      ItemsSumConcat(a, b[..|b| - 1]);
    } else {
      assert a + b == a;
    }
  }

  /** A group's contribution to a total: its numeric `total` when present,
      else the sum of its items. */
  function GroupTotal(g: DayGroup): (t: int)
    ensures g.total.None? ==> t == ItemsSum(ItemsOf(g))
    ensures g.total.Some? ==> t == g.total.value
  {
    if g.total.Some? then g.total.value else ItemsSum(ItemsOf(g))
  }

  /** The sum of the items of `items` in category `c`. */
  function CatSum(items: seq<Item>, c: Category): int {
    if items == [] then 0
    else
      var last := items[|items| - 1];
      CatSum(items[..|items| - 1], c) + (if NormalizeCat(last.category) == c then AmountOr0(last.amount) else 0)
  }

  lemma ItemsSumSnoc(items: seq<Item>, it: Item)
    ensures ItemsSum(items + [it]) == ItemsSum(items) + AmountOr0(it.amount)
  {
    assert (items + [it])[..|items|] == items;
  }

  lemma CatSumSnoc(items: seq<Item>, it: Item, c: Category)
    ensures CatSum(items + [it], c) == CatSum(items, c) + (if NormalizeCat(it.category) == c then AmountOr0(it.amount) else 0)
  {
    assert (items + [it])[..|items|] == items;
  }

  /** The six per-category sums of `items`, added up. */
  function SumOverCats(items: seq<Item>): int {
    CatSum(items, MutualFund) + CatSum(items, Stock) + CatSum(items, Shopping)
      + CatSum(items, Grocery) + CatSum(items, RentBills) + CatSum(items, Other)
  }

  /** Every item lands in exactly one category, so the category sums add up
      to the item sum. */
  lemma {:induction false} CatSumsAddUp(items: seq<Item>)
    ensures SumOverCats(items) == ItemsSum(items)
    decreases |items|
  {
    if items != [] {
      CatSumsAddUp(items[..|items| - 1]);
    }
  }

  /** Category totals held as the six-key object `emptyCats` starts as. */
  type CatTotals = map<Category, int>

  const ZeroCats: CatTotals :=
    map[MutualFund := 0, Stock := 0, Shopping := 0, Grocery := 0, RentBills := 0, Other := 0]

  predicate HasAllCats(m: CatTotals) {
    forall c: Category :: c in m
  }

  /** `emptyCats()` has all six keys, each at 0. */
  lemma ZeroCatsComplete()
    ensures HasAllCats(ZeroCats) && TotalOfCats(ZeroCats) == 0 && forall c :: ZeroCats[c] == 0
  {
    forall c: Category ensures c in ZeroCats && ZeroCats[c] == 0 {
      match c
      case MutualFund => case Stock => case Shopping => case Grocery => case RentBills => case Other =>
    }
  }

  function TotalOfCats(m: CatTotals): int
    requires HasAllCats(m)
  {
    m[MutualFund] + m[Stock] + m[Shopping] + m[Grocery] + m[RentBills] + m[Other]
  }

  /** Category totals that hold the sums of `items`, with one more item's
      amount added to its category, hold the sums of the longer list. */
  lemma AddToCats(cat: CatTotals, items: seq<Item>, it: Item)
    requires HasAllCats(cat) && forall c :: cat[c] == CatSum(items, c)
    ensures var k := NormalizeCat(it.category);
      var cat' := cat[k := cat[k] + AmountOr0(it.amount)];
      HasAllCats(cat') && forall c :: cat'[c] == CatSum(items + [it], c)
  {
    forall c ensures CatSum(items + [it], c) == CatSum(items, c) + (if NormalizeCat(it.category) == c then AmountOr0(it.amount) else 0) {
      CatSumSnoc(items, it, c);
    }
  }

  /** `toggleDelete(id)`: add the id when absent, remove it when present. */
  function Toggle(pending: set<string>, id: string): (r: set<string>)
    ensures id in r <==> id !in pending
    ensures forall x :: x != id ==> (x in r <==> x in pending)
  {
    if id in pending then pending - {id} else pending + {id}
  }

  /** Toggling the same id twice restores the pending set. */
  lemma ToggleTwice(pending: set<string>, id: string)
    ensures Toggle(Toggle(pending, id), id) == pending
  {
    var r := Toggle(Toggle(pending, id), id);
    assert forall x :: x in r <==> x in pending;
  }
}
