/** Calendar dates as the `YYYY-MM-DD` strings the client stores and the
    `(year, month, day)` triples its `Date` objects stand for. */
module DateText {
  import opened Wrappers
  import opened Text
  import opened Seqs

  /** A calendar date; `month` is 1..12, as written in the date strings. */
  datatype Date = Date(year: int, month: int, day: int)

  /** Chronological order of calendar dates (what comparing two local-midnight
      `Date` objects gives). */
  predicate DateLe(a: Date, b: Date) {
    a.year < b.year || (a.year == b.year && (a.month < b.month || (a.month == b.month && a.day <= b.day)))
  }

  predicate DateLt(a: Date, b: Date) {
    DateLe(a, b) && a != b
  }

  lemma DateLeTransitive(a: Date, b: Date, c: Date)
    requires DateLe(a, b) && DateLe(b, c)
    ensures DateLe(a, c)
  {}

  predicate IsLeapYear(y: int) {
    (y % 4 == 0 && y % 100 != 0) || y % 400 == 0
  }

  /** `new Date(y, m, 0).getDate()`: the number of days of month `m` (1..12). */
  function DaysInMonth(y: int, m: int): (n: int)
    requires 1 <= m <= 12
    ensures 28 <= n <= 31
    ensures m == 2 ==> (n == 29 <==> IsLeapYear(y))
  {
    if m == 2 then (if IsLeapYear(y) then 29 else 28)
    else if m == 4 || m == 6 || m == 9 || m == 11 then 30
    else 31
  }

  predicate ValidDate(d: Date) {
    1 <= d.month <= 12 && 1 <= d.day <= DaysInMonth(d.year, d.month)
  }

  /** `String(n).padStart(2, "0")`. */
  function Pad2(n: int): (s: string)
    ensures |s| >= 2
  {
    var t := IntToString(n);
    if |t| < 2 then "0" + t else t
  }

  /** For 0..99 the padded text is two digits that read back as `n`. */
  lemma Pad2Reads(n: int)
    requires 0 <= n < 100
    ensures |Pad2(n)| == 2 && AllDigits(Pad2(n)) && ParseDigits(Pad2(n)) == n
  {
    var t := NatToString(n);
    ParseNatToString(n);
    if |t| < 2 { ParseLeadingZero(t); }
    else { assert t == NatToString(n / 10) + [DigitChar(n % 10)]; }
  }

  /** `${y}-${pad2(m)}-${pad2(d)}`: the client's date string. */
  function ToYMD(y: int, m: int, d: int): string {
    IntToString(y) + "-" + Pad2(m) + "-" + Pad2(d)
  }

  /** The numbers `s.split("-").map(Number)` yields for year, month and day,
      None standing for a value no number equals: NaN, or the `undefined` of a
      part the split did not produce. The two differ only as `Map` keys, where
      `PartKey` keeps them apart. */
  datatype YMD = YMD(y: Option<int>, m: Option<int>, d: Option<int>)

  function Part(parts: seq<string>, i: nat): Option<int> {
    if i < |parts| then JsNumber(parts[i]) else None
  }

  /** `parseYMD(s)` as the client writes it: split on "-" and read each part. */
  function ParseYMD(s: string): YMD {
    var parts := Split(s, '-');
    YMD(Part(parts, 0), Part(parts, 1), Part(parts, 2))
  }

  /** A date part used as a `Map` key: `undefined` when the split produced no
      such part, NaN when `Number` cannot read it, otherwise the number. A `Map`
      compares keys by SameValueZero, so `undefined` and NaN are two keys. */
  datatype PartKey = Undefined | NotANumber | DayNum(n: int)

  /** The key of part `i` of the split. */
  function KeyOfPart(parts: seq<string>, i: nat): PartKey {
    if i >= |parts| then Undefined
    else match JsNumber(parts[i])
      case Some(n) => DayNum(n)
      case None => NotANumber
  }

  /** The day of `s.split("-").map(Number)` as a `Map` key. */
  function DayPartKey(s: string): PartKey {
    KeyOfPart(Split(s, '-'), 2)
  }

  /** The key carries the day `parseYMD` reads: a number exactly when the day
      is one, and otherwise `undefined` exactly when there is no third part. */
  lemma DayPartKeySpec(s: string)
    ensures DayPartKey(s).DayNum? <==> ParseYMD(s).d.Some?
    ensures DayPartKey(s).DayNum? ==> DayPartKey(s).n == ParseYMD(s).d.value
    ensures DayPartKey(s) == Undefined <==> |Split(s, '-')| < 3
  {}

  /** A formatted date's key is its day. */
  lemma DayPartKeyOfYMD(y: nat, m: int, d: int)
    requires 1 <= m <= 12 && 1 <= d <= 31
    ensures DayPartKey(ToYMD(y, m, d)) == DayNum(d)
  {
    ParseToYMD(y, m, d);
    DayPartKeySpec(ToYMD(y, m, d));
  }

  /** A date without a day part and one whose day is not a number read the
      same day (no number) but are two different keys. */
  lemma MissingAndNaNDayDiffer(y: string, m: string, d: string)
    requires '-' !in y && '-' !in m && '-' !in d && JsNumber(d).None?
    ensures ParseYMD(y + "-" + m).d == ParseYMD(y + "-" + m + "-" + d).d == None
    ensures DayPartKey(y + "-" + m) == Undefined && DayPartKey(y + "-" + m + "-" + d) == NotANumber
  {
    SplitNoSep(m, '-');
    SplitNoSep(d, '-');
    SplitCons(y, '-', m);
    SplitCons(m, '-', d);
    assert y + "-" + m + "-" + d == y + ['-'] + (m + ['-'] + d);
    SplitCons(y, '-', m + ['-'] + d);
  }

  /** A date string the client formats reads back as the same numbers. */
  lemma ParseToYMD(y: nat, m: int, d: int)
    requires 1 <= m <= 12 && 1 <= d <= 31
    ensures ParseYMD(ToYMD(y, m, d)) == YMD(Some(y), Some(m), Some(d))
  {
    var ys, ms, ds := IntToString(y), Pad2(m), Pad2(d);
    SplitYMD(y, m, d);
    Pad2Reads(m);
    Pad2Reads(d);
    JsNumberOfInt(y);
    DigitsNumber(ms);
    DigitsNumber(ds);
  }

  /** Splitting a formatted date on "-" gives its three fields. */
  lemma SplitYMD(y: nat, m: int, d: int)
    requires 1 <= m <= 12 && 1 <= d <= 31
    ensures Split(ToYMD(y, m, d), '-') == [IntToString(y), Pad2(m), Pad2(d)]
  {
    var ys, ms, ds := IntToString(y), Pad2(m), Pad2(d);
    Pad2Reads(m);
    Pad2Reads(d);
    assert '-' !in ys && '-' !in ms && '-' !in ds by {
      assert AllDigits(ys) && AllDigits(ms) && AllDigits(ds);
    }
    assert ToYMD(y, m, d) == ys + ['-'] + (ms + ['-'] + ds);
    SplitCons(ys, '-', ms + ['-'] + ds);
    SplitCons(ms, '-', ds);
    SplitNoSep(ds, '-');
  }

  /** `Number` of a non-empty digit string is its decimal value. */
  lemma DigitsNumber(s: string)
    requires s != [] && AllDigits(s)
    ensures JsNumber(s) == Some(ParseDigits(s))
  {
    assert NoSpace(s);
    TrimNoSpace(s);
  }

  /** `YYYY-MM-DD` has exactly ten characters for four-digit years. */
  lemma ToYMDLength(y: int, m: int, d: int)
    requires 1000 <= y <= 9999 && 1 <= m <= 12 && 1 <= d <= 31
    ensures |ToYMD(y, m, d)| == 10
  {
    Pad2Reads(m);
    Pad2Reads(d);
    assert y / 10 >= 10 && y / 100 >= 10 && y / 1000 < 10;
    var s := NatToString(y);
    assert |NatToString(y / 1000)| == 1;
    assert s == NatToString(y / 10) + [DigitChar(y % 10)];
    assert NatToString(y / 10) == NatToString(y / 100) + [DigitChar((y / 10) % 10)];
    assert NatToString(y / 100) == NatToString(y / 1000) + [DigitChar((y / 100) % 10)];
  }

  /** `(a, b) => a.date.localeCompare(b.date)` for records whose date text
      `dateOf` reads, as a "sorts no later than". */
  function ByDate<T>(dateOf: T -> string): (T, T) -> bool {
    (a: T, b: T) => LexLe(dateOf(a), dateOf(b))
  }

  /** Comparing date texts is a total preorder, so sorting by it is well defined. */
  lemma ByDatePreorder<T(!new)>(dateOf: T -> string)
    ensures TotalPreorder(ByDate(dateOf))
  {
    var le := ByDate(dateOf);
    forall a: T, b: T ensures le(a, b) || le(b, a) {
      LexLeTotal(dateOf(a), dateOf(b));
    }
    forall a: T, b: T, c: T | le(a, b) && le(b, c) ensures le(a, c) {
      LexLeTransitive(dateOf(a), dateOf(b), dateOf(c));
    }
  }

  /** Sorting by date text leaves the date texts in ascending order. */
  lemma SortByDateOrdered<T(!new)>(s: seq<T>, dateOf: T -> string)
    ensures var r := SortBy(s, ByDate(dateOf));
      forall i, j :: 0 <= i < j < |r| ==> LexLe(dateOf(r[i]), dateOf(r[j]))
  {
    ByDatePreorder(dateOf);
    SortBySorted(s, ByDate(dateOf));
    var r := SortBy(s, ByDate(dateOf));
    forall i, j | 0 <= i < j < |r| ensures LexLe(dateOf(r[i]), dateOf(r[j])) {
      assert ByDate(dateOf)(r[i], r[j]);
    }
  }
}
