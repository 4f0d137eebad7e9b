/** The analysis header: the years offered in the year picker, the twelve
    month options, and what the two pickers hand back. */
module HeaderControls {
  import opened Wrappers
  import opened DateText

  /** `MIN_YEAR`: no year before it is ever offered. */
  const MinYear := 2025

  /** `parseYMD(e.date).y` for every expense: a year, or None for NaN. */
  function DataYears(dates: seq<string>): (r: seq<Option<int>>)
    ensures |r| == |dates|
  {
    seq(|dates|, i requires 0 <= i < |dates| => ParseYMD(dates[i]).y)
  }

  predicate StrictlyAscending(s: seq<int>) {
    forall i, j :: 0 <= i < j < |s| ==> s[i] < s[j]
  }

  /** Puts `y` into an ascending list without repeats, unless it is already there. */
  function InsertYear(s: seq<int>, y: int): (r: seq<int>)
    requires StrictlyAscending(s)
    ensures StrictlyAscending(r)
    ensures forall x :: x in r <==> x in s || x == y
    decreases |s|
  {
    if s == [] then [y]
    else if y < s[0] then [y] + s
    else if y == s[0] then s
    else
      var t := InsertYear(s[1..], y);
      assert forall x :: x in t ==> s[0] < x;
      var r := [s[0]] + t;
      assert forall i, j :: 0 <= i < j < |r| ==> r[i] < r[j] by {
        forall i, j | 0 <= i < j < |r| ensures r[i] < r[j] {
          if i == 0 { assert r[j] == t[j - 1] && t[j - 1] in t; }
          else { assert r[i] == t[i - 1] && r[j] == t[j - 1]; }
        }
      }
      r
  }

  /** The candidate years `[...dataYears, currentYear, year]`, NaN included. */
  function Candidates(dataYears: seq<Option<int>>, currentYear: int, year: int): seq<Option<int>> {
    dataYears + [Some(currentYear), Some(year)]
  }

  /** `Array.from(new Set(...)).filter(y => y >= MIN_YEAR).sort((a, b) => a - b)`
      over the candidates: each year of at least `MinYear` once, ascending. */
  function YearsFrom(cands: seq<Option<int>>): (r: seq<int>)
    ensures StrictlyAscending(r)
  {
    if cands == [] then []
    else
      var rest := YearsFrom(cands[..|cands| - 1]);
      var c := cands[|cands| - 1];
      if c.Some? && c.value >= MinYear then InsertYear(rest, c.value) else rest
  }

  /** The offered years. */
  function Years(dataYears: seq<Option<int>>, currentYear: int, year: int): (r: seq<int>) {
    YearsFrom(Candidates(dataYears, currentYear, year))
  }

  /** A year is offered exactly when it is one of the candidates and not
      before `MinYear`. */
  lemma {:induction false} YearsFromMembers(cands: seq<Option<int>>, y: int)
    ensures y in YearsFrom(cands) <==> Some(y) in cands && y >= MinYear
    decreases |cands|
  {
    if cands != [] {
      var init := cands[..|cands| - 1];
      YearsFromMembers(init, y);
      assert cands == init + [cands[|cands| - 1]];
    }
  }

  lemma {:induction false} YearsFromAtLeastMin(cands: seq<Option<int>>)
    ensures forall y :: y in YearsFrom(cands) ==> y >= MinYear
  {
    forall y | y in YearsFrom(cands) ensures y >= MinYear {
      YearsFromMembers(cands, y);
    }
  }

  /** The offered years run strictly upwards (so no year twice), none is
      before `MinYear`, and they hold every data year, the current year and
      the selected year that is not before `MinYear` — and nothing else. */
  lemma YearsSpec(dataYears: seq<Option<int>>, currentYear: int, year: int)
    ensures StrictlyAscending(Years(dataYears, currentYear, year))
    ensures forall y :: y in Years(dataYears, currentYear, year) ==> y >= MinYear
    ensures forall y :: y in Years(dataYears, currentYear, year) <==>
      y >= MinYear && (Some(y) in dataYears || y == currentYear || y == year)
  {
    var cands := Candidates(dataYears, currentYear, year);
    YearsFromAtLeastMin(cands);
    forall y ensures y in Years(dataYears, currentYear, year) <==>
      y >= MinYear && (Some(y) in dataYears || y == currentYear || y == year) {
      YearsFromMembers(cands, y);
    }
  }

  /** `months`: the options 1 to 12 in order. */
  function Months(): (r: seq<int>)
    ensures |r| == 12 && forall i :: 0 <= i < 12 ==> r[i] == i + 1
  {
    seq(12, i => i + 1)
  }

  /** The month options are exactly the months 1..12. */
  lemma MonthsAreTheMonths(m: int)
    ensures m in Months() <==> 1 <= m <= 12
  {
    if 1 <= m <= 12 { assert Months()[m - 1] == m; }
  }

  /** `handleYearChange`: the picked year raised to at least `MinYear`
      (`Math.max` with NaN stays NaN), the month kept. */
  function YearChange(picked: Option<int>, month: int): (r: (Option<int>, int))
    ensures r.1 == month
    ensures picked.None? <==> r.0.None?
    ensures r.0.Some? ==> r.0.value >= MinYear && (picked.value >= MinYear ==> r.0.value == picked.value)
  {
    match picked
    case None => (None, month)
    case Some(v) => (Some(if v > MinYear then v else MinYear), month)
  }

  /** `handleMonthChange`: the picked month, the year kept. */
  function MonthChange(year: int, picked: Option<int>): (r: (int, Option<int>))
    ensures r.0 == year && r.1 == picked
  {
    (year, picked)
  }
}
