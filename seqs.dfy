/** Sequence helpers: sums that follow a left-to-right `reduce`, distinctness,
    and the stable sort `Array.prototype.sort` performs with a comparator. */
module Seqs {

  /** `s.reduce((a, x) => a + x, 0)`. */
  function Sum(s: seq<int>): int {
    if s == [] then 0 else Sum(s[..|s| - 1]) + s[|s| - 1]
  }

  lemma {:induction false} SumConcat(a: seq<int>, b: seq<int>)
    ensures Sum(a + b) == Sum(a) + Sum(b)
    decreases |b|
  {
    if b != [] {
      assert (a + b)[..|a + b| - 1] == a + b[..|b| - 1];
      SumConcat(a, b[..|b| - 1]);
    } else {
      assert a + b == a;
    }
  }

  lemma {:induction false} SumNonNegative(s: seq<int>)
    requires forall i :: 0 <= i < |s| ==> s[i] >= 0
    ensures Sum(s) >= 0
    decreases |s|
  {
    if s != [] { SumNonNegative(s[..|s| - 1]); }
  }

  lemma PrefixSnoc<T>(s: seq<T>, i: int)
    requires 0 <= i < |s|
    ensures s[..i + 1] == s[..i] + [s[i]]
    ensures s[..i + 1][..i] == s[..i]
  {}

  /** The last element and the rest of a concatenation with a non-empty
      right part. */
  lemma ConcatLast<T>(a: seq<T>, b: seq<T>)
    requires b != []
    ensures (a + b)[..|a + b| - 1] == a + b[..|b| - 1]
    ensures (a + b)[|a + b| - 1] == b[|b| - 1]
  {}

  lemma Split3<T>(s: seq<T>, j: int)
    requires 0 <= j < |s|
    ensures s == s[..j] + [s[j]] + s[j + 1..]
  {}

  lemma ConcatEmpty<T>(a: seq<T>)
    ensures a + [] == a
  {}

  /** The lists `f` gives for the elements of `s`, one after another. */
  function FlatMap<A, B>(s: seq<A>, f: A -> seq<B>): seq<B> {
    if s == [] then [] else FlatMap(s[..|s| - 1], f) + f(s[|s| - 1])
  }

  lemma FlatMapPrefix<A, B>(s: seq<A>, j: int, f: A -> seq<B>)
    requires 0 <= j < |s|
    ensures FlatMap(s[..j + 1], f) == FlatMap(s[..j], f) + f(s[j])
  {
    PrefixSnoc(s, j);
  }

  lemma {:induction false} FlatMapConcat<A, B>(a: seq<A>, b: seq<A>, f: A -> seq<B>)
    ensures FlatMap(a + b, f) == FlatMap(a, f) + FlatMap(b, f)
    decreases |b|
  {
    if b == [] {
      ConcatEmpty(a);
      ConcatEmpty(FlatMap(a, f));
    } else {
      ConcatLast(a, b);
      FlatMapConcat(a, b[..|b| - 1], f);
    }
  }

  /** Element `i` of the list of `s[j]` sits right after the lists of the
      elements before `s[j]`. */
  lemma FlatMapAt<A, B>(s: seq<A>, f: A -> seq<B>, j: int, i: int)
    requires 0 <= j < |s| && 0 <= i < |f(s[j])|
    ensures |FlatMap(s[..j], f)| + i < |FlatMap(s, f)|
    ensures FlatMap(s, f)[|FlatMap(s[..j], f)| + i] == f(s[j])[i]
  {
    Split3(s, j);
    FlatMapConcat(s[..j] + [s[j]], s[j + 1..], f);
    FlatMapPrefix(s, j, f);
    assert s[..j + 1] == s[..j] + [s[j]];
  }

  /** Lists of the same lengths flatten to lists of the same length. */
  lemma {:induction false} FlatMapLength<A, B, C>(s: seq<A>, f: A -> seq<B>, g: A -> seq<C>)
    requires forall x :: |f(x)| == |g(x)|
    ensures |FlatMap(s, f)| == |FlatMap(s, g)|
    decreases |s|
  {
    if s != [] { FlatMapLength(s[..|s| - 1], f, g); }
  }

  /** `[f(0), ..., f(n - 1)]`, built one element at a time. */
  function Tabulate<T>(n: nat, f: nat -> T): seq<T> {
    if n == 0 then [] else Tabulate(n - 1, f) + [f(n - 1)]
  }

  lemma {:induction false} TabulateAt<T>(n: nat, f: nat -> T)
    ensures |Tabulate(n, f)| == n
    ensures forall i :: 0 <= i < n ==> Tabulate(n, f)[i] == f(i)
  {
    if n > 0 {
      TabulateAt(n - 1, f);
    }
  }

  /** `f(x, i)` for every element `x` (at index `i`) that `keep` accepts, in order. */
  function KeepIndexed<T, U>(xs: seq<T>, keep: T -> bool, f: (T, nat) -> U): (r: seq<U>)
    ensures |r| <= |xs|
  {
    if xs == [] then []
    else
      var k := |xs| - 1;
      KeepIndexed(xs[..k], keep, f) + (if keep(xs[k]) then [f(xs[k], k)] else [])
  }

  lemma KeepIndexedStep<T, U>(xs: seq<T>, keep: T -> bool, f: (T, nat) -> U, i: int)
    requires 0 <= i < |xs|
    ensures KeepIndexed(xs[..i + 1], keep, f)
      == KeepIndexed(xs[..i], keep, f) + (if keep(xs[i]) then [f(xs[i], i)] else [])
  {
    PrefixSnoc(xs, i);
  }

  /** Every accepted element contributes. */
  lemma {:induction false} KeepIndexedHas<T, U>(xs: seq<T>, keep: T -> bool, f: (T, nat) -> U, j: int)
    requires 0 <= j < |xs| && keep(xs[j])
    ensures f(xs[j], j) in KeepIndexed(xs, keep, f)
    decreases |xs|
  {
    var k := |xs| - 1;
    var init := xs[..k];
    if j < k {
      assert init[j] == xs[j];
      KeepIndexedHas(init, keep, f, j);
    }
  }

  /** Only accepted elements contribute. */
  lemma {:induction false} KeepIndexedSound<T, U>(xs: seq<T>, keep: T -> bool, f: (T, nat) -> U, u: U)
    requires u in KeepIndexed(xs, keep, f)
    ensures exists j :: 0 <= j < |xs| && keep(xs[j]) && u == f(xs[j], j)
    decreases |xs|
  {
    var k := |xs| - 1;
    var init := xs[..k];
    if u in KeepIndexed(init, keep, f) {
      KeepIndexedSound(init, keep, f, u);
      var j :| 0 <= j < k && keep(init[j]) && u == f(init[j], j);
      assert init[j] == xs[j];
    } else {
      assert keep(xs[k]) && u == f(xs[k], k);
    }
  }

  /** When no element is accepted, nothing is kept. */
  lemma {:induction false} KeepIndexedNone<T, U>(xs: seq<T>, keep: T -> bool, f: (T, nat) -> U)
    requires forall j :: 0 <= j < |xs| ==> !keep(xs[j])
    ensures KeepIndexed(xs, keep, f) == []
    decreases |xs|
  {
    if xs != [] {
      KeepIndexedNone(xs[..|xs| - 1], keep, f);
    }
  }

  /** The elements that pass `p`, in order. */
  function Filter<T>(s: seq<T>, p: T -> bool): seq<T> {
    if s == [] then [] else Filter(s[..|s| - 1], p) + (if p(s[|s| - 1]) then [s[|s| - 1]] else [])
  }

  /** Filtering keeps exactly the passing elements, and keeps them distinct. */
  lemma {:induction false} FilterSpec<T>(s: seq<T>, p: T -> bool)
    ensures forall x :: x in Filter(s, p) <==> x in s && p(x)
    ensures Distinct(s) ==> Distinct(Filter(s, p))
    decreases |s|
  {
    if s != [] {
      var init, x := s[..|s| - 1], s[|s| - 1];
      FilterSpec(init, p);
      assert s == init + [x];
      assert Distinct(s) ==> x !in init;
    }
  }

  lemma {:induction false} FilterConcat<T>(a: seq<T>, b: seq<T>, p: T -> bool)
    ensures Filter(a + b, p) == Filter(a, p) + Filter(b, p)
    decreases |b|
  {
    if b == [] {
      ConcatEmpty(a);
    } else {
      ConcatLast(a, b);
      FilterConcat(a, b[..|b| - 1], p);
    }
  }

  /** Removing an element the filter drops changes nothing. */
  lemma FilterRemoveAt<T>(s: seq<T>, p: T -> bool, i: int)
    requires 0 <= i < |s| && !p(s[i])
    ensures Filter(s[..i] + s[i + 1..], p) == Filter(s, p)
  {
    var pre, post, x := s[..i], s[i + 1..], s[i];
    assert s == (pre + [x]) + post;
    FilterConcat(pre + [x], post, p);
    FilterConcat(pre, [x], p);
    assert Filter([x], p) == [] by {
      assert [x][..0] == [];
    }
    ConcatEmpty(Filter(pre, p));
    FilterConcat(pre, post, p);
  }

  /** Replacing one dropped element by another changes nothing. */
  lemma FilterReplaceAt<T>(s: seq<T>, p: T -> bool, i: int, x: T)
    requires 0 <= i < |s| && !p(s[i]) && !p(x)
    ensures Filter(s[i := x], p) == Filter(s, p)
  {
    var pre, post := s[..i], s[i + 1..];
    assert s[i := x] == pre + [x] + post;
    FilterRemoveAt(s, p, i);
    FilterRemoveAt(s[i := x], p, i);
    assert s[i := x][..i] == pre && s[i := x][i + 1..] == post;
  }

  predicate Distinct<T(==)>(s: seq<T>) {
    forall i, j :: 0 <= i < j < |s| ==> s[i] != s[j]
  }

  /** A list with no repeats counts each element at most once. */
  lemma {:induction false} DistinctCounts<T>(s: seq<T>)
    requires Distinct(s)
    ensures forall x :: multiset(s)[x] <= 1
    decreases |s|
  {
    if s != [] {
      var init := s[..|s| - 1];
      assert s == init + [s[|s| - 1]];
      DistinctCounts(init);
      assert s[|s| - 1] !in init by {
        forall k | 0 <= k < |init| ensures init[k] != s[|s| - 1] { assert init[k] == s[k]; }
      }
    }
  }

  /** A rearrangement of a list without repeats has no repeats. */
  lemma DistinctPermutation<T>(a: seq<T>, b: seq<T>)
    requires Distinct(a) && multiset(a) == multiset(b)
    ensures Distinct(b)
  {
    DistinctCounts(a);
    forall i, j | 0 <= i < j < |b| ensures b[i] != b[j] {
      RepeatCounts(b, i, j);
    }
  }

  lemma RepeatCounts<T>(b: seq<T>, i: int, j: int)
    requires 0 <= i < j < |b|
    ensures b[i] == b[j] ==> multiset(b)[b[j]] >= 2
  {
    assert b == b[..j] + [b[j]] + b[j + 1..];
    assert b[i] in b[..j];
  }

  /** `le` orders every pair and is transitive: what a sort comparator must be. */
  ghost predicate TotalPreorder<T(!new)>(le: (T, T) -> bool) {
    && (forall a, b :: le(a, b) || le(b, a))
    && (forall a, b, c :: le(a, b) && le(b, c) ==> le(a, c))
  }

  predicate SortedBy<T>(s: seq<T>, le: (T, T) -> bool) {
    forall i, j :: 0 <= i < j < |s| ==> le(s[i], s[j])
  }

  /** Inserts `x` after every element not strictly greater, so equal elements
      keep their input order. */
  function Insert<T(==)>(x: T, s: seq<T>, le: (T, T) -> bool): (r: seq<T>)
    ensures |r| == |s| + 1 && multiset(r) == multiset(s) + multiset{x}
  {
    if s == [] then [x]
    else if le(x, s[0]) && !le(s[0], x) then [x] + s
    else
      var r := [s[0]] + Insert(x, s[1..], le);
      assert s == [s[0]] + s[1..];
      r
  }

  /** A stable sort of `s` by `le`: the input's elements, in order. */
  function SortBy<T(==)>(s: seq<T>, le: (T, T) -> bool): (r: seq<T>)
    ensures |r| == |s| && multiset(r) == multiset(s)
  {
    if s == [] then []
    else
      assert s == s[..|s| - 1] + [s[|s| - 1]];
      Insert(s[|s| - 1], SortBy(s[..|s| - 1], le), le)
  }

  lemma {:induction false} InsertSorted<T(!new)>(x: T, s: seq<T>, le: (T, T) -> bool)
    requires TotalPreorder(le) && SortedBy(s, le)
    ensures SortedBy(Insert(x, s, le), le)
    decreases |s|
  {
    if s != [] && !(le(x, s[0]) && !le(s[0], x)) {
      InsertSorted(x, s[1..], le);
      var t := Insert(x, s[1..], le);
      assert le(s[0], x);
      assert forall k :: 0 <= k < |t| ==> le(s[0], t[k]) by {
        forall k | 0 <= k < |t| ensures le(s[0], t[k]) {
          assert t[k] in multiset(t);
          assert t[k] in multiset(s[1..]) + multiset{x};
          if t[k] != x {
            assert t[k] in s[1..];
          }
        }
      }
    }
  }

  /** The sort's output is ordered by `le`. */
  lemma {:induction false} SortBySorted<T(!new)>(s: seq<T>, le: (T, T) -> bool)
    requires TotalPreorder(le)
    ensures SortedBy(SortBy(s, le), le)
    decreases |s|
  {
    if s != [] {
      SortBySorted(s[..|s| - 1], le);
      InsertSorted(s[|s| - 1], SortBy(s[..|s| - 1], le), le);
    }
  }
}
