/** A JavaScript `Map` used as an accumulator: its entries in insertion order.
    `set` on a present key replaces the value where it stands; on a new key it
    appends. */
module OrderedMap {
  import opened Wrappers
  import opened Seqs

  function Keys<K, V>(m: seq<(K, V)>): (ks: seq<K>)
    ensures |ks| == |m| && forall i :: 0 <= i < |m| ==> ks[i] == m[i].0
  {
    seq(|m|, i requires 0 <= i < |m| => m[i].0)
  }

  function Values<K, V>(m: seq<(K, V)>): (vs: seq<V>)
    ensures |vs| == |m| && forall i :: 0 <= i < |m| ==> vs[i] == m[i].1
  {
    seq(|m|, i requires 0 <= i < |m| => m[i].1)
  }

  /** Where the entry for `k` stands: its first occurrence. */
  function IndexOf<K(==), V>(m: seq<(K, V)>, k: K): (i: nat)
    requires k in Keys(m)
    ensures i < |m| && m[i].0 == k && forall j :: 0 <= j < i ==> m[j].0 != k
  {
    if m[0].0 == k then 0
    else
      assert k in Keys(m[1..]) by {
        var j :| 0 <= j < |m| && Keys(m)[j] == k;
        assert Keys(m[1..])[j - 1] == k;
      }
      1 + IndexOf(m[1..], k)
  }

  /** `m.get(k)`, None for `undefined`. */
  function Get<K(==), V>(m: seq<(K, V)>, k: K): (r: Option<V>)
    ensures r.Some? <==> k in Keys(m)
    ensures r.Some? ==> (k, r.value) in m
  {
    if k in Keys(m) then Some(m[IndexOf(m, k)].1) else None
  }

  /** Two maps with the same keys in the same places find every key at the
      same index. */
  lemma SameKeysSameIndex<K, V>(m: seq<(K, V)>, r: seq<(K, V)>, k: K)
    requires Keys(r) == Keys(m) && k in Keys(m)
    ensures IndexOf(r, k) == IndexOf(m, k)
  {
    var a, b := IndexOf(m, k), IndexOf(r, k);
    assert Keys(r)[a] == k && Keys(m)[b] == k;
  }

  /** In a map with distinct keys every entry is what `get` finds for its key. */
  lemma GetEntry<K, V>(m: seq<(K, V)>, i: int)
    requires Distinct(Keys(m)) && 0 <= i < |m|
    ensures Get(m, m[i].0) == Some(m[i].1)
  {
    assert Keys(m)[i] == m[i].0;
    var j := IndexOf(m, m[i].0);
    assert Keys(m)[j] == Keys(m)[i];
  }

  /** `m.set(k, v)`. */
  function Set<K(==), V>(m: seq<(K, V)>, k: K, v: V): (r: seq<(K, V)>)
    ensures Keys(r) == if k in Keys(m) then Keys(m) else Keys(m) + [k]
    ensures Get(r, k) == Some(v)
  {
    if k in Keys(m) then
      var r := m[IndexOf(m, k) := (k, v)];
      assert Keys(r) == Keys(m);
      SameKeysSameIndex(m, r, k);
      r
    else
      var r := m + [(k, v)];
      assert Keys(r) == Keys(m) + [k];
      r
  }

  /** Setting one key leaves every other key's value as it was. */
  lemma SetOthers<K, V>(m: seq<(K, V)>, k: K, v: V, k': K)
    requires k' != k
    ensures Get(Set(m, k, v), k') == Get(m, k')
  {
    var r := Set(m, k, v);
    if k' in Keys(m) {
      if k in Keys(m) { SameKeysSameIndex(m, r, k'); }
      else {
        var i := IndexOf(m, k');
        assert k' in Keys(r) by { assert Keys(r)[i] == k'; }
        var b := IndexOf(r, k');
        assert r[|m|].0 == k;
        assert b < |m| && r[b] == m[b] && r[i] == m[i];
      }
    } else {
      assert k' !in Keys(r);
    }
  }

  /** `m.set(k, (m.get(k) || 0) + amt)`: the accumulation step every total
      in the client uses. */
  function AddTo<K(==)>(m: seq<(K, int)>, k: K, amt: int): (r: seq<(K, int)>)
    ensures Keys(r) == if k in Keys(m) then Keys(m) else Keys(m) + [k]
    ensures Get(r, k) == Some(Get(m, k).GetOr(0) + amt)
  {
    Set(m, k, Get(m, k).GetOr(0) + amt)
  }

  lemma {:induction false} SumUpdate(s: seq<int>, i: nat, x: int)
    requires i < |s|
    ensures Sum(s[i := x]) == Sum(s) - s[i] + x
    decreases |s|
  {
    if i < |s| - 1 {
      assert s[i := x][..|s| - 1] == s[..|s| - 1][i := x];
      SumUpdate(s[..|s| - 1], i, x);
    } else {
      assert s[i := x][..|s| - 1] == s[..|s| - 1];
    }
  }

  /** Adding to a key raises the sum of all values by exactly that amount. */
  lemma SumAddTo<K>(m: seq<(K, int)>, k: K, amt: int)
    ensures Sum(Values(AddTo(m, k, amt))) == Sum(Values(m)) + amt
  {
    var r := AddTo(m, k, amt);
    if k in Keys(m) {
      var i := IndexOf(m, k);
      assert Values(r) == Values(m)[i := m[i].1 + amt];
      SumUpdate(Values(m), i, m[i].1 + amt);
    } else {
      assert Values(r) == Values(m) + [amt];
      assert (Values(m) + [amt])[..|m|] == Values(m);
    }
  }

  /** A map built only with `Set` never repeats a key. */
  lemma SetKeepsDistinct<K, V>(m: seq<(K, V)>, k: K, v: V)
    requires Distinct(Keys(m))
    ensures Distinct(Keys(Set(m, k, v)))
  {}

  /** The sum of `f` over the values, in insertion order. */
  function MapSum<K, V>(m: seq<(K, V)>, f: V -> int): int {
    if m == [] then 0 else MapSum(m[..|m| - 1], f) + f(m[|m| - 1].1)
  }

  lemma {:induction false} MapSumUpdate<K, V>(m: seq<(K, V)>, i: nat, v: V, f: V -> int)
    requires i < |m|
    ensures MapSum(m[i := (m[i].0, v)], f) == MapSum(m, f) - f(m[i].1) + f(v)
    decreases |m|
  {
    var r := m[i := (m[i].0, v)];
    if i < |m| - 1 {
      assert r[..|m| - 1] == m[..|m| - 1][i := (m[i].0, v)];
      MapSumUpdate(m[..|m| - 1], i, v, f);
    } else {
      assert r[..|m| - 1] == m[..|m| - 1];
    }
  }

  /** Setting a key changes the sum by the new value's share less the old one's. */
  lemma MapSumSet<K, V>(m: seq<(K, V)>, k: K, v: V, f: V -> int)
    ensures MapSum(Set(m, k, v), f) == MapSum(m, f) + f(v) - (if k in Keys(m) then f(Get(m, k).value) else 0)
  {
    var r := Set(m, k, v);
    if k in Keys(m) {
      var i := IndexOf(m, k);
      assert r == m[i := (m[i].0, v)];
      MapSumUpdate(m, i, v, f);
    } else {
      assert r[..|m|] == m;
    }
  }

  /** Setting a key not yet present appends its entry. */
  lemma SetAbsent<K, V>(m: seq<(K, V)>, k: K, v: V)
    requires k !in Keys(m)
    ensures Set(m, k, v) == m + [(k, v)]
  {}

  /** While a Map is filled from another Map's entries in order, the next
      entry's key is not yet present. */
  lemma FreshKeyAt<K, V, W>(m: seq<(K, V)>, r: seq<(K, W)>, i: int)
    requires Distinct(Keys(m)) && 0 <= i < |m| && |r| == i
    requires forall j :: 0 <= j < i ==> r[j].0 == m[j].0
    ensures m[i].0 !in Keys(r)
  {
    forall j | 0 <= j < i ensures Keys(r)[j] != m[i].0 {
      assert Keys(m)[j] != Keys(m)[i];
    }
  }

  /** Filling a Map from another Map's entries in order, one `set` per
      entry, keeps every entry's place. */
  lemma MapEntriesStep<K, V, W>(m: seq<(K, V)>, r: seq<(K, W)>, i: int, f: V -> W)
    requires Distinct(Keys(m)) && 0 <= i < |m| && |r| == i
    requires forall j :: 0 <= j < i ==> r[j] == (m[j].0, f(m[j].1))
    ensures Set(r, m[i].0, f(m[i].1)) == r + [(m[i].0, f(m[i].1))]
    ensures forall j :: 0 <= j <= i ==> (r + [(m[i].0, f(m[i].1))])[j] == (m[j].0, f(m[j].1))
  {
    FreshKeyAt(m, r, i);
    SetAbsent(r, m[i].0, f(m[i].1));
  }

  lemma KeysConcat<K, V>(a: seq<(K, V)>, b: seq<(K, V)>)
    ensures Keys(a + b) == Keys(a) + Keys(b) && Values(a + b) == Values(a) + Values(b)
  {}

  /** Inserting an entry adds its key to the keys, in some place. */
  lemma {:induction false} InsertKeys<K>(x: (K, int), s: seq<(K, int)>, le: ((K, int), (K, int)) -> bool)
    ensures multiset(Keys(Insert(x, s, le))) == multiset(Keys(s)) + multiset{x.0}
    decreases |s|
  {
    if s == [] {
      assert Keys([x]) == [x.0];
    } else if le(x, s[0]) && !le(s[0], x) {
      KeysConcat([x], s);
      assert Keys([x]) == [x.0];
    } else {
      var t := Insert(x, s[1..], le);
      assert Insert(x, s, le) == [s[0]] + t;
      InsertKeys(x, s[1..], le);
      KeysConcat([s[0]], t);
      KeysConcat([s[0]], s[1..]);
      assert s == [s[0]] + s[1..];
      assert Keys([s[0]]) == [s[0].0];
    }
  }

  /** Inserting an entry adds its value to the sum of the values. */
  lemma {:induction false} InsertValues<K>(x: (K, int), s: seq<(K, int)>, le: ((K, int), (K, int)) -> bool)
    ensures Sum(Values(Insert(x, s, le))) == Sum(Values(s)) + x.1
    decreases |s|
  {
    if s == [] {
      assert Values([x]) == [x.1];
    } else if le(x, s[0]) && !le(s[0], x) {
      KeysConcat([x], s);
      assert Values([x]) == [x.1];
      SumConcat([x.1], Values(s));
    } else {
      var t := Insert(x, s[1..], le);
      assert Insert(x, s, le) == [s[0]] + t;
      InsertValues(x, s[1..], le);
      KeysConcat([s[0]], t);
      KeysConcat([s[0]], s[1..]);
      assert s == [s[0]] + s[1..];
      assert Values([s[0]]) == [s[0].1];
      SumConcat([s[0].1], Values(t));
      SumConcat([s[0].1], Values(s[1..]));
    }
  }

  /** Sorting entries moves them about but keeps their keys. */
  lemma {:induction false} SortByKeys<K>(s: seq<(K, int)>, le: ((K, int), (K, int)) -> bool)
    ensures multiset(Keys(SortBy(s, le))) == multiset(Keys(s))
    decreases |s|
  {
    if s != [] {
      var init, last := s[..|s| - 1], s[|s| - 1];
      SortByKeys(init, le);
      InsertKeys(last, SortBy(init, le), le);
      assert Keys(s) == Keys(init) + [last.0];
    }
  }

  /** Sorting entries keeps the sum of their values. */
  lemma {:induction false} SortByValues<K>(s: seq<(K, int)>, le: ((K, int), (K, int)) -> bool)
    ensures Sum(Values(SortBy(s, le))) == Sum(Values(s))
    decreases |s|
  {
    if s != [] {
      var init, last := s[..|s| - 1], s[|s| - 1];
      SortByValues(init, le);
      InsertValues(last, SortBy(init, le), le);
      SumValuesLast(s);
    }
  }

  lemma SumValuesLast<K>(s: seq<(K, int)>)
    requires s != []
    ensures Sum(Values(s)) == Sum(Values(s[..|s| - 1])) + s[|s| - 1].1
  {
    var init := s[..|s| - 1];
    assert Values(s) == Values(init) + [s[|s| - 1].1];
    SumConcat(Values(init), [s[|s| - 1].1]);
  }

  // ---- grouping a list by a key ----

  /** The key of every element, in order. */
  function KeysOf<T, K>(xs: seq<T>, key: T -> K): (r: seq<K>)
    ensures |r| == |xs|
  {
    if xs == [] then [] else KeysOf(xs[..|xs| - 1], key) + [key(xs[|xs| - 1])]
  }

  /** The sum of `val` over the elements whose key is `k`. */
  function TotalFor<T, K(==)>(xs: seq<T>, key: T -> K, val: T -> int, k: K): int {
    if xs == [] then 0
    else TotalFor(xs[..|xs| - 1], key, val, k) + (if key(xs[|xs| - 1]) == k then val(xs[|xs| - 1]) else 0)
  }

  /** The concatenation of `f` over the elements whose key is `k`, in order. */
  function ListFor<T, K(==), U>(xs: seq<T>, key: T -> K, f: T -> seq<U>, k: K): seq<U> {
    if xs == [] then []
    else ListFor(xs[..|xs| - 1], key, f, k) + (if key(xs[|xs| - 1]) == k then f(xs[|xs| - 1]) else [])
  }

  /** `m` maps exactly the keys of `xs`, each to the sum of its elements. */
  ghost predicate SumsBy<T, K(!new)>(m: seq<(K, int)>, xs: seq<T>, key: T -> K, val: T -> int) {
    forall k :: Get(m, k) == if k in KeysOf(xs, key) then Some(TotalFor(xs, key, val, k)) else None
  }

  /** `m` maps exactly the keys of `xs`, each to its elements' lists joined. */
  ghost predicate ListsBy<T, K(!new), U>(m: seq<(K, seq<U>)>, xs: seq<T>, key: T -> K, f: T -> seq<U>) {
    forall k :: Get(m, k) == if k in KeysOf(xs, key) then Some(ListFor(xs, key, f, k)) else None
  }

  lemma KeysOfSnoc<T, K>(xs: seq<T>, x: T, key: T -> K)
    ensures KeysOf(xs + [x], key) == KeysOf(xs, key) + [key(x)]
  {
    assert (xs + [x])[..|xs|] == xs;
  }

  /** A key is among the keys exactly when some element carries it. */
  lemma {:induction false} KeysOfMembers<T, K>(xs: seq<T>, key: T -> K, k: K)
    ensures k in KeysOf(xs, key) <==> exists x :: x in xs && key(x) == k
    decreases |xs|
  {
    if xs != [] {
      var init, x := xs[..|xs| - 1], xs[|xs| - 1];
      KeysOfMembers(init, key, k);
      assert xs == init + [x];
    }
  }

  /** A key no element carries has nothing. */
  lemma {:induction false} AbsentKey<T, K, U>(xs: seq<T>, key: T -> K, val: T -> int, f: T -> seq<U>, k: K)
    requires k !in KeysOf(xs, key)
    ensures TotalFor(xs, key, val, k) == 0 && ListFor(xs, key, f, k) == []
    decreases |xs|
  {
    if xs != [] {
      AbsentKey(xs[..|xs| - 1], key, val, f, k);
    }
  }

  lemma SumsByAt<T, K>(m: seq<(K, int)>, xs: seq<T>, x: T, key: T -> K, val: T -> int, k: K)
    requires Get(m, k) == if k in KeysOf(xs, key) then Some(TotalFor(xs, key, val, k)) else None
    ensures Get(AddTo(m, key(x), val(x)), k)
      == if k in KeysOf(xs + [x], key) then Some(TotalFor(xs + [x], key, val, k)) else None
  {
    KeysOfSnoc(xs, x, key);
    TotalForSnoc(xs, x, key, val, k);
    if k == key(x) {
      if k !in KeysOf(xs, key) { AbsentKey<T, K, int>(xs, key, val, _ => [], k); }
    } else {
      SetOthers(m, key(x), Get(m, key(x)).GetOr(0) + val(x), k);
    }
  }

  lemma TotalForSnoc<T, K>(xs: seq<T>, x: T, key: T -> K, val: T -> int, k: K)
    ensures TotalFor(xs + [x], key, val, k) == TotalFor(xs, key, val, k) + (if key(x) == k then val(x) else 0)
  {
    assert (xs + [x])[..|xs|] == xs;
  }

  lemma ListsByAt<T, K, U>(m: seq<(K, seq<U>)>, xs: seq<T>, x: T, key: T -> K, f: T -> seq<U>, k: K)
    requires Get(m, k) == if k in KeysOf(xs, key) then Some(ListFor(xs, key, f, k)) else None
    ensures Get(Set(m, key(x), Get(m, key(x)).GetOr([]) + f(x)), k)
      == if k in KeysOf(xs + [x], key) then Some(ListFor(xs + [x], key, f, k)) else None
  {
    KeysOfSnoc(xs, x, key);
    assert (xs + [x])[..|xs|] == xs;
    if k == key(x) {
      if k !in KeysOf(xs, key) { AbsentKey(xs, key, _ => 0, f, k); }
    } else {
      SetOthers(m, key(x), Get(m, key(x)).GetOr([]) + f(x), k);
      assert ListFor(xs + [x], key, f, k) == ListFor(xs, key, f, k) + [];
      assert ListFor(xs + [x], key, f, k) == ListFor(xs, key, f, k);
      assert (k in KeysOf(xs + [x], key)) == (k in KeysOf(xs, key));
    }
  }

  /** Adding an element's value under its key keeps the sums exact. */
  lemma SumsByStep<T, K(!new)>(m: seq<(K, int)>, xs: seq<T>, x: T, key: T -> K, val: T -> int)
    requires SumsBy(m, xs, key, val)
    ensures SumsBy(AddTo(m, key(x), val(x)), xs + [x], key, val)
  {
    forall k ensures Get(AddTo(m, key(x), val(x)), k)
      == if k in KeysOf(xs + [x], key) then Some(TotalFor(xs + [x], key, val, k)) else None {
      SumsByAt(m, xs, x, key, val, k);
    }
  }

  /** Appending an element's list under its key keeps the lists exact. */
  lemma ListsByStep<T, K(!new), U>(m: seq<(K, seq<U>)>, xs: seq<T>, x: T, key: T -> K, f: T -> seq<U>)
    requires ListsBy(m, xs, key, f)
    ensures ListsBy(Set(m, key(x), Get(m, key(x)).GetOr([]) + f(x)), xs + [x], key, f)
  {
    forall k ensures Get(Set(m, key(x), Get(m, key(x)).GetOr([]) + f(x)), k)
      == if k in KeysOf(xs + [x], key) then Some(ListFor(xs + [x], key, f, k)) else None {
      ListsByAt(m, xs, x, key, f, k);
    }
  }

  /** The sum of `val` over all elements. */
  function SumOf<T>(xs: seq<T>, val: T -> int): int {
    if xs == [] then 0 else SumOf(xs[..|xs| - 1], val) + val(xs[|xs| - 1])
  }

  /** The accumulation loop `for (x of xs) acc.set(key(x), (acc.get(key(x)) || 0) + val(x))`
      started from an empty Map. */
  function AccBy<T, K(==)>(xs: seq<T>, key: T -> K, val: T -> int): seq<(K, int)> {
    if xs == [] then [] else AddTo(AccBy(xs[..|xs| - 1], key, val), key(xs[|xs| - 1]), val(xs[|xs| - 1]))
  }

  /** One more element adds its value under its key and to the sum. */
  lemma AccBySnoc<T, K>(xs: seq<T>, x: T, key: T -> K, val: T -> int)
    ensures AccBy(xs + [x], key, val) == AddTo(AccBy(xs, key, val), key(x), val(x))
    ensures SumOf(xs + [x], val) == SumOf(xs, val) + val(x)
  {
    assert (xs + [x])[..|xs|] == xs;
  }

  /** The step of an inner loop that continues an accumulation over `before`
      with the elements of `items`. */
  lemma AccByStep<T, K>(before: seq<T>, items: seq<T>, j: int, key: T -> K, val: T -> int)
    requires 0 <= j < |items|
    ensures AccBy(before + items[..j + 1], key, val) == AddTo(AccBy(before + items[..j], key, val), key(items[j]), val(items[j]))
    ensures SumOf(before + items[..j + 1], val) == SumOf(before + items[..j], val) + val(items[j])
  {
    assert before + items[..j + 1] == (before + items[..j]) + [items[j]];
    AccBySnoc(before + items[..j], items[j], key, val);
  }

  /** The accumulated Map holds each key of `xs` once, with the sum of its
      elements, and nothing else; its values add up to the sum of all. */
  lemma {:induction false} AccBySpec<T, K(!new)>(xs: seq<T>, key: T -> K, val: T -> int)
    ensures SumsBy(AccBy(xs, key, val), xs, key, val)
    ensures Distinct(Keys(AccBy(xs, key, val)))
    ensures Sum(Values(AccBy(xs, key, val))) == SumOf(xs, val)
    decreases |xs|
  {
    if xs == [] {
    } else {
      var init, x := xs[..|xs| - 1], xs[|xs| - 1];
      var m := AccBy(init, key, val);
      AccBySpec(init, key, val);
      assert xs == init + [x];
      SumsByStep(m, init, x, key, val);
      SetKeepsDistinct(m, key(x), Get(m, key(x)).GetOr(0) + val(x));
      SumAddTo(m, key(x), val(x));
    }
  }

  /** The loop `for (const x of items) { acc.set(key(x), (acc.get(key(x)) || 0) + val(x)); total += val(x) }`
      continuing an accumulation that has already seen `before`. */
  method Accumulate<T, K(==)>(acc0: seq<(K, int)>, total0: int, ghost before: seq<T>, items: seq<T>, key: T -> K, val: T -> int)
    returns (acc: seq<(K, int)>, total: int)
    requires acc0 == AccBy(before, key, val) && total0 == SumOf(before, val)
    ensures acc == AccBy(before + items, key, val) && total == SumOf(before + items, val)
  {
    acc, total := acc0, total0;
    assert before + items[..0] == before;
    for j := 0 to |items|
      invariant acc == AccBy(before + items[..j], key, val)
      invariant total == SumOf(before + items[..j], val)
    {
      AccByStep(before, items, j, key, val);
      acc := AddTo(acc, key(items[j]), val(items[j]));
      total := total + val(items[j]);
    }
    assert items[..|items|] == items;
  }
}
