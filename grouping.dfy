/** Sequence-level models of the pandas operations the dashboard chains:
    boolean-mask filtering, `unique()`, `groupby(...).sum()` and
    `sort_values(..., ascending=False)`, over (key, amount) entries. */
module Grouping {
  import opened Orders

  /** The set of elements of a sequence. */
  function Elems<T>(s: seq<T>): set<T> {
    set x | x in s
  }

  predicate NoDup<T(==)>(s: seq<T>) {
    forall i, j :: 0 <= i < j < |s| ==> s[i] != s[j]
  }

  ghost predicate StrictlySorted<T>(s: seq<T>, less: (T, T) -> bool) {
    forall i, j :: 0 <= i < j < |s| ==> less(s[i], s[j])
  }

  /** Sorted, allowing equal neighbours. */
  ghost predicate NonDecreasing<T>(s: seq<T>, less: (T, T) -> bool) {
    forall i, j :: 0 <= i < j < |s| ==> s[i] == s[j] || less(s[i], s[j])
  }

  lemma StrictlySortedNoDup<T(!new)>(s: seq<T>, less: (T, T) -> bool)
    requires StrictOrder(less) && StrictlySorted(s, less)
    ensures NoDup(s)
  {
  }

  /** Without duplicates, a sequence has as many distinct elements as
      positions. */
  lemma {:induction false} NoDupCard<T>(s: seq<T>)
    requires NoDup(s)
    ensures |Elems(s)| == |s|
  {
    if s != [] {
      var last := s[|s| - 1];
      var pre := s[..|s| - 1];
      NoDupCard(pre);
      assert s == pre + [last];
      assert last !in Elems(pre);
      assert Elems(s) == Elems(pre) + {last};
    }
  }

  // ---------------------------------------------------------------------
  // Filtering (`df[mask]`)
  // ---------------------------------------------------------------------

  /** The elements of `s` that satisfy `p`, in their original order. */
  function Filter<T(!new)>(s: seq<T>, p: T -> bool): (r: seq<T>)
    ensures |r| <= |s|
    ensures forall x :: x in r <==> x in s && p(x)
    ensures forall i :: 0 <= i < |r| ==> p(r[i])
  {
    if s == [] then []
    else
      assert s == [s[0]] + s[1..];
      (if p(s[0]) then [s[0]] else []) + Filter(s[1..], p)
  }

  /** A filter that every element passes changes nothing. */
  lemma {:induction false} FilterAll<T(!new)>(s: seq<T>, p: T -> bool)
    ensures (forall i :: 0 <= i < |s| ==> p(s[i])) ==> Filter(s, p) == s
  {
    if s != [] {
      FilterAll(s[1..], p);
      assert s == [s[0]] + s[1..];
    }
  }

  /** Filtering keeps every occurrence of a satisfying value and none of the
      others. */
  lemma {:induction false} FilterCount<T(!new)>(s: seq<T>, p: T -> bool, x: T)
    ensures multiset(Filter(s, p))[x] == if p(x) then multiset(s)[x] else 0
  {
    if s != [] {
      FilterCount(s[1..], p, x);
      assert s == [s[0]] + s[1..];
    }
  }

  /** Filtering distributes over concatenation: nothing is reordered. */
  lemma {:induction false} FilterConcat<T(!new)>(a: seq<T>, b: seq<T>, p: T -> bool)
    ensures Filter(a + b, p) == Filter(a, p) + Filter(b, p)
  {
    if a != [] {
      var head := if p(a[0]) then [a[0]] else [];
      assert (a + b)[0] == a[0];
      assert (a + b)[1..] == a[1..] + b;
      FilterConcat(a[1..], b, p);
      assert Filter(a + b, p) == head + Filter(a[1..] + b, p);
      assert Filter(a, p) == head + Filter(a[1..], p);
    } else {
      assert a + b == b;
    }
  }

  /** A filtered sorted sequence is still sorted (it is a subsequence). */
  lemma {:induction false} FilterSorted<T(!new)>(s: seq<T>, p: T -> bool, less: (T, T) -> bool)
    requires StrictOrder(less) && StrictlySorted(s, less)
    ensures StrictlySorted(Filter(s, p), less)
  {
    if s != [] {
      FilterSorted(s[1..], p, less);
      var rest := Filter(s[1..], p);
      forall j | 0 <= j < |rest| ensures less(s[0], rest[j]) {
        assert rest[j] in rest;
        var k :| 0 <= k < |s[1..]| && s[1..][k] == rest[j];
      }
    }
  }

  // ---------------------------------------------------------------------
  // unique(): distinct values in first-seen order
  // ---------------------------------------------------------------------

  function Unique<T(==)>(s: seq<T>): (r: seq<T>)
    ensures NoDup(r) && Elems(r) == Elems(s)
  {
    if s == [] then []
    else
      var u := Unique(s[..|s| - 1]);
      var x := s[|s| - 1];
      assert s == s[..|s| - 1] + [x];
      assert Elems(u + [x]) == Elems(u) + {x};
      if x in u then u else u + [x]
  }

  /** On a sorted column, `unique()` yields the distinct values in ascending
      order, and the last of them is the column's last value. */
  lemma {:induction false} UniqueOfSorted<T(!new)>(s: seq<T>, less: (T, T) -> bool)
    requires StrictOrder(less) && NonDecreasing(s, less)
    ensures StrictlySorted(Unique(s), less)
    ensures s != [] ==> Unique(s)[|Unique(s)| - 1] == s[|s| - 1]
  {
    if s != [] {
      var pre := s[..|s| - 1];
      var x := s[|s| - 1];
      assert NonDecreasing(pre, less);
      UniqueOfSorted(pre, less);
      var u := Unique(pre);
      forall y | y in u ensures y == x || less(y, x) {
        assert y in Elems(pre);
      }
      if x in u {
        var last := u[|u| - 1];
        assert last == pre[|pre| - 1];
        assert last == x || less(last, x);
        assert x in Elems(pre);
        var j :| 0 <= j < |pre| && pre[j] == x;
        assert j < |pre| - 1 ==> (x == last || less(x, last));
      }
    }
  }

  // ---------------------------------------------------------------------
  // Group keys in ascending order (the order `groupby` emits groups in)
  // ---------------------------------------------------------------------

  /** Insert `x` into a strictly sorted sequence unless it is already there. */
  function InsertKey<T(==,!new)>(s: seq<T>, x: T, less: (T, T) -> bool): (r: seq<T>)
    requires StrictTotalOrder(less) && StrictlySorted(s, less)
    ensures StrictlySorted(r, less) && Elems(r) == Elems(s) + {x}
  {
    if s == [] then [x]
    else if x == s[0] then s
    else if less(x, s[0]) then [x] + s
    else
      var rest := InsertKey(s[1..], x, less);
      assert s == [s[0]] + s[1..];
      assert forall j :: 0 <= j < |rest| ==> rest[j] in Elems(rest);
      [s[0]] + rest
  }

  /** The distinct values of `ks`, ascending. */
  function SortedKeys<T(==,!new)>(ks: seq<T>, less: (T, T) -> bool): (r: seq<T>)
    requires StrictTotalOrder(less)
    ensures StrictlySorted(r, less) && Elems(r) == Elems(ks)
  {
    if ks == [] then []
    else
      assert ks == ks[..|ks| - 1] + [ks[|ks| - 1]];
      InsertKey(SortedKeys(ks[..|ks| - 1], less), ks[|ks| - 1], less)
  }

  lemma ElemsEmpty<T>(s: seq<T>)
    ensures Elems(s) == {} <==> s == []
  {
    if s != [] {
      assert s[0] in Elems(s);
    }
  }

  /** A strictly sorted sequence is determined by its set of elements. */
  lemma {:induction false} SortedUnique<T(!new)>(a: seq<T>, b: seq<T>, less: (T, T) -> bool)
    requires StrictOrder(less) && StrictlySorted(a, less) && StrictlySorted(b, less)
    requires Elems(a) == Elems(b)
    ensures a == b
  {
    ElemsEmpty(a);
    ElemsEmpty(b);
    if a != [] {
      var a0, b0 := a[0], b[0];
      assert a0 in Elems(b);
      assert b0 in Elems(a);
      assert a0 == b0 || less(b0, a0);
      assert b0 == a0 || less(a0, b0);
      assert a[0] !in Elems(a[1..]);
      assert b[0] !in Elems(b[1..]);
      assert Elems(a) == {a[0]} + Elems(a[1..]) by { assert a == [a[0]] + a[1..]; }
      assert Elems(b) == {b[0]} + Elems(b[1..]) by { assert b == [b[0]] + b[1..]; }
      SortedUnique(a[1..], b[1..], less);
      assert a == [a[0]] + a[1..] && b == [b[0]] + b[1..];
    }
  }

  // ---------------------------------------------------------------------
  // groupby(key)[amount].sum() over (key, amount) entries
  // ---------------------------------------------------------------------

  /** The key column of a sequence of (key, amount) entries. */
  function Keys<K>(ps: seq<(K, int)>): (r: seq<K>)
    ensures |r| == |ps| && forall i :: 0 <= i < |ps| ==> r[i] == ps[i].0
  {
    seq(|ps|, i requires 0 <= i < |ps| => ps[i].0)
  }

  /** Sum of all amounts, negatives included. */
  function Sum<K>(ps: seq<(K, int)>): int {
    if ps == [] then 0 else ps[0].1 + Sum(ps[1..])
  }

  /** Sum of the amounts of the entries whose key is `k`. */
  function SumOf<K(==)>(ps: seq<(K, int)>, k: K): int {
    if ps == [] then 0
    else (if ps[0].0 == k then ps[0].1 else 0) + SumOf(ps[1..], k)
  }

  /** The entries whose key is not `k`. */
  function Without<K(==)>(ps: seq<(K, int)>, k: K): (r: seq<(K, int)>)
    ensures Elems(Keys(r)) == Elems(Keys(ps)) - {k}
  {
    if ps == [] then []
    else
      var rest := Without(ps[1..], k);
      assert Elems(Keys(ps)) == {ps[0].0} + Elems(Keys(ps[1..])) by {
        assert Keys(ps) == [ps[0].0] + Keys(ps[1..]);
      }
      if ps[0].0 == k then rest
      else
        assert Keys([ps[0]] + rest) == [ps[0].0] + Keys(rest);
        assert Elems(Keys([ps[0]] + rest)) == {ps[0].0} + Elems(Keys(rest));
        [ps[0]] + rest
  }

  /** A sum splits into the part keyed `k` and the rest. */
  lemma {:induction false} SumSplit<K>(ps: seq<(K, int)>, k: K)
    ensures Sum(ps) == SumOf(ps, k) + Sum(Without(ps, k))
  {
    if ps != [] {
      SumSplit(ps[1..], k);
      if ps[0].0 != k {
        assert ([ps[0]] + Without(ps[1..], k))[1..] == Without(ps[1..], k);
      }
    }
  }

  lemma {:induction false} SumOfWithout<K>(ps: seq<(K, int)>, k: K, j: K)
    requires j != k
    ensures SumOf(Without(ps, k), j) == SumOf(ps, j)
  {
    if ps != [] {
      SumOfWithout(ps[1..], k, j);
      if ps[0].0 != k {
        assert ([ps[0]] + Without(ps[1..], k))[1..] == Without(ps[1..], k);
      }
    }
  }

  /** One (key, total) entry per key of `keys`, in that order. */
  function Totals<K(==)>(ps: seq<(K, int)>, keys: seq<K>): (r: seq<(K, int)>)
    ensures |r| == |keys|
    ensures forall i :: 0 <= i < |keys| ==> r[i] == (keys[i], SumOf(ps, keys[i]))
  {
    if keys == [] then []
    else [(keys[0], SumOf(ps, keys[0]))] + Totals(ps, keys[1..])
  }

  /** Summing the group totals over duplicate-free keys that cover every
      entry gives back the sum of all entries. */
  lemma {:induction false} TotalsSum<K>(ps: seq<(K, int)>, keys: seq<K>)
    requires NoDup(keys) && Elems(Keys(ps)) <= Elems(keys)
    ensures Sum(Totals(ps, keys)) == Sum(ps)
    decreases |keys|
  {
    if keys == [] {
      ElemsEmpty(Keys(ps));
    } else {
      var k := keys[0];
      var w := Without(ps, k);
      assert Elems(keys) == {k} + Elems(keys[1..]) by {
        assert keys == [k] + keys[1..];
      }
      assert k !in Elems(keys[1..]);
      TotalsSum(w, keys[1..]);
      assert Totals(w, keys[1..]) == Totals(ps, keys[1..]) by {
        forall i | 0 <= i < |keys[1..]|
          ensures SumOf(w, keys[1..][i]) == SumOf(ps, keys[1..][i])
        {
          SumOfWithout(ps, k, keys[1..][i]);
        }
      }
      SumSplit(ps, k);
    }
  }

  /** `groupby(key)[amount].sum()`: one entry per distinct key, keys
      ascending, each holding the sum of that key's amounts. */
  function GroupBySum<K(==,!new)>(ps: seq<(K, int)>, less: (K, K) -> bool): (r: seq<(K, int)>)
    requires StrictTotalOrder(less)
    ensures StrictlySorted(Keys(r), less)
    ensures Elems(Keys(r)) == Elems(Keys(ps))
    ensures forall i :: 0 <= i < |r| ==> r[i].1 == SumOf(ps, r[i].0)
  {
    var keys := SortedKeys(Keys(ps), less);
    var r := Totals(ps, keys);
    assert Keys(r) == keys;
    r
  }

  /** The grouped totals add up to the sum of all amounts. */
  lemma GroupBySumTotal<K(!new)>(ps: seq<(K, int)>, less: (K, K) -> bool)
    requires StrictTotalOrder(less)
    ensures Sum(GroupBySum(ps, less)) == Sum(ps)
  {
    var keys := SortedKeys(Keys(ps), less);
    StrictlySortedNoDup(keys, less);
    TotalsSum(ps, keys);
  }

  /** Order on entries by their keys alone. */
  function KeyLess<K>(less: (K, K) -> bool): ((K, int), (K, int)) -> bool {
    (a: (K, int), b: (K, int)) => less(a.0, b.0)
  }

  lemma KeyLessFacts<K(!new)>(s: seq<(K, int)>, less: (K, K) -> bool)
    requires StrictOrder(less)
    ensures StrictOrder(KeyLess(less))
    ensures StrictlySorted(Keys(s), less) <==> StrictlySorted(s, KeyLess(less))
  {
    var kl := KeyLess(less);
    assert forall a: (K, int), b: (K, int) :: kl(a, b) == less(a.0, b.0);
  }

  /** The group-by result is the only sequence with its three properties. */
  lemma GroupBySumDetermined<K(!new)>(ps: seq<(K, int)>, less: (K, K) -> bool, r: seq<(K, int)>)
    requires StrictTotalOrder(less)
    requires StrictlySorted(Keys(r), less)
    requires Elems(Keys(r)) == Elems(Keys(ps))
    requires forall i :: 0 <= i < |r| ==> r[i].1 == SumOf(ps, r[i].0)
    ensures r == GroupBySum(ps, less)
  {
    var g := GroupBySum(ps, less);
    SortedUnique(Keys(r), Keys(g), less);
    assert forall i :: 0 <= i < |r| ==> r[i] == (Keys(r)[i], r[i].1);
  }

  // ---------------------------------------------------------------------
  // sort_values(by=amount, ascending=False) and taking the first n
  // ---------------------------------------------------------------------

  predicate Descending<K>(s: seq<(K, int)>) {
    forall i, j :: 0 <= i < j < |s| ==> s[i].1 >= s[j].1
  }

  predicate DistinctKeys<K(==)>(s: seq<(K, int)>) {
    forall i, j :: 0 <= i < j < |s| ==> s[i].0 != s[j].0
  }

  lemma SortedKeysDistinct<K(!new)>(s: seq<(K, int)>, less: (K, K) -> bool)
    requires StrictOrder(less) && StrictlySorted(Keys(s), less)
    ensures DistinctKeys(s)
  {
    forall i, j | 0 <= i < j < |s| ensures s[i].0 != s[j].0 {
      assert less(Keys(s)[i], Keys(s)[j]);
    }
  }

  function InsertDesc<K>(s: seq<(K, int)>, e: (K, int)): (r: seq<(K, int)>)
    requires Descending(s)
    ensures Descending(r) && multiset(r) == multiset(s) + multiset{e}
  {
    if s == [] || e.1 >= s[0].1 then [e] + s
    else
      var rest := InsertDesc(s[1..], e);
      assert s == [s[0]] + s[1..];
      assert forall j :: 0 <= j < |rest| ==> rest[j] in multiset(rest);
      [s[0]] + rest
  }

  /** One outcome of a descending sort by amount; the source's sort is not
      stable, so the lemmas below hold for every descending permutation. */
  function SortDesc<K>(s: seq<(K, int)>): (r: seq<(K, int)>)
    ensures Descending(r) && multiset(r) == multiset(s)
  {
    if s == [] then []
    else
      assert s == s[..|s| - 1] + [s[|s| - 1]];
      InsertDesc(SortDesc(s[..|s| - 1]), s[|s| - 1])
  }

  lemma {:induction false} DistinctKeysCount<K>(g: seq<(K, int)>, x: (K, int))
    requires DistinctKeys(g)
    ensures multiset(g)[x] <= 1
  {
    if g != [] {
      DistinctKeysCount(g[1..], x);
      assert g == [g[0]] + g[1..];
      if g[0] == x {
        assert x !in g[1..];
      }
    }
  }

  lemma RepeatCount<T>(s: seq<T>, i: int, j: int)
    requires 0 <= i < j < |s|
    ensures s[i] == s[j] ==> multiset(s)[s[i]] >= 2
  {
    assert s == s[..i] + [s[i]] + s[i + 1..j] + [s[j]] + s[j + 1..];
  }

  /** Reordering entries with distinct keys keeps the keys distinct. */
  lemma PermutationDistinctKeys<K>(g: seq<(K, int)>, s: seq<(K, int)>)
    requires DistinctKeys(g) && multiset(s) == multiset(g)
    ensures DistinctKeys(s)
  {
    forall i, j | 0 <= i < j < |s| ensures s[i].0 != s[j].0 {
      var x, y := s[i], s[j];
      assert x in multiset(g) && y in multiset(g);
      var a :| 0 <= a < |g| && g[a] == x;
      var b :| 0 <= b < |g| && g[b] == y;
      DistinctKeysCount(g, x);
      RepeatCount(s, i, j);
    }
  }

  /** The first `n` entries (all of them when there are fewer). */
  function Take<T>(s: seq<T>, n: nat): (r: seq<T>)
    ensures |r| == if n < |s| then n else |s|
    ensures r <= s
  {
    s[..if n < |s| then n else |s|]
  }

  /** Sorting entries with distinct keys by amount, descending, and keeping
      the first `n`: at most `n` entries with distinct keys, each an entry
      of the input, still descending, and none smaller than any entry left
      out. This holds whichever order the sort gives to equal amounts. */
  lemma TopN<K>(g: seq<(K, int)>, s: seq<(K, int)>, n: nat)
    requires DistinctKeys(g) && multiset(s) == multiset(g) && Descending(s)
    ensures |Take(s, n)| <= n
    ensures |g| >= n ==> |Take(s, n)| == n
    ensures DistinctKeys(Take(s, n)) && Descending(Take(s, n))
    ensures forall e :: e in Take(s, n) ==> e in g
    ensures forall e, f :: e in Take(s, n) && f in g && f.0 !in Elems(Keys(Take(s, n))) ==> e.1 >= f.1
  {
    var t := Take(s, n);
    PermutationDistinctKeys(g, s);
    assert |s| == |multiset(s)| == |g|;
    forall e | e in t ensures e in g {
      assert e in multiset(s);
    }
    forall e, f | e in t && f in g && f.0 !in Elems(Keys(t)) ensures e.1 >= f.1 {
      assert f in multiset(s);
      var i :| 0 <= i < |t| && t[i] == e;
      var j :| 0 <= j < |s| && s[j] == f;
      assert forall m :: 0 <= m < |t| ==> t[m].0 in Elems(Keys(t)) && t[m] == s[m];
    }
  }
}
