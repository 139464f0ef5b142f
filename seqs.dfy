/** `Array.prototype.filter` and the counting and summing folds built on it. */
module Seqs {

  /** The elements of `s` that satisfy `p`, in their original order. */
  function Filter<T>(s: seq<T>, p: T -> bool): (r: seq<T>)
    ensures |r| <= |s|
    ensures forall k :: 0 <= k < |r| ==> p(r[k])
  {
    if |s| == 0 then []
    else
      assert s == s[..|s| - 1] + [s[|s| - 1]];
      Filter(s[..|s| - 1], p) + (if p(s[|s| - 1]) then [s[|s| - 1]] else [])
  }

  /** Membership in the filtered sequence, element-wise. */
  lemma {:induction false} FilterMembers<T>(s: seq<T>, p: T -> bool)
    ensures forall x :: x in Filter(s, p) <==> x in s && p(x)
  {
    if |s| > 0 {
      FilterMembers(s[..|s| - 1], p);
      assert s == s[..|s| - 1] + [s[|s| - 1]];
    }
  }

  /** `[f(1), f(2), ..., f(n)]`. */
  function Tabulate<C>(f: int -> C, n: nat): seq<C> {
    if n == 0 then [] else Tabulate(f, n - 1) + [f(n)]
  }

  lemma {:induction false} TabulateAt<C>(f: int -> C, n: nat)
    ensures |Tabulate(f, n)| == n
    ensures forall k :: 0 <= k < n ==> Tabulate(f, n)[k] == f(k + 1)
  {
    if n > 0 {
      TabulateAt(f, n - 1);
    }
  }

  /** Where the `k`-th kept element sits in `s`. */
  lemma {:induction false} FilterIndex<T>(s: seq<T>, p: T -> bool, k: nat) returns (j: nat)
    requires k < |Filter(s, p)|
    ensures j < |s| && s[j] == Filter(s, p)[k]
  {
    var init := s[..|s| - 1];
    if k < |Filter(init, p)| {
      j := FilterIndex(init, p, k);
    } else {
      j := |s| - 1;
    }
  }

  /** `key` is strictly increasing along `s`. */
  predicate IncreasingBy<T>(s: seq<T>, key: T -> int) {
    forall i, j :: 0 <= i < j < |s| ==> key(s[i]) < key(s[j])
  }

  /** Keys increasing along `s` stay increasing along any filtering of `s`. */
  lemma {:induction false} FilterIncreasing<T>(s: seq<T>, p: T -> bool, key: T -> int)
    requires IncreasingBy(s, key)
    ensures IncreasingBy(Filter(s, p), key)
  {
    if |s| > 0 {
      var init, last := s[..|s| - 1], s[|s| - 1];
      FilterIncreasing(init, p, key);
      var fi := Filter(init, p);
      forall k | 0 <= k < |fi| ensures key(fi[k]) < key(last) {
        var j := FilterIndex(init, p, k);
        assert init[j] == s[j];
      }
      var r := Filter(s, p);
      assert r == fi + (if p(last) then [last] else []);
      forall i, j | 0 <= i < j < |r| ensures key(r[i]) < key(r[j]) {
        if j >= |fi| { assert r[i] == fi[i] && r[j] == last; }
        else { assert r[i] == fi[i] && r[j] == fi[j]; }
      }
    }
  }

  /** A predicate no element satisfies keeps nothing. */
  lemma {:induction false} FilterNone<T>(s: seq<T>, p: T -> bool)
    requires forall k :: 0 <= k < |s| ==> !p(s[k])
    ensures Filter(s, p) == []
  {
    if |s| > 0 {
      FilterNone(s[..|s| - 1], p);
    }
  }

  /** The set of key values along `s`. */
  function KeySet<T>(s: seq<T>, key: T -> int): set<int> {
    set k | 0 <= k < |s| :: key(s[k])
  }

  /** Distinct keys: as many key values as elements. */
  lemma {:induction false} IncreasingCard<T>(s: seq<T>, key: T -> int)
    requires IncreasingBy(s, key)
    ensures |KeySet(s, key)| == |s|
  {
    if |s| > 0 {
      var init, last := s[..|s| - 1], s[|s| - 1];
      IncreasingCard(init, key);
      assert KeySet(s, key) == KeySet(init, key) + {key(last)};
      assert key(last) !in KeySet(init, key);
    }
  }

  /** Filtering commutes with concatenation, so the kept elements keep their order. */
  lemma {:induction false} FilterAppend<T>(a: seq<T>, b: seq<T>, p: T -> bool)
    ensures Filter(a + b, p) == Filter(a, p) + Filter(b, p)
  {
    if |b| > 0 {
      assert (a + b)[..|a + b| - 1] == a + b[..|b| - 1];
      FilterAppend(a, b[..|b| - 1], p);
    } else {
      assert a + b == a;
    }
  }

  /** A predicate every element satisfies keeps the whole sequence. */
  lemma {:induction false} FilterAll<T>(s: seq<T>, p: T -> bool)
    requires forall k :: 0 <= k < |s| ==> p(s[k])
    ensures Filter(s, p) == s
  {
    if |s| > 0 {
      FilterAll(s[..|s| - 1], p);
    }
  }

  /** Two predicates that agree on `s` keep the same elements. */
  lemma {:induction false} FilterCongruent<T>(s: seq<T>, p: T -> bool, q: T -> bool)
    requires forall k :: 0 <= k < |s| ==> p(s[k]) == q(s[k])
    ensures Filter(s, p) == Filter(s, q)
  {
    if |s| > 0 {
      FilterCongruent(s[..|s| - 1], p, q);
    }
  }

  /** The elements of `s` that satisfy `p` and those that do not add up to `s`. */
  lemma {:induction false} FilterSplit<T>(s: seq<T>, p: T -> bool, q: T -> bool)
    requires forall k :: 0 <= k < |s| ==> q(s[k]) == !p(s[k])
    ensures |Filter(s, p)| + |Filter(s, q)| == |s|
  {
    if |s| > 0 {
      FilterSplit(s[..|s| - 1], p, q);
    }
  }

  function Both<T>(p: T -> bool, q: T -> bool): T -> bool {
    x => p(x) && q(x)
  }

  /** Filtering twice keeps what satisfies both predicates. */
  lemma {:induction false} FilterFilter<T>(s: seq<T>, p: T -> bool, q: T -> bool)
    ensures Filter(Filter(s, p), q) == Filter(s, Both(p, q))
  {
    if |s| > 0 {
      var init, last := s[..|s| - 1], s[|s| - 1];
      FilterFilter(init, p, q);
      FilterAppend(Filter(init, p), if p(last) then [last] else [], q);
    }
  }

  /** A second filter narrows the first to `r` when `r` is their conjunction on `s`. */
  lemma FilterThen<T>(s: seq<T>, p: T -> bool, q: T -> bool, r: T -> bool)
    requires forall k :: 0 <= k < |s| ==> r(s[k]) == (p(s[k]) && q(s[k]))
    ensures Filter(Filter(s, p), q) == Filter(s, r)
  {
    FilterFilter(s, p, q);
    FilterCongruent(s, Both(p, q), r);
  }

  /** The disjoint filters of `s` by three predicates hold no more than `s`. */
  lemma {:induction false} FilterDisjoint3<T>(s: seq<T>, p: T -> bool, q: T -> bool, r: T -> bool)
    requires forall k :: 0 <= k < |s| ==> !(p(s[k]) && q(s[k])) && !(p(s[k]) && r(s[k])) && !(q(s[k]) && r(s[k]))
    ensures |Filter(s, p)| + |Filter(s, q)| + |Filter(s, r)| <= |s|
  {
    if |s| > 0 {
      FilterDisjoint3(s[..|s| - 1], p, q, r);
    }
  }

  /** No element of `s` occurs twice. */
  predicate Distinct<T(==)>(s: seq<T>) {
    forall i, j :: 0 <= i < j < |s| ==> s[i] != s[j]
  }

  lemma {:induction false} FilterDistinct<T>(s: seq<T>, p: T -> bool)
    requires Distinct(s)
    ensures Distinct(Filter(s, p))
  {
    if |s| > 0 {
      var init, last := s[..|s| - 1], s[|s| - 1];
      FilterDistinct(init, p);
      FilterMembers(init, p);
      var fi := Filter(init, p);
      assert last !in init;
      var r := Filter(s, p);
      assert r == fi + (if p(last) then [last] else []);
      forall i, j | 0 <= i < j < |r| ensures r[i] != r[j] {
        if j >= |fi| { assert r[i] == fi[i] && r[j] == last; }
        else { assert r[i] == fi[i] && r[j] == fi[j]; }
      }
    }
  }

  /** Two disjoint predicates whose union is `r` split the elements `r` keeps,
      both in number and in any sum over them. */
  lemma {:induction false} FilterUnion<T>(s: seq<T>, p: T -> bool, q: T -> bool, r: T -> bool, f: T -> int)
    requires forall k :: 0 <= k < |s| ==> r(s[k]) == (p(s[k]) || q(s[k])) && !(p(s[k]) && q(s[k]))
    ensures |Filter(s, r)| == |Filter(s, p)| + |Filter(s, q)|
    ensures SumBy(Filter(s, r), f) == SumBy(Filter(s, p), f) + SumBy(Filter(s, q), f)
  {
    if |s| > 0 {
      var init, last := s[..|s| - 1], s[|s| - 1];
      assert s == init + [last];
      FilterUnion(init, p, q, r, f);
      SnocStep(init, last, r, f);
      SnocStep(init, last, p, f);
      SnocStep(init, last, q, f);
    }
  }

  /** What one more element adds to a filter and to its sum. */
  lemma SnocStep<T>(init: seq<T>, last: T, p: T -> bool, f: T -> int)
    ensures |Filter(init + [last], p)| == |Filter(init, p)| + (if p(last) then 1 else 0)
    ensures SumBy(Filter(init + [last], p), f) == SumBy(Filter(init, p), f) + (if p(last) then f(last) else 0)
  {
    var s := init + [last];
    assert s[..|s| - 1] == init && s[|s| - 1] == last;
    var fi := Filter(init, p);
    if p(last) {
      assert Filter(s, p) == fi + [last];
      assert (fi + [last])[..|fi|] == fi;
    } else {
      assert Filter(s, p) == fi;
    }
  }

  /** `filter` over one more element of a prefix. */
  lemma FilterPrefixStep<T>(s: seq<T>, i: nat, p: T -> bool)
    requires i < |s|
    ensures |Filter(s[..i + 1], p)| == |Filter(s[..i], p)| + (if p(s[i]) then 1 else 0)
  {
    assert s[..i + 1] == s[..i] + [s[i]];
    SnocStep(s[..i], s[i], p, x => 0);
  }

  /** The first element `filter` keeps is the first element satisfying `p`. */
  lemma {:induction false} FilterFirst<T>(s: seq<T>, p: T -> bool) returns (k: nat)
    requires |Filter(s, p)| > 0
    ensures k < |s| && s[k] == Filter(s, p)[0] && p(s[k])
    ensures forall j :: 0 <= j < k ==> !p(s[j])
  {
    var init := s[..|s| - 1];
    if |Filter(init, p)| > 0 {
      k := FilterFirst(init, p);
      assert Filter(s, p)[0] == Filter(init, p)[0];
    } else {
      FilterMembers(init, p);
      forall j | 0 <= j < |init| ensures !p(init[j]) {
        assert init[j] in init;
      }
      k := |s| - 1;
    }
  }

  /** `reduce((sum, x) => sum + f(x), 0)`. */
  function SumBy<T>(s: seq<T>, f: T -> int): int {
    if |s| == 0 then 0 else SumBy(s[..|s| - 1], f) + f(s[|s| - 1])
  }

  lemma {:induction false} SumByAppend<T>(a: seq<T>, b: seq<T>, f: T -> int)
    ensures SumBy(a + b, f) == SumBy(a, f) + SumBy(b, f)
  {
    if |b| > 0 {
      assert (a + b)[..|a + b| - 1] == a + b[..|b| - 1];
      SumByAppend(a, b[..|b| - 1], f);
    } else {
      assert a + b == a;
    }
  }

  function KeyIs<T>(key: T -> int, m: int): T -> bool {
    x => key(x) == m
  }

  function KeyBetween<T>(key: T -> int, lo: int, hi: int): T -> bool {
    x => lo <= key(x) <= hi
  }

  /** The elements with key 1, then key 2, up to key n: their number and their sum. */
  function CountUpTo<T>(s: seq<T>, key: T -> int, n: nat): nat {
    if n == 0 then 0 else CountUpTo(s, key, n - 1) + |Filter(s, KeyIs(key, n))|
  }

  function SumUpTo<T>(s: seq<T>, key: T -> int, f: T -> int, n: nat): int {
    if n == 0 then 0 else SumUpTo(s, key, f, n - 1) + SumBy(Filter(s, KeyIs(key, n)), f)
  }

  /** Bucketing by key 1..n and adding up the buckets gives the elements whose key is in 1..n. */
  lemma BucketsAddUp<T>(s: seq<T>, key: T -> int, f: T -> int, n: nat)
    ensures CountUpTo(s, key, n) == |Filter(s, KeyBetween(key, 1, n))|
    ensures SumUpTo(s, key, f, n) == SumBy(Filter(s, KeyBetween(key, 1, n)), f)
  {
    CountsAddUp(s, key, n);
    SumsAddUp(s, key, f, n);
  }

  lemma CountsAddUp<T>(s: seq<T>, key: T -> int, n: nat)
    ensures CountUpTo(s, key, n) == |Filter(s, KeyBetween(key, 1, n))|
  {
    var i := 0;
    BucketsNone(s, key, key);
    while i < n
      invariant i <= n
      invariant CountUpTo(s, key, i) == |Filter(s, KeyBetween(key, 1, i))|
    {
      i := i + 1;
      BucketsStep(s, key, key, i);
    }
  }

  lemma SumsAddUp<T>(s: seq<T>, key: T -> int, f: T -> int, n: nat)
    ensures SumUpTo(s, key, f, n) == SumBy(Filter(s, KeyBetween(key, 1, n)), f)
  {
    var i := 0;
    BucketsNone(s, key, f);
    while i < n
      invariant i <= n
      invariant SumUpTo(s, key, f, i) == SumBy(Filter(s, KeyBetween(key, 1, i)), f)
    {
      i := i + 1;
      BucketsStep(s, key, f, i);
    }
  }

  /** Adding bucket n to the elements with key 1..n-1 gives those with key 1..n. */
  lemma BucketsStep<T>(s: seq<T>, key: T -> int, f: T -> int, n: nat)
    requires n >= 1
    ensures |Filter(s, KeyBetween(key, 1, n))| == |Filter(s, KeyBetween(key, 1, n - 1))| + |Filter(s, KeyIs(key, n))|
    ensures SumBy(Filter(s, KeyBetween(key, 1, n)), f)
            == SumBy(Filter(s, KeyBetween(key, 1, n - 1)), f) + SumBy(Filter(s, KeyIs(key, n)), f)
  {
    var below, at, upto := KeyBetween(key, 1, n - 1), KeyIs(key, n), KeyBetween(key, 1, n);
    forall k | 0 <= k < |s| ensures upto(s[k]) == (below(s[k]) || at(s[k])) && !(below(s[k]) && at(s[k])) {
      BucketSplit(s[k], key, n);
    }
    FilterUnion(s, below, at, upto, f);
  }

  /** Keys 1..n are keys 1..n-1 or key n, never both. */
  lemma BucketSplit<T>(x: T, key: T -> int, n: int)
    requires n >= 1
    ensures KeyBetween(key, 1, n)(x) == (KeyBetween(key, 1, n - 1)(x) || KeyIs(key, n)(x))
    ensures !(KeyBetween(key, 1, n - 1)(x) && KeyIs(key, n)(x))
  {
    var v := key(x);
    assert KeyBetween(key, 1, n)(x) == (1 <= v <= n);
    assert KeyBetween(key, 1, n - 1)(x) == (1 <= v <= n - 1);
    assert KeyIs(key, n)(x) == (v == n);
  }

  /** No key lies in 1..0. */
  lemma BucketsNone<T>(s: seq<T>, key: T -> int, f: T -> int)
    ensures |Filter(s, KeyBetween(key, 1, 0))| == 0
    ensures SumBy(Filter(s, KeyBetween(key, 1, 0)), f) == 0
  {
    forall k | 0 <= k < |s| ensures !KeyBetween(key, 1, 0)(s[k]) {
      var v := key(s[k]);
      assert KeyBetween(key, 1, 0)(s[k]) == (1 <= v <= 0);
    }
    FilterNone(s, KeyBetween(key, 1, 0));
  }

  /** The distinct values of `f` along `s`: `new Set(s.map(f)).size` counts them. */
  function Image<T, U>(s: seq<T>, f: T -> U): set<U> {
    set k | 0 <= k < |s| :: f(s[k])
  }

  lemma {:induction false} ImageCard<T, U>(s: seq<T>, f: T -> U)
    ensures |Image(s, f)| <= |s|
  {
    if |s| > 0 {
      var init := s[..|s| - 1];
      ImageCard(init, f);
      assert Image(s, f) == Image(init, f) + {f(s[|s| - 1])};
    }
  }

  function Sum(s: seq<int>): int {
    if |s| == 0 then 0 else Sum(s[..|s| - 1]) + s[|s| - 1]
  }

  lemma {:induction false} SumAppend(a: seq<int>, b: seq<int>)
    ensures Sum(a + b) == Sum(a) + Sum(b)
  {
    if |b| > 0 {
      assert (a + b)[..|a + b| - 1] == a + b[..|b| - 1];
      SumAppend(a, b[..|b| - 1]);
    } else {
      assert a + b == a;
    }
  }
}
