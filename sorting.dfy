/** Ordering by keys. Every sort in the application (SQL `ORDER BY`,
    `Array.prototype.sort` with a key comparator) is modelled by a key
    function into `seq<int>` compared lexicographically: strings become
    their character codes, dates `[year, month, day]`, numbers `[n]`. */
module Sorting {

  /** Lexicographic order on integer sequences; a proper prefix comes first,
      as in JavaScript's string comparison. */
  predicate LexLe(a: seq<int>, b: seq<int>) {
    |a| == 0 || (|b| > 0 && (a[0] < b[0] || (a[0] == b[0] && LexLe(a[1..], b[1..]))))
  }

  lemma {:induction false} LexLeTotal(a: seq<int>, b: seq<int>)
    ensures LexLe(a, b) || LexLe(b, a)
  {
    if |a| > 0 && |b| > 0 && a[0] == b[0] {
      LexLeTotal(a[1..], b[1..]);
    }
  }

  lemma {:induction false} LexLeTrans(a: seq<int>, b: seq<int>, c: seq<int>)
    requires LexLe(a, b) && LexLe(b, c)
    ensures LexLe(a, c)
  {
    if |a| > 0 && |b| > 0 && |c| > 0 && a[0] == b[0] == c[0] {
      LexLeTrans(a[1..], b[1..], c[1..]);
    }
  }

  function CharCodes(s: string): (r: seq<int>)
    ensures |r| == |s|
  {
    seq(|s|, i requires 0 <= i < |s| => s[i] as int)
  }

  /** `x` may precede `y` in a list ordered by `key`, ascending or descending. */
  predicate Before<T>(x: T, y: T, key: T -> seq<int>, desc: bool) {
    if desc then LexLe(key(y), key(x)) else LexLe(key(x), key(y))
  }

  lemma BeforeTotal<T>(x: T, y: T, key: T -> seq<int>, desc: bool)
    ensures Before(x, y, key, desc) || Before(y, x, key, desc)
  {
    LexLeTotal(key(x), key(y));
  }

  lemma BeforeTrans<T>(x: T, y: T, z: T, key: T -> seq<int>, desc: bool)
    requires Before(x, y, key, desc) && Before(y, z, key, desc)
    ensures Before(x, z, key, desc)
  {
    if desc {
      LexLeTrans(key(z), key(y), key(x));
    } else {
      LexLeTrans(key(x), key(y), key(z));
    }
  }

  predicate SortedBy<T>(s: seq<T>, key: T -> seq<int>, desc: bool) {
    forall i, j :: 0 <= i < j < |s| ==> Before(s[i], s[j], key, desc)
  }

  /** Inserts `x` after every element that may precede it, so that equal
      keys keep their original order (a stable sort). */
  function Insert<T>(x: T, s: seq<T>, key: T -> seq<int>, desc: bool): (r: seq<T>)
    ensures multiset(r) == multiset(s) + multiset{x}
  {
    if |s| == 0 then [x]
    else if Before(s[0], x, key, desc) then
      assert s == [s[0]] + s[1..];
      [s[0]] + Insert(x, s[1..], key, desc)
    else [x] + s
  }

  /** Every element of `s` may follow `y`. */
  predicate AllAfter<T>(y: T, s: seq<T>, key: T -> seq<int>, desc: bool) {
    forall k :: 0 <= k < |s| ==> Before(y, s[k], key, desc)
  }

  lemma {:induction false} InsertAllAfter<T>(y: T, x: T, s: seq<T>, key: T -> seq<int>, desc: bool)
    requires AllAfter(y, s, key, desc) && Before(y, x, key, desc)
    ensures AllAfter(y, Insert(x, s, key, desc), key, desc)
  {
    if |s| > 0 && Before(s[0], x, key, desc) {
      InsertAllAfter(y, x, s[1..], key, desc);
      var r := Insert(x, s[1..], key, desc);
      assert Insert(x, s, key, desc) == [s[0]] + r;
    }
  }

  lemma {:induction false} InsertSorted<T>(x: T, s: seq<T>, key: T -> seq<int>, desc: bool)
    requires SortedBy(s, key, desc)
    ensures SortedBy(Insert(x, s, key, desc), key, desc)
  {
    if |s| == 0 {
    } else if Before(s[0], x, key, desc) {
      var rest := Insert(x, s[1..], key, desc);
      InsertSorted(x, s[1..], key, desc);
      assert AllAfter(s[0], s[1..], key, desc);
      InsertAllAfter(s[0], x, s[1..], key, desc);
      var r := [s[0]] + rest;
      assert Insert(x, s, key, desc) == r;
      forall i, j | 0 <= i < j < |r| ensures Before(r[i], r[j], key, desc) {
        if i > 0 { assert r[i] == rest[i - 1] && r[j] == rest[j - 1]; }
      }
    } else {
      BeforeTotal(x, s[0], key, desc);
      var r := [x] + s;
      forall i, j | 0 <= i < j < |r| ensures Before(r[i], r[j], key, desc) {
        if i == 0 && j > 1 { BeforeTrans(x, s[0], s[j - 1], key, desc); }
      }
    }
  }

  /** Insertion sort as a list recursion: each element in turn is inserted
      into the sorted prefix before it. */
  function InsertionSort<T>(s: seq<T>, key: T -> seq<int>, desc: bool): seq<T> {
    if |s| == 0 then [] else Insert(s[|s| - 1], InsertionSort(s[..|s| - 1], key, desc), key, desc)
  }

  lemma {:induction false} InsertionSortCorrect<T>(s: seq<T>, key: T -> seq<int>, desc: bool)
    ensures multiset(InsertionSort(s, key, desc)) == multiset(s)
    ensures SortedBy(InsertionSort(s, key, desc), key, desc)
  {
    if |s| > 0 {
      var init := s[..|s| - 1];
      assert s == init + [s[|s| - 1]];
      InsertionSortCorrect(init, key, desc);
      InsertSorted(s[|s| - 1], InsertionSort(init, key, desc), key, desc);
    }
  }

  /** A stable sort by key (the result of `.sort()` with a key comparator). */
  function SortBy<T>(s: seq<T>, key: T -> seq<int>, desc: bool): (r: seq<T>)
    ensures multiset(r) == multiset(s)
    ensures SortedBy(r, key, desc)
  {
    InsertionSortCorrect(s, key, desc);
    InsertionSort(s, key, desc)
  }

  /** Sorting keeps exactly the elements it was given. */
  lemma SortByMembers<T>(s: seq<T>, key: T -> seq<int>, desc: bool)
    ensures forall x :: x in SortBy(s, key, desc) <==> x in s
  {
    var r := SortBy(s, key, desc);
    assert forall x :: x in r <==> x in multiset(r);
  }

  /** A comparator that calls every pair equal (`return 0`) leaves the list as it is. */
  lemma SortByConstant<T>(s: seq<T>, key: T -> seq<int>, desc: bool)
    requires forall k :: 0 <= k < |s| ==> key(s[k]) == []
    ensures SortBy(s, key, desc) == s
  {
    InsertionSortConstant(s, key, desc);
  }

  lemma {:induction false} InsertionSortConstant<T>(s: seq<T>, key: T -> seq<int>, desc: bool)
    requires forall k :: 0 <= k < |s| ==> key(s[k]) == []
    ensures InsertionSort(s, key, desc) == s
  {
    if |s| > 0 {
      var init := s[..|s| - 1];
      InsertionSortConstant(init, key, desc);
      InsertAtEnd(s[|s| - 1], init, key, desc);
      assert init + [s[|s| - 1]] == s;
    }
  }

  lemma {:induction false} InsertAtEnd<T>(x: T, s: seq<T>, key: T -> seq<int>, desc: bool)
    requires key(x) == [] && forall k :: 0 <= k < |s| ==> key(s[k]) == []
    ensures Insert(x, s, key, desc) == s + [x]
  {
    if |s| > 0 {
      InsertAtEnd(x, s[1..], key, desc);
      assert [s[0]] + (s[1..] + [x]) == s + [x];
    }
  }

  /** Insertion sort of an array in place: the result is ordered by `key`
      and is a permutation of the original contents. */
  method SortInPlace<T>(a: array<T>, key: T -> seq<int>, desc: bool)
    modifies a
    ensures SortedBy(a[..], key, desc)
    ensures multiset(a[..]) == multiset(old(a[..]))
  {
    var i := 0;
    while i < a.Length
      invariant 0 <= i <= a.Length
      invariant SortedBy(a[..i], key, desc)
      invariant multiset(a[..]) == multiset(old(a[..]))
    {
      var j := i;
      while j > 0 && !Before(a[j - 1], a[j], key, desc)
        invariant 0 <= j <= i
        invariant multiset(a[..]) == multiset(old(a[..]))
        invariant forall p, q :: 0 <= p < q <= i && p != j && q != j ==> Before(a[p], a[q], key, desc)
        invariant forall q :: j < q <= i ==> Before(a[j], a[q], key, desc)
      {
        BeforeTotal(a[j - 1], a[j], key, desc);
        SwapDown(a, j, i, key, desc);
        j := j - 1;
      }
      forall p | 0 <= p < j ensures Before(a[p], a[j], key, desc) {
        if p < j - 1 { BeforeTrans(a[p], a[j - 1], a[j], key, desc); }
      }
      i := i + 1;
    }
  }

  /** One step of insertion: swaps a[j-1] and a[j] and re-establishes the
      inner loop's invariant one position lower. */
  method SwapDown<T>(a: array<T>, j: int, i: int, key: T -> seq<int>, desc: bool)
    requires 0 < j <= i < a.Length
    requires Before(a[j], a[j - 1], key, desc)
    requires forall p, q :: 0 <= p < q <= i && p != j && q != j ==> Before(a[p], a[q], key, desc)
    requires forall q :: j < q <= i ==> Before(a[j], a[q], key, desc)
    modifies a
    ensures multiset(a[..]) == multiset(old(a[..]))
    ensures forall p, q :: 0 <= p < q <= i && p != j - 1 && q != j - 1 ==> Before(a[p], a[q], key, desc)
    ensures forall q :: j - 1 < q <= i ==> Before(a[j - 1], a[q], key, desc)
  {
    ghost var before := a[..];
    a[j - 1], a[j] := a[j], a[j - 1];
    assert a[..] == before[j - 1 := before[j]][j := before[j - 1]];
    forall q | j < q <= i ensures Before(a[j - 1], a[q], key, desc) {
      assert a[j - 1] == before[j] && a[q] == before[q];
    }
  }
}
