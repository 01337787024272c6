/** JavaScript's `Array.prototype.filter` and the stable `Array.prototype.sort` (ECMA-262, since the
    2019 edition), as functions on sequences.  A stable sort is determined by two facts: the result
    is ordered by key, and elements with equal keys keep their order.  `Unique` says there is only
    one such sequence, and every later use of `Sort` goes through it. */
module StableSort {

  function Filter<T>(s: seq<T>, p: T -> bool): seq<T> {
    if s == [] then []
    else if p(s[0]) then [s[0]] + Filter(s[1..], p)
    else Filter(s[1..], p)
  }

  /** The elements of `s` whose key is `k`, in order. */
  function WithKey<T>(s: seq<T>, key: T -> int, k: int): seq<T> {
    if s == [] then []
    else if key(s[0]) == k then [s[0]] + WithKey(s[1..], key, k)
    else WithKey(s[1..], key, k)
  }

  ghost predicate Sorted<T>(s: seq<T>, key: T -> int) {
    forall i, j :: 0 <= i < j < |s| ==> key(s[i]) <= key(s[j])
  }

  /** Put `x` into the ordered `s` behind every element whose key is not larger. */
  function Insert<T>(s: seq<T>, x: T, key: T -> int): seq<T> {
    if s == [] then [x]
    else if key(s[0]) <= key(x) then [s[0]] + Insert(s[1..], x, key)
    else [x] + s
  }

  function Sort<T>(s: seq<T>, key: T -> int): seq<T> {
    if s == [] then [] else Insert(Sort(s[..|s| - 1], key), s[|s| - 1], key)
  }

  // ---- Filter -----------------------------------------------------------------------------------

  lemma {:induction false} FilterAppend<T>(a: seq<T>, b: seq<T>, p: T -> bool)
    ensures Filter(a + b, p) == Filter(a, p) + Filter(b, p)
  {
    if a == [] {
      assert a + b == b;
    } else {
      assert (a + b)[1..] == a[1..] + b;
      FilterAppend(a[1..], b, p);
    }
  }

  lemma {:induction false} FilterIn<T>(s: seq<T>, p: T -> bool, x: T)
    ensures x in Filter(s, p) <==> x in s && p(x)
  {
    if s != [] { FilterIn(s[1..], p, x); }
  }

  lemma {:induction false} FilterAll<T>(s: seq<T>, p: T -> bool)
    requires forall x :: x in s ==> p(x)
    ensures Filter(s, p) == s
  {
    if s != [] { FilterAll(s[1..], p); }
  }

  lemma {:induction false} FilterNone<T>(s: seq<T>, p: T -> bool)
    requires forall x :: x in s ==> !p(x)
    ensures Filter(s, p) == []
  {
    if s != [] { FilterNone(s[1..], p); }
  }

  lemma {:induction false} FilterSwap<T>(s: seq<T>, p: T -> bool, q: T -> bool)
    ensures Filter(Filter(s, p), q) == Filter(Filter(s, q), p)
  {
    if s != [] { FilterSwap(s[1..], p, q); }
  }

  lemma {:induction false} FilterSorted<T>(s: seq<T>, p: T -> bool, key: T -> int)
    requires Sorted(s, key)
    ensures Sorted(Filter(s, p), key)
  {
    if s != [] {
      FilterSorted(s[1..], p, key);
      forall x | x in Filter(s[1..], p) ensures key(s[0]) <= key(x) { FilterIn(s[1..], p, x); }
    }
  }

  // ---- Elements with one key --------------------------------------------------------------------

  lemma {:induction false} WithKeyAppend<T>(a: seq<T>, b: seq<T>, key: T -> int, k: int)
    ensures WithKey(a + b, key, k) == WithKey(a, key, k) + WithKey(b, key, k)
  {
    if a == [] {
      assert a + b == b;
    } else {
      assert (a + b)[1..] == a[1..] + b;
      WithKeyAppend(a[1..], b, key, k);
    }
  }

  lemma {:induction false} WithKeyIn<T>(s: seq<T>, key: T -> int, k: int, x: T)
    ensures x in WithKey(s, key, k) <==> x in s && key(x) == k
  {
    if s != [] { WithKeyIn(s[1..], key, k, x); }
  }

  lemma {:induction false} WithKeyFilter<T>(s: seq<T>, p: T -> bool, key: T -> int, k: int)
    ensures WithKey(Filter(s, p), key, k) == Filter(WithKey(s, key, k), p)
  {
    if s != [] { WithKeyFilter(s[1..], p, key, k); }
  }

  // ---- Sort -------------------------------------------------------------------------------------

  lemma {:induction false} InsertPermutes<T>(s: seq<T>, x: T, key: T -> int)
    ensures multiset(Insert(s, x, key)) == multiset(s) + multiset{x}
  {
    if s != [] {
      assert s == [s[0]] + s[1..];
      InsertPermutes(s[1..], x, key);
    }
  }

  lemma {:induction false} InsertSorted<T>(s: seq<T>, x: T, key: T -> int)
    requires Sorted(s, key)
    ensures Sorted(Insert(s, x, key), key)
  {
    if s != [] && key(s[0]) <= key(x) {
      InsertSorted(s[1..], x, key);
      InsertPermutes(s[1..], x, key);
      forall y | y in Insert(s[1..], x, key) ensures key(s[0]) <= key(y) {
        assert y in multiset(Insert(s[1..], x, key));
        assert y in s[1..] || y == x;
      }
    }
  }

  lemma {:induction false} InsertIsStable<T>(s: seq<T>, x: T, key: T -> int, k: int)
    requires Sorted(s, key)
    ensures WithKey(Insert(s, x, key), key, k) == WithKey(s + [x], key, k)
  {
    if s != [] && key(s[0]) <= key(x) {
      InsertIsStable(s[1..], x, key, k);
      assert (s + [x])[1..] == s[1..] + [x];
    } else {
      WithKeyAppend(s, [x], key, k);
      assert ([x] + s)[1..] == s;
      var w := WithKey(s, key, k);
      if key(x) == k && w != [] { WithKeyIn(s, key, k, w[0]); }
    }
  }

  /** `Sort` is an ordered permutation that keeps the order of equal keys. */
  lemma {:induction false} SortIsStable<T>(s: seq<T>, key: T -> int, k: int)
    ensures Sorted(Sort(s, key), key)
    ensures multiset(Sort(s, key)) == multiset(s)
    ensures WithKey(Sort(s, key), key, k) == WithKey(s, key, k)
  {
    if s != [] {
      var front, last := s[..|s| - 1], s[|s| - 1];
      assert s == front + [last];
      SortIsStable(front, key, k);
      InsertPermutes(Sort(front, key), last, key);
      InsertSorted(Sort(front, key), last, key);
      InsertIsStable(Sort(front, key), last, key, k);
      WithKeyAppend(Sort(front, key), [last], key, k);
      WithKeyAppend(front, [last], key, k);
    }
  }

  lemma {:induction false} FirstOfKey<T>(s: seq<T>, t: seq<T>, key: T -> int)
    requires Sorted(t, key) && s != []
    requires WithKey(s, key, key(s[0])) == WithKey(t, key, key(s[0]))
    ensures t != [] && key(t[0]) <= key(s[0])
  {
    WithKeyIn(t, key, key(s[0]), s[0]);
  }

  /** Two ordered sequences that agree on the elements of every key are the same sequence. */
  lemma {:induction false} Unique<T>(a: seq<T>, b: seq<T>, key: T -> int)
    requires Sorted(a, key) && Sorted(b, key)
    requires forall k :: WithKey(a, key, k) == WithKey(b, key, k)
    ensures a == b
  {
    if a == [] && b == [] {
    } else if a == [] {
      FirstOfKey(b, a, key);
    } else {
      FirstOfKey(a, b, key);
      FirstOfKey(b, a, key);
      assert a[0] == WithKey(a, key, key(a[0]))[0] == WithKey(b, key, key(b[0]))[0] == b[0];
      forall k ensures WithKey(a[1..], key, k) == WithKey(b[1..], key, k) {
        assert WithKey(a, key, k) == WithKey(b, key, k);
        var head := if key(a[0]) == k then [a[0]] else [];
        assert WithKey(a, key, k) == head + WithKey(a[1..], key, k);
        assert WithKey(b, key, k) == head + WithKey(b[1..], key, k);
        assert WithKey(a[1..], key, k) == WithKey(a, key, k)[|head|..];
      }
      Unique(a[1..], b[1..], key);
    }
  }

  /** `t` is the stable sort of `s` as soon as it is ordered and agrees with `s` key by key. */
  lemma SortUnique<T>(s: seq<T>, t: seq<T>, key: T -> int)
    requires Sorted(t, key)
    requires forall k :: WithKey(t, key, k) == WithKey(s, key, k)
    ensures Sort(s, key) == t
  {
    forall k ensures WithKey(Sort(s, key), key, k) == WithKey(t, key, k) { SortIsStable(s, key, k); }
    SortIsStable(s, key, 0);
    Unique(Sort(s, key), t, key);
  }

  /** Filtering before or after a stable sort gives the same sequence. */
  lemma FilterSort<T>(s: seq<T>, p: T -> bool, key: T -> int)
    ensures Filter(Sort(s, key), p) == Sort(Filter(s, p), key)
  {
    SortIsStable(s, key, 0);
    FilterSorted(Sort(s, key), p, key);
    forall k ensures WithKey(Filter(Sort(s, key), p), key, k) == WithKey(Filter(s, p), key, k) {
      SortIsStable(s, key, k);
      WithKeyFilter(Sort(s, key), p, key, k);
      WithKeyFilter(s, p, key, k);
    }
    SortUnique(Filter(s, p), Filter(Sort(s, key), p), key);
  }

  lemma SortIn<T>(s: seq<T>, key: T -> int, x: T)
    ensures x in Sort(s, key) <==> x in s
  {
    SortIsStable(s, key, 0);
    assert x in multiset(s) <==> x in multiset(Sort(s, key));
  }
}
