/** A model of Python's `list.sort(key=..., reverse=True)`: a stable sort, highest key first.
    The reference definition is an insertion sort; the lemmas below prove the three
    properties the library promises: the result is ordered, it is a permutation of the
    input, and elements with equal keys keep their input order. */
module Sorting {

  /** Keys never increase from left to right. */
  predicate SortedDesc<T>(s: seq<T>, key: T -> real)
  {
    forall i, j :: 0 <= i < j < |s| ==> key(s[i]) >= key(s[j])
  }

  /** Insert `x` before the first element whose key is smaller than `x`'s, that is,
      after every element whose key is at least as large. */
  function Insert<T>(x: T, s: seq<T>, key: T -> real): seq<T>
  {
    if s == [] then [x]
    else if key(s[0]) < key(x) then [x] + s
    else [s[0]] + Insert(x, s[1..], key)
  }

  /** Stable sort by descending key (insertion of each element in input order). */
  function SortDesc<T>(s: seq<T>, key: T -> real): seq<T>
  {
    if s == [] then [] else Insert(s[|s| - 1], SortDesc(s[..|s| - 1], key), key)
  }

  /** The elements of `s` whose key is exactly `k`, in order. */
  function WithKey<T>(s: seq<T>, key: T -> real, k: real): seq<T>
  {
    if s == [] then []
    else (if key(s[0]) == k then [s[0]] else []) + WithKey(s[1..], key, k)
  }

  lemma {:induction false} InsertPermutation<T>(x: T, s: seq<T>, key: T -> real)
    ensures multiset(Insert(x, s, key)) == multiset(s) + multiset{x}
  {
    if s != [] && key(s[0]) >= key(x) {
      InsertPermutation(x, s[1..], key);
      assert s == [s[0]] + s[1..];
    }
  }

  lemma {:induction false} InsertSorted<T>(x: T, s: seq<T>, key: T -> real)
    requires SortedDesc(s, key)
    ensures SortedDesc(Insert(x, s, key), key)
  {
    if s != [] && key(s[0]) >= key(x) {
      InsertSorted(x, s[1..], key);
      InsertPermutation(x, s[1..], key);
      var r := Insert(x, s[1..], key);
      forall i | 0 <= i < |r| ensures key(s[0]) >= key(r[i]) {
        assert r[i] in multiset(r);
        assert r[i] in multiset(s[1..]) || r[i] == x;
        if r[i] != x {
          var j :| 0 <= j < |s[1..]| && s[1..][j] == r[i];
          assert s[j + 1] == r[i];
        }
      }
    }
  }

  /** The reference sort is ordered by descending key. */
  lemma {:induction false} SortDescSorted<T>(s: seq<T>, key: T -> real)
    ensures SortedDesc(SortDesc(s, key), key)
  {
    if s != [] {
      SortDescSorted(s[..|s| - 1], key);
      InsertSorted(s[|s| - 1], SortDesc(s[..|s| - 1], key), key);
    }
  }

  /** The reference sort is a permutation of its input. */
  lemma {:induction false} SortDescPermutation<T>(s: seq<T>, key: T -> real)
    ensures multiset(SortDesc(s, key)) == multiset(s)
  {
    if s != [] {
      var init, last := s[..|s| - 1], s[|s| - 1];
      calc {
        multiset(SortDesc(s, key));
        multiset(Insert(last, SortDesc(init, key), key));
        { InsertPermutation(last, SortDesc(init, key), key); }
        multiset(SortDesc(init, key)) + multiset{last};
        { SortDescPermutation(init, key); }
        multiset(init) + multiset{last};
        { assert s == init + [last]; }
        multiset(s);
      }
    }
  }

  lemma {:induction false} WithKeyConcat<T>(a: seq<T>, b: seq<T>, key: T -> real, k: real)
    ensures WithKey(a + b, key, k) == WithKey(a, key, k) + WithKey(b, key, k)
  {
    if a == [] {
      assert a + b == b;
    } else {
      var ab := a + b;
      assert ab[0] == a[0] && ab[1..] == a[1..] + b;
      var head := if key(a[0]) == k then [a[0]] else [];
      assert WithKey(ab, key, k) == head + WithKey(a[1..] + b, key, k);
      assert WithKey(a, key, k) == head + WithKey(a[1..], key, k);
      WithKeyConcat(a[1..], b, key, k);
    }
  }

  lemma {:induction false} WithKeyAllBelow<T>(s: seq<T>, key: T -> real, k: real)
    requires forall i :: 0 <= i < |s| ==> key(s[i]) < k
    ensures WithKey(s, key, k) == []
  {
    if s != [] {
      WithKeyAllBelow(s[1..], key, k);
    }
  }

  lemma SortedTail<T>(s: seq<T>, key: T -> real)
    requires s != [] && SortedDesc(s, key)
    ensures SortedDesc(s[1..], key)
    ensures forall i :: 0 <= i < |s| ==> key(s[i]) <= key(s[0])
  {
  }

  lemma {:induction false} InsertStable<T>(x: T, s: seq<T>, key: T -> real, k: real)
    requires SortedDesc(s, key)
    ensures WithKey(Insert(x, s, key), key, k)
         == WithKey(s, key, k) + (if key(x) == k then [x] else [])
  {
    if s == [] {
    } else if key(s[0]) < key(x) {
      var r := [x] + s;
      assert Insert(x, s, key) == r && r[0] == x && r[1..] == s;
      if key(x) == k {
        SortedTail(s, key);
        WithKeyAllBelow(s, key, k);
        assert WithKey(r, key, k) == [x] + WithKey(s, key, k);
      } else {
        assert WithKey(r, key, k) == WithKey(s, key, k);
      }
    } else {
      var tail := Insert(x, s[1..], key);
      var r := [s[0]] + tail;
      assert Insert(x, s, key) == r && r[0] == s[0] && r[1..] == tail;
      SortedTail(s, key);
      InsertStable(x, s[1..], key, k);
      var head := if key(s[0]) == k then [s[0]] else [];
      assert WithKey(r, key, k) == head + WithKey(tail, key, k);
      assert WithKey(s, key, k) == head + WithKey(s[1..], key, k);
    }
  }

  /** Inserting into a sorted prefix keeps the same-key order and appends `x` to it. */
  lemma InsertSortedStable<T>(x: T, init: seq<T>, key: T -> real, k: real)
    ensures WithKey(Insert(x, SortDesc(init, key), key), key, k)
         == WithKey(SortDesc(init, key), key, k) + (if key(x) == k then [x] else [])
  {
    SortDescSorted(init, key);
    InsertStable(x, SortDesc(init, key), key, k);
  }

  /** Stability: for every key value, the elements carrying it appear in the sorted
      result in the same order as in the input. */
  lemma {:induction false} SortDescStable<T>(s: seq<T>, key: T -> real, k: real)
    ensures WithKey(SortDesc(s, key), key, k) == WithKey(s, key, k)
  {
    if s != [] {
      var init, last := s[..|s| - 1], s[|s| - 1];
      var lastK := if key(last) == k then [last] else [];
      calc {
        WithKey(SortDesc(s, key), key, k);
        WithKey(Insert(last, SortDesc(init, key), key), key, k);
        { InsertSortedStable(last, init, key, k); }
        WithKey(SortDesc(init, key), key, k) + lastK;
        { SortDescStable(init, key, k); }
        WithKey(init, key, k) + lastK;
        { assert WithKey([last], key, k) == lastK; WithKeyConcat(init, [last], key, k); }
        WithKey(init + [last], key, k);
        { assert s == init + [last]; }
        WithKey(s, key, k);
      }
    }
  }
}
