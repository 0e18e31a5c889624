/**
 * Sequence helpers shared by the store, the ranker and the planner:
 * order-preserving filtering, a stable sort by a real-valued key, and
 * the JavaScript `slice(0, end)` prefix.
 */
module Seqs {

  /** The elements of `s` satisfying `p`, in their original order (`Array.prototype.filter`). */
  function Filter<T>(s: seq<T>, p: T -> bool): (r: seq<T>)
    ensures |r| <= |s|
    ensures forall i :: 0 <= i < |r| ==> r[i] in s && p(r[i])
    ensures forall i :: 0 <= i < |s| && p(s[i]) ==> s[i] in r
    ensures multiset(r) <= multiset(s)
  {
    if s == [] then []
    else
      var init, x := s[..|s| - 1], s[|s| - 1];
      assert s == init + [x];
      if p(x) then Filter(init, p) + [x] else Filter(init, p)
  }

  lemma FilterLast<T>(s: seq<T>, p: T -> bool)
    requires s != []
    ensures Filter(s, p) == Filter(s[..|s| - 1], p) + (if p(s[|s| - 1]) then [s[|s| - 1]] else [])
  {
  }

  lemma {:induction false} FilterAppend<T>(a: seq<T>, b: seq<T>, p: T -> bool)
    ensures Filter(a + b, p) == Filter(a, p) + Filter(b, p)
    decreases |b|
  {
    if b == [] {
      assert a + b == a;
    } else {
      assert (a + b)[..|a + b| - 1] == a + b[..|b| - 1];
      FilterAppend(a, b[..|b| - 1], p);
    }
  }

  /** Filtering by a predicate every element already satisfies changes nothing. */
  lemma {:induction false} FilterAll<T>(s: seq<T>, p: T -> bool)
    requires forall i :: 0 <= i < |s| ==> p(s[i])
    ensures Filter(s, p) == s
  {
    if s != [] {
      var init, x := s[..|s| - 1], s[|s| - 1];
      assert p(x);
      calc {
        Filter(s, p);
        == { FilterLast(s, p); }
        Filter(init, p) + [x];
        == { FilterAll(init, p); }
        init + [x];
        == s;
      }
    }
  }

  /** Filtering a sequence without repetitions gives one without repetitions. */
  lemma {:induction false} FilterDistinct<T>(s: seq<T>, p: T -> bool)
    requires forall i, j :: 0 <= i < j < |s| ==> s[i] != s[j]
    ensures forall i, j :: 0 <= i < j < |Filter(s, p)| ==> Filter(s, p)[i] != Filter(s, p)[j]
  {
    if s != [] {
      var init, x := s[..|s| - 1], s[|s| - 1];
      assert s == init + [x];
      FilterDistinct(init, p);
      assert x !in init;
    }
  }

  lemma IncreasingSnoc<T>(r: seq<T>, x: T, f: T -> int)
    requires forall i, j :: 0 <= i < j < |r| ==> f(r[i]) < f(r[j])
    requires forall i :: 0 <= i < |r| ==> f(r[i]) < f(x)
    ensures forall i, j :: 0 <= i < j < |r + [x]| ==> f((r + [x])[i]) < f((r + [x])[j])
  {
  }

  /** Filtering keeps any strictly increasing measure strictly increasing. */
  lemma {:induction false} FilterIncreasing<T>(s: seq<T>, p: T -> bool, f: T -> int)
    requires forall i, j :: 0 <= i < j < |s| ==> f(s[i]) < f(s[j])
    ensures forall i, j :: 0 <= i < j < |Filter(s, p)| ==> f(Filter(s, p)[i]) < f(Filter(s, p)[j])
  {
    if s != [] {
      var init, x := s[..|s| - 1], s[|s| - 1];
      assert s == init + [x];
      FilterIncreasing(init, p, f);
      FilterLast(s, p);
      var r := Filter(init, p);
      if p(x) {
        forall i | 0 <= i < |r| ensures f(r[i]) < f(x) {
          var k :| 0 <= k < |init| && init[k] == r[i];
        }
        IncreasingSnoc(r, x, f);
        assert Filter(s, p) == r + [x];
      } else {
        assert Filter(s, p) == r;
      }
    }
  }

  /** `s` is ordered by `key`, smallest first. */
  ghost predicate SortedBy<T>(s: seq<T>, key: T -> real) {
    forall i, j :: 0 <= i < j < |s| ==> key(s[i]) <= key(s[j])
  }

  /** The elements of `s` whose key is exactly `k`, in their original order. */
  function WithKey<T>(s: seq<T>, key: T -> real, k: real): seq<T> {
    if s == [] then []
    else (if key(s[0]) == k then [s[0]] else []) + WithKey(s[1..], key, k)
  }

  lemma {:induction false} WithKeyAppend<T>(a: seq<T>, b: seq<T>, key: T -> real, k: real)
    ensures WithKey(a + b, key, k) == WithKey(a, key, k) + WithKey(b, key, k)
  {
    if a != [] {
      assert (a + b)[0] == a[0];
      assert (a + b)[1..] == a[1..] + b;
      WithKeyAppend(a[1..], b, key, k);
    } else {
      assert a + b == b;
    }
  }

  /** Taking a prefix keeps, for every key, a prefix of the elements with that key. */
  lemma WithKeyPrefix<T>(a: seq<T>, b: seq<T>, key: T -> real, k: real)
    requires a <= b
    ensures WithKey(a, key, k) <= WithKey(b, key, k)
  {
    assert b == a + b[|a|..];
    WithKeyAppend(a, b[|a|..], key, k);
  }

  lemma {:induction false} WithKeyAbove<T>(s: seq<T>, key: T -> real, k: real)
    requires forall i :: 0 <= i < |s| ==> k < key(s[i])
    ensures WithKey(s, key, k) == []
  {
    if s != [] {
      WithKeyAbove(s[1..], key, k);
    }
  }

  /** Stability: every run of equal keys keeps the relative order it had in `s`. */
  ghost predicate StablePermutationOf<T>(r: seq<T>, s: seq<T>, key: T -> real) {
    && multiset(r) == multiset(s)
    && forall k :: WithKey(r, key, k) == WithKey(s, key, k)
  }

  /** Inserts `x` into sorted `s` before the first element with a strictly larger key. */
  function InsertBy<T>(x: T, s: seq<T>, key: T -> real): (r: seq<T>)
    ensures |r| == |s| + 1
    ensures multiset(r) == multiset(s) + multiset{x}
  {
    if s == [] then [x]
    else if key(x) < key(s[0]) then [x] + s
    else
      assert s == [s[0]] + s[1..];
      [s[0]] + InsertBy(x, s[1..], key)
  }

  /**
   * Stable insertion sort, ascending by `key`. It stands for
   * `Array.prototype.sort` with a numeric comparator (stable since ES2019)
   * and for SQL `ORDER BY`.
   */
  function SortBy<T>(s: seq<T>, key: T -> real): (r: seq<T>)
    ensures |r| == |s|
    ensures multiset(r) == multiset(s)
  {
    if s == [] then []
    else
      assert s == s[..|s| - 1] + [s[|s| - 1]];
      InsertBy(s[|s| - 1], SortBy(s[..|s| - 1], key), key)
  }

  lemma {:induction false} InsertBySorted<T>(x: T, s: seq<T>, key: T -> real)
    requires SortedBy(s, key)
    ensures SortedBy(InsertBy(x, s, key), key)
  {
    if s != [] && key(x) >= key(s[0]) {
      InsertBySorted(x, s[1..], key);
      var t := InsertBy(x, s[1..], key);
      forall i | 0 <= i < |t| ensures key(s[0]) <= key(t[i]) {
        assert t[i] in multiset(t);
        assert t[i] == x || t[i] in multiset(s[1..]);
      }
    }
  }

  lemma {:induction false} InsertByWithKey<T>(x: T, s: seq<T>, key: T -> real, k: real)
    requires SortedBy(s, key)
    ensures WithKey(InsertBy(x, s, key), key, k) == WithKey(s + [x], key, k)
  {
    if s == [] {
      assert s + [x] == [x];
    } else if key(x) < key(s[0]) {
      InsertBeforeWithKey(x, s, key, k);
    } else {
      var t := InsertBy(x, s[1..], key);
      var head := if key(s[0]) == k then [s[0]] else [];
      calc {
        WithKey(InsertBy(x, s, key), key, k);
        == { assert InsertBy(x, s, key) == [s[0]] + t; WithKeyCons(s[0], t, key, k); }
        head + WithKey(t, key, k);
        == { InsertByWithKey(x, s[1..], key, k); }
        head + WithKey(s[1..] + [x], key, k);
        == { assert s + [x] == [s[0]] + (s[1..] + [x]); WithKeyCons(s[0], s[1..] + [x], key, k); }
        WithKey(s + [x], key, k);
      }
    }
  }

  lemma WithKeyCons<T>(x: T, s: seq<T>, key: T -> real, k: real)
    ensures WithKey([x] + s, key, k) == (if key(x) == k then [x] else []) + WithKey(s, key, k)
  {
    assert ([x] + s)[0] == x && ([x] + s)[1..] == s;
  }

  /** Inserting in front of a sorted sequence whose keys are all larger. */
  lemma InsertBeforeWithKey<T>(x: T, s: seq<T>, key: T -> real, k: real)
    requires SortedBy(s, key) && s != [] && key(x) < key(s[0])
    ensures WithKey([x] + s, key, k) == WithKey(s + [x], key, k)
  {
    WithKeyCons(x, s, key, k);
    WithKeyAppend(s, [x], key, k);
    WithKeyCons(x, [], key, k);
    assert [x] + [] == [x];
    if key(x) == k {
      WithKeyAbove(s, key, k);
    }
  }

  /** The sort orders by key and is a stable permutation of its input. */
  lemma {:induction false} SortByCorrect<T>(s: seq<T>, key: T -> real)
    ensures SortedBy(SortBy(s, key), key)
    ensures StablePermutationOf(SortBy(s, key), s, key)
  {
    if s != [] {
      var init, x := s[..|s| - 1], s[|s| - 1];
      SortByCorrect(init, key);
      InsertBySorted(x, SortBy(init, key), key);
      assert s == init + [x];
      forall k ensures WithKey(SortBy(s, key), key, k) == WithKey(s, key, k) {
        InsertByWithKey(x, SortBy(init, key), key, k);
        WithKeyAppend(SortBy(init, key), [x], key, k);
        WithKeyAppend(init, [x], key, k);
      }
    }
  }

  /** The elements of `r` with key `k` are the first elements of `s` with that key, in the same order. */
  ghost predicate KeyOrderKept<T>(r: seq<T>, s: seq<T>, key: T -> real, k: real) {
    WithKey(r, key, k) <= WithKey(s, key, k)
  }

  /** Cutting the sorted sequence to any length keeps, for every key, the order those elements had in `s`. */
  lemma SortedSliceStable<T>(s: seq<T>, key: T -> real, end: int, k: real)
    ensures KeyOrderKept(SliceTo(SortBy(s, key), end), s, key, k)
  {
    SortByCorrect(s, key);
    WithKeyPrefix(SliceTo(SortBy(s, key), end), SortBy(s, key), key, k);
  }

  lemma SortedSnoc<T>(r: seq<T>, x: T, key: T -> real)
    requires SortedBy(r, key)
    requires forall i :: 0 <= i < |r| ==> key(r[i]) <= key(x)
    ensures SortedBy(r + [x], key)
  {
  }

  /** Filtering keeps a sorted sequence sorted. */
  lemma {:induction false} FilterSorted<T>(s: seq<T>, p: T -> bool, key: T -> real)
    requires SortedBy(s, key)
    ensures SortedBy(Filter(s, p), key)
  {
    if s != [] {
      var init, x := s[..|s| - 1], s[|s| - 1];
      FilterSorted(init, p, key);
      FilterLast(s, p);
      var f := Filter(init, p);
      forall i | 0 <= i < |f| ensures key(f[i]) <= key(x) {
        var j :| 0 <= j < |init| && init[j] == f[i];
      }
      SortedSnoc(f, x, key);
    }
  }

  /** `r` is `s` with some elements left out, the rest in their original order. */
  ghost predicate Subsequence<T>(r: seq<T>, s: seq<T>)
    decreases |s|
  {
    if r == [] then true
    else if s == [] then false
    else Subsequence(r, s[..|s| - 1]) || (r[|r| - 1] == s[|s| - 1] && Subsequence(r[..|r| - 1], s[..|s| - 1]))
  }

  /** Filtering keeps the order: its result is a subsequence of its input. */
  lemma {:induction false} FilterSubsequence<T>(s: seq<T>, p: T -> bool)
    ensures Subsequence(Filter(s, p), s)
    decreases |s|
  {
    if s != [] {
      var init, x := s[..|s| - 1], s[|s| - 1];
      FilterSubsequence(init, p);
      FilterLast(s, p);
      if p(x) {
        var f := Filter(init, p) + [x];
        assert f[..|f| - 1] == Filter(init, p);
      }
    }
  }

  /** Every sequence is a subsequence of itself. */
  lemma {:induction false} SubsequenceSelf<T>(s: seq<T>)
    ensures Subsequence(s, s)
    decreases |s|
  {
    if s != [] {
      SubsequenceSelf(s[..|s| - 1]);
    }
  }

  /** JavaScript `s.slice(0, end)`: a negative `end` counts back from the end. */
  function SliceTo<T>(s: seq<T>, end: int): (r: seq<T>)
    ensures end >= 0 ==> |r| == if end < |s| then end else |s|
    ensures end < 0 ==> |r| == if |s| + end > 0 then |s| + end else 0
    ensures r <= s
  {
    if end >= 0 then (if end < |s| then s[..end] else s)
    else if |s| + end > 0 then s[..|s| + end]
    else []
  }

  /** In a sequence without repeats, every value occurs at most once. */
  lemma {:induction false} DistinctOnce<T>(s: seq<T>, x: T)
    requires forall i, j :: 0 <= i < j < |s| ==> s[i] != s[j]
    ensures multiset(s)[x] <= 1
  {
    if s != [] {
      var init, y := s[..|s| - 1], s[|s| - 1];
      assert s == init + [y];
      DistinctOnce(init, x);
      assert y !in init;
    }
  }

  /** A part (as a multiset) of a sequence without repeats has no repeats either. */
  lemma SubDistinct<T>(r: seq<T>, s: seq<T>)
    requires multiset(r) <= multiset(s)
    requires forall i, j :: 0 <= i < j < |s| ==> s[i] != s[j]
    ensures forall i, j :: 0 <= i < j < |r| ==> r[i] != r[j]
  {
    forall i, j | 0 <= i < j < |r| ensures r[i] != r[j] {
      var x := r[i];
      assert r == r[..i] + [x] + r[i + 1..j] + [r[j]] + r[j + 1..];
      DistinctOnce(s, x);
    }
  }

  /** A prefix holds part of the sequence's elements. */
  lemma PrefixPart<T>(r: seq<T>, s: seq<T>)
    requires r <= s
    ensures multiset(r) <= multiset(s)
  {
    assert s == r + s[|r|..];
  }
}
