/**
 * Sequence helpers the tables need: keys that identify a row (a primary key),
 * `DELETE ... WHERE` as a filter that keeps table order, and `ORDER BY` on an
 * integer key. Rows with equal sort keys keep their table order; only
 * sortedness and permutation are relied on.
 */
module Sequences {
  import opened Wrappers

  /** No two rows of `s` share a key. */
  predicate UniqueBy<T, K(==)>(s: seq<T>, key: T -> K) {
    forall i, j | 0 <= i < j < |s| :: key(s[i]) != key(s[j])
  }

  /** Appending a row whose key is new keeps the keys unique. */
  lemma UniqueByAppend<T, K>(s: seq<T>, x: T, key: T -> K)
    requires UniqueBy(s, key)
    requires forall y | y in s :: key(y) != key(x)
    ensures UniqueBy(s + [x], key)
  {
    var r := s + [x];
    forall i, j | 0 <= i < j < |r| ensures key(r[i]) != key(r[j]) {
      assert r[i] == s[i];
      if j < |s| {
        assert r[j] == s[j];
      } else {
        assert s[i] in s;
      }
    }
  }

  /** Replacing one row by one with the same key, or with a key no row has, keeps the keys unique. */
  lemma UniqueByReplace<T, K>(s: seq<T>, i: nat, x: T, key: T -> K)
    requires UniqueBy(s, key) && i < |s|
    requires key(x) == key(s[i]) || forall y | y in s :: key(y) != key(x)
    ensures UniqueBy(s[i := x], key)
  {
    var r := s[i := x];
    forall a, b | 0 <= a < b < |r| ensures key(r[a]) != key(r[b]) {
      if a != i && b != i {
        assert r[a] == s[a] && r[b] == s[b];
      } else if a == i {
        assert r[b] == s[b] && s[b] in s;
      } else {
        assert r[a] == s[a] && s[a] in s;
      }
    }
  }

  /** The position of the (last) row whose key is `k`, if any: the row `WHERE key = k` targets. */
  function FindKey<T, K(==)>(s: seq<T>, key: T -> K, k: K): (r: Option<nat>)
    ensures r.Some? ==> r.value < |s| && key(s[r.value]) == k
    ensures r.None? <==> forall x | x in s :: key(x) != k
  {
    if |s| == 0 then None
    else if key(s[|s| - 1]) == k then Some(|s| - 1)
    else
      var init := s[..|s| - 1];
      assert s == init + [s[|s| - 1]];
      FindKey(init, key, k)
  }

  /** With unique keys a row occurs at most once. */
  lemma {:induction false} UniqueByOnce<T, K>(s: seq<T>, key: T -> K, x: T)
    requires UniqueBy(s, key)
    ensures multiset(s)[x] <= 1
  {
    if |s| > 0 {
      var init, last := s[..|s| - 1], s[|s| - 1];
      assert s == init + [last];
      assert UniqueBy(init, key) by {
        forall i, j | 0 <= i < j < |init| ensures key(init[i]) != key(init[j]) {
          assert init[i] == s[i] && init[j] == s[j];
        }
      }
      UniqueByOnce(init, key, x);
    }
  }

  /** The rows of `s` that `keep` accepts, in their order (`DELETE` keeps the others). */
  function Filter<T(!new)>(s: seq<T>, keep: T -> bool): (r: seq<T>)
    ensures |r| <= |s|
    ensures forall x {:trigger x in r} :: x in r <==> x in s && keep(x)
  {
    if |s| == 0 then []
    else
      var init, last := s[..|s| - 1], s[|s| - 1];
      assert s == init + [last];
      Filter(init, keep) + if keep(last) then [last] else []
  }

  /** A filter keeps every copy of the rows it accepts and no copy of the others. */
  lemma {:induction false} FilterCounts<T(!new)>(s: seq<T>, keep: T -> bool, x: T)
    ensures multiset(Filter(s, keep))[x] == if keep(x) then multiset(s)[x] else 0
  {
    if |s| > 0 {
      var init, last := s[..|s| - 1], s[|s| - 1];
      assert s == init + [last];
      FilterCounts(init, keep, x);
    }
  }

  /** A filter that accepts every row changes nothing. */
  lemma {:induction false} FilterKeepsAll<T(!new)>(s: seq<T>, keep: T -> bool)
    requires forall x | x in s :: keep(x)
    ensures Filter(s, keep) == s
  {
    if |s| > 0 {
      var init := s[..|s| - 1];
      assert s == init + [s[|s| - 1]];
      FilterKeepsAll(init, keep);
    }
  }

  /** A filter that accepts no row leaves nothing. */
  lemma {:induction false} FilterKeepsNone<T(!new)>(s: seq<T>, keep: T -> bool)
    requires forall x | x in s :: !keep(x)
    ensures Filter(s, keep) == []
  {
    if |s| > 0 {
      var init := s[..|s| - 1];
      assert s == init + [s[|s| - 1]];
      FilterKeepsNone(init, keep);
    }
  }

  /** Filtering with `a` and then with a narrower `b` is filtering with `b`. */
  lemma {:induction false} FilterOfFilter<T(!new)>(s: seq<T>, a: T -> bool, b: T -> bool)
    requires forall x :: b(x) ==> a(x)
    ensures Filter(Filter(s, a), b) == Filter(s, b)
  {
    if |s| > 0 {
      var init, last := s[..|s| - 1], s[|s| - 1];
      assert s == init + [last];
      FilterOfFilter(init, a, b);
      var fa := Filter(init, a);
      if a(last) {
        var f := fa + [last];
        assert f[..|f| - 1] == fa;
      } else {
        assert Filter(s, a) == fa;
      }
    }
  }

  /** Removing rows keeps the keys of the rest unique. */
  lemma {:induction false} FilterKeepsUnique<T(!new), K>(s: seq<T>, keep: T -> bool, key: T -> K)
    requires UniqueBy(s, key)
    ensures UniqueBy(Filter(s, keep), key)
  {
    if |s| > 0 {
      var init, last := s[..|s| - 1], s[|s| - 1];
      assert s == init + [last];
      assert UniqueBy(init, key) by {
        forall i, j | 0 <= i < j < |init| ensures key(init[i]) != key(init[j]) {
          assert init[i] == s[i] && init[j] == s[j];
        }
      }
      FilterKeepsUnique(init, keep, key);
      if keep(last) {
        forall y | y in Filter(init, keep) ensures key(y) != key(last) {
          var i :| 0 <= i < |init| && init[i] == y;
          assert s[i] == y;
        }
        UniqueByAppend(Filter(init, keep), last, key);
      }
    }
  }

  predicate SortedBy<T>(s: seq<T>, key: T -> int) {
    forall i, j | 0 <= i < j < |s| :: key(s[i]) <= key(s[j])
  }

  /** Every row of `s` has a key of at least `b`. */
  predicate AtLeast<T>(s: seq<T>, key: T -> int, b: int) {
    forall i | 0 <= i < |s| :: b <= key(s[i])
  }

  lemma ConsSorted<T>(h: T, s: seq<T>, key: T -> int)
    requires SortedBy(s, key) && AtLeast(s, key, key(h))
    ensures SortedBy([h] + s, key)
  {
    var r := [h] + s;
    forall i, j | 0 <= i < j < |r| ensures key(r[i]) <= key(r[j]) {
      if i > 0 {
        assert r[i] == s[i - 1] && r[j] == s[j - 1];
      } else {
        assert r[j] == s[j - 1];
      }
    }
  }

  function Insert<T>(x: T, s: seq<T>, key: T -> int): (r: seq<T>)
    requires SortedBy(s, key)
    ensures |r| == |s| + 1
    ensures multiset(r) == multiset(s) + multiset{x}
    ensures forall b :: AtLeast(s, key, b) && b <= key(x) ==> AtLeast(r, key, b)
    ensures SortedBy(r, key)
  {
    if |s| == 0 then [x]
    else if key(x) <= key(s[0]) then
      ConsSorted(x, s, key);
      [x] + s
    else
      assert s == [s[0]] + s[1..];
      var rest := Insert(x, s[1..], key);
      assert AtLeast(s[1..], key, key(s[0]));
      ConsSorted(s[0], rest, key);
      [s[0]] + rest
  }

  /** Insertion sort: the rows of `s` in ascending key order. */
  function SortBy<T>(s: seq<T>, key: T -> int): (r: seq<T>)
    ensures SortedBy(r, key)
    ensures multiset(r) == multiset(s)
    ensures |r| == |s|
  {
    if |s| == 0 then []
    else
      assert s == [s[0]] + s[1..];
      Insert(s[0], SortBy(s[1..], key), key)
  }
}
