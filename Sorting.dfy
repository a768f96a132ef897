/** Ordering a sequence by a total preorder, as MongoDB's `$sort` and
    `.sort()` do. Ties are ordered in some unspecified way, so what callers
    rely on is that the result is sorted and a permutation of the input. */
module Sorting {

  ghost predicate TotalPreorder<T(!new)>(le: (T, T) -> bool) {
    && (forall a, b :: le(a, b) || le(b, a))
    && (forall a, b, c :: le(a, b) && le(b, c) ==> le(a, c))
  }

  ghost predicate SortedBy<T>(s: seq<T>, le: (T, T) -> bool) {
    forall i, j :: 0 <= i < j < |s| ==> le(s[i], s[j])
  }

  /** No two elements share a key. */
  ghost predicate DistinctBy<T, K>(s: seq<T>, key: T -> K) {
    forall i, j :: 0 <= i < j < |s| ==> key(s[i]) != key(s[j])
  }

  /** Inserts `x` before the first element it precedes. */
  function InsertBy<T>(s: seq<T>, x: T, le: (T, T) -> bool): (r: seq<T>)
    ensures multiset(r) == multiset(s) + multiset{x}
  {
    if s == [] || le(x, s[0]) then [x] + s
    else
      assert s == [s[0]] + s[1..];
      [s[0]] + InsertBy(s[1..], x, le)
  }

  /** Insertion sort. */
  function SortBy<T>(s: seq<T>, le: (T, T) -> bool): (r: seq<T>)
    ensures multiset(r) == multiset(s)
  {
    if s == [] then []
    else
      assert s == s[..|s| - 1] + [s[|s| - 1]];
      InsertBy(SortBy(s[..|s| - 1], le), s[|s| - 1], le)
  }

  lemma {:induction false} InsertBySorted<T(!new)>(s: seq<T>, x: T, le: (T, T) -> bool)
    requires TotalPreorder(le) && SortedBy(s, le)
    ensures SortedBy(InsertBy(s, x, le), le)
  {
    if s != [] && !le(x, s[0]) {
      var rest := InsertBy(s[1..], x, le);
      InsertBySorted(s[1..], x, le);
      forall y | y in rest ensures le(s[0], y) {
        assert y in multiset(rest);
        if y != x {
          assert y in s[1..];
        }
      }
    }
  }

  /** The result of `SortBy` is sorted (and, by its contract, a permutation). */
  lemma {:induction false} SortBySorted<T(!new)>(s: seq<T>, le: (T, T) -> bool)
    requires TotalPreorder(le)
    ensures SortedBy(SortBy(s, le), le)
  {
    if s != [] {
      SortBySorted(s[..|s| - 1], le);
      InsertBySorted(SortBy(s[..|s| - 1], le), s[|s| - 1], le);
    }
  }

  lemma {:induction false} InsertByDistinct<T, K>(s: seq<T>, x: T, le: (T, T) -> bool, key: T -> K)
    requires DistinctBy(s, key)
    requires forall y :: y in s ==> key(y) != key(x)
    ensures DistinctBy(InsertBy(s, x, le), key)
  {
    if s != [] && !le(x, s[0]) {
      var rest := InsertBy(s[1..], x, le);
      InsertByDistinct(s[1..], x, le, key);
      forall y | y in rest ensures key(s[0]) != key(y) {
        assert y in multiset(rest);
        if y != x {
          assert y in s[1..];
        }
      }
    }
  }

  /** Sorting keeps keys distinct. */
  lemma {:induction false} SortByDistinct<T, K>(s: seq<T>, le: (T, T) -> bool, key: T -> K)
    requires DistinctBy(s, key)
    ensures DistinctBy(SortBy(s, le), key)
  {
    if s != [] {
      var init := s[..|s| - 1];
      SortByDistinct(init, le, key);
      forall y | y in SortBy(init, le) ensures key(y) != key(s[|s| - 1]) {
        assert y in multiset(SortBy(init, le));
      }
      InsertByDistinct(SortBy(init, le), s[|s| - 1], le, key);
    }
  }

  /** `$limit k`: the first `k` elements, or all of them when fewer. */
  function Take<T>(s: seq<T>, k: nat): (r: seq<T>)
    ensures |r| == if k < |s| then k else |s|
    ensures r <= s
  {
    if k < |s| then s[..k] else s
  }

  /** What `$sort` followed by `$limit k` keeps: an element left out has the
      full `k` elements before it, each ordered no later than it. */
  lemma TakeOfSortedKeepsFirst<T>(s: seq<T>, le: (T, T) -> bool, k: nat, x: T)
    requires SortedBy(s, le)
    requires x in s && x !in Take(s, k)
    ensures |Take(s, k)| == k
    ensures forall i :: 0 <= i < k ==> le(s[i], x)
  {
    var j :| 0 <= j < |s| && s[j] == x;
    assert k <= j;
  }
}
