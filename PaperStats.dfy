/** The four aggregates of `getStats`, each a pure function of one snapshot
    of the collection: the document count, `$group` by type, `$group` by
    year sorted by year descending and cut to five, and `$group` by subject
    sorted by count descending and cut to ten. */
module PaperStats {
  import opened Wrappers
  import opened Sorting
  import opened PaperModel
  import opened PaperQuery

  /** One `$group` output document: `{_id: key, count: n}`. */
  datatype Group<K> = Group(key: K, count: nat)

  datatype Stats = Stats(
    totalPapers: nat,
    papersByType: seq<Group<string>>,
    papersByYear: seq<Group<int>>,
    papersBySubject: seq<Group<string>>)

  /** The count recorded for `k`, or 0 when no group has that key. */
  function Lookup<K(==)>(gs: seq<Group<K>>, k: K): nat {
    if gs == [] then 0
    else if gs[0].key == k then gs[0].count
    else Lookup(gs[1..], k)
  }

  ghost predicate ProperGroups<K>(gs: seq<Group<K>>) {
    && DistinctBy(gs, (g: Group<K>) => g.key)
    && forall i :: 0 <= i < |gs| ==> gs[i].count > 0
  }

  lemma {:induction false} LookupAt<K>(gs: seq<Group<K>>, i: nat)
    requires ProperGroups(gs) && i < |gs|
    ensures Lookup(gs, gs[i].key) == gs[i].count
  {
    if i > 0 {
      assert gs[1..][i - 1] == gs[i];
      LookupAt(gs[1..], i - 1);
    }
  }

  /** Counts one more document with key `k`. */
  function Bump<K(==,!new)>(gs: seq<Group<K>>, k: K): (r: seq<Group<K>>)
    requires ProperGroups(gs)
    ensures ProperGroups(r)
    ensures forall g :: g in r ==> g.key == k || g in gs
    ensures forall x :: Lookup(r, x) == Lookup(gs, x) + (if x == k then 1 else 0)
  {
    if gs == [] then [Group(k, 1)]
    else if gs[0].key == k then
      var r := [Group(k, gs[0].count + 1)] + gs[1..];
      assert forall x :: Lookup(r, x) == Lookup(gs, x) + (if x == k then 1 else 0) by {
        assert r[1..] == gs[1..];
      }
      r
    else
      HeadKeyFresh(gs);
      var rest := Bump(gs[1..], k);
      ConsProper(gs[0], rest);
      var r := [gs[0]] + rest;
      assert r[1..] == rest;
      r
  }

  /** The tail of proper groups is proper, and the head's key is not in it. */
  lemma HeadKeyFresh<K>(gs: seq<Group<K>>)
    requires ProperGroups(gs) && gs != []
    ensures ProperGroups(gs[1..])
    ensures forall h :: h in gs[1..] ==> h.key != gs[0].key
  {
    forall h | h in gs[1..] ensures h.key != gs[0].key {
      var j :| 0 <= j < |gs[1..]| && gs[1..][j] == h;
      assert gs[j + 1] == h;
    }
    forall i, j | 0 <= i < j < |gs[1..]| ensures gs[1..][i].key != gs[1..][j].key {
      assert gs[1..][i] == gs[i + 1] && gs[1..][j] == gs[j + 1];
    }
  }

  lemma ConsProper<K>(g: Group<K>, rest: seq<Group<K>>)
    requires ProperGroups(rest) && g.count > 0
    requires forall h :: h in rest ==> h.key != g.key
    ensures ProperGroups([g] + rest)
  {
    var s := [g] + rest;
    forall i, j | 0 <= i < j < |s| ensures s[i].key != s[j].key {
      assert s[j] == rest[j - 1];
      if i > 0 {
        assert s[i] == rest[i - 1];
      }
    }
  }

  /** `$group: {_id: key, count: {$sum: 1}}`: one group per distinct key,
      whose count is the number of occurrences of that key. */
  function GroupCount<K(==,!new)>(keys: seq<K>): (r: seq<Group<K>>)
    ensures ProperGroups(r)
    ensures forall x :: Lookup(r, x) == multiset(keys)[x]
  {
    if keys == [] then []
    else
      assert keys == keys[..|keys| - 1] + [keys[|keys| - 1]];
      Bump(GroupCount(keys[..|keys| - 1]), keys[|keys| - 1])
  }

  /** The group of each listed key carries that key's number of occurrences. */
  lemma GroupCountTrue<K(!new)>(keys: seq<K>)
    ensures forall i :: 0 <= i < |GroupCount(keys)| ==> GroupCount(keys)[i].count == multiset(keys)[GroupCount(keys)[i].key]
  {
    var gs := GroupCount(keys);
    forall i | 0 <= i < |gs| ensures gs[i].count == multiset(keys)[gs[i].key] {
      LookupAt(gs, i);
    }
  }

  /** Every key that occurs has a group. */
  lemma GroupCountCovers<K(!new)>(keys: seq<K>, x: K)
    requires x in keys
    ensures exists i :: 0 <= i < |GroupCount(keys)| && GroupCount(keys)[i].key == x
  {
    assert Lookup(GroupCount(keys), x) > 0;
    LookupPositive(GroupCount(keys), x);
  }

  lemma {:induction false} LookupPositive<K>(gs: seq<Group<K>>, x: K)
    requires Lookup(gs, x) > 0
    ensures exists i :: 0 <= i < |gs| && gs[i].key == x
  {
    if gs[0].key != x {
      LookupPositive(gs[1..], x);
      var i :| 0 <= i < |gs[1..]| && gs[1..][i].key == x;
      assert gs[i + 1].key == x;
    }
  }

  function KindsOf(docs: seq<Paper>): seq<string> {
    seq(|docs|, i requires 0 <= i < |docs| => docs[i].kind)
  }

  function YearsOf(docs: seq<Paper>): seq<int> {
    seq(|docs|, i requires 0 <= i < |docs| => docs[i].year)
  }

  function SubjectsOf(docs: seq<Paper>): seq<string> {
    seq(|docs|, i requires 0 <= i < |docs| => docs[i].subject)
  }

  function NewestYearFirst(a: Group<int>, b: Group<int>): bool {
    a.key >= b.key
  }

  function LargestCountFirst(a: Group<string>, b: Group<string>): bool {
    a.count >= b.count
  }

  /** `papersByType`: the per-type counts. */
  function PapersByType(docs: seq<Paper>): seq<Group<string>> {
    GroupCount(KindsOf(docs))
  }

  /** `papersByYear`: `$sort: {_id: -1}`, `$limit: 5`. */
  function PapersByYear(docs: seq<Paper>): seq<Group<int>> {
    Take(SortBy(GroupCount(YearsOf(docs)), NewestYearFirst), 5)
  }

  /** `papersBySubject`: `$sort: {count: -1}`, `$limit: 10`. */
  function PapersBySubject(docs: seq<Paper>): seq<Group<string>> {
    Take(SortBy(GroupCount(SubjectsOf(docs)), LargestCountFirst), 10)
  }

  /** Each type's count is the number of documents of that type, and only
      types that occur are listed, once each. */
  lemma TypeCounts(docs: seq<Paper>, t: string)
    ensures ProperGroups(PapersByType(docs))
    ensures Lookup(PapersByType(docs), t) == multiset(KindsOf(docs))[t]
  {
  }

  /** `$group`, then `$sort` by `le`, then `$limit n`: at most `n` groups in
      `le` order, with distinct keys and true counts. */
  lemma TopGroups<K(!new)>(keys: seq<K>, le: (Group<K>, Group<K>) -> bool, n: nat)
    requires TotalPreorder(le)
    ensures var r := Take(SortBy(GroupCount(keys), le), n);
            && |r| <= n
            && SortedBy(r, le)
            && DistinctBy(r, (g: Group<K>) => g.key)
            && (forall i :: 0 <= i < |r| ==> r[i].count == multiset(keys)[r[i].key] > 0)
  {
    var gs := GroupCount(keys);
    var sorted := SortBy(gs, le);
    var r := Take(sorted, n);
    SortBySorted(gs, le);
    SortByDistinct(gs, le, (g: Group<K>) => g.key);
    TakeSorted(sorted, le, n);
    TakeDistinct(sorted, n);
    GroupCountTrue(keys);
    forall i | 0 <= i < |r| ensures r[i].count == multiset(keys)[r[i].key] > 0 {
      TakeOfSortByFrom(gs, le, n, i);
      var j :| 0 <= j < |gs| && gs[j] == r[i];
    }
  }

  lemma TakeSorted<T>(s: seq<T>, le: (T, T) -> bool, n: nat)
    requires SortedBy(s, le)
    ensures SortedBy(Take(s, n), le)
  {
    var r := Take(s, n);
    forall i, j | 0 <= i < j < |r| ensures le(r[i], r[j]) {
      assert r[i] == s[i] && r[j] == s[j];
    }
  }

  lemma TakeDistinct<K>(s: seq<Group<K>>, n: nat)
    requires DistinctBy(s, (g: Group<K>) => g.key)
    ensures DistinctBy(Take(s, n), (g: Group<K>) => g.key)
  {
    var r := Take(s, n);
    forall i, j | 0 <= i < j < |r| ensures r[i].key != r[j].key {
      assert r[i] == s[i] && r[j] == s[j];
    }
  }

  /** Every group that survives the sort and the limit is one of the groups. */
  lemma TakeOfSortByFrom<K>(gs: seq<Group<K>>, le: (Group<K>, Group<K>) -> bool, n: nat, i: nat)
    requires i < |Take(SortBy(gs, le), n)|
    ensures Take(SortBy(gs, le), n)[i] in gs
  {
    var sorted := SortBy(gs, le);
    assert Take(sorted, n)[i] == sorted[i];
    assert sorted[i] in multiset(gs);
  }

  /** A key that occurs but is cut by `$limit n` comes after all `n` listed
      groups. */
  lemma TopGroupsLeftOut<K(!new)>(keys: seq<K>, le: (Group<K>, Group<K>) -> bool, n: nat, x: K)
    requires TotalPreorder(le)
    requires x in keys
    requires forall i :: 0 <= i < |Take(SortBy(GroupCount(keys), le), n)| ==> Take(SortBy(GroupCount(keys), le), n)[i].key != x
    ensures var r := Take(SortBy(GroupCount(keys), le), n);
            |r| == n && forall i :: 0 <= i < |r| ==> le(r[i], Group(x, multiset(keys)[x]))
  {
    var gs := GroupCount(keys);
    var sorted := SortBy(gs, le);
    var r := Take(sorted, n);
    SortBySorted(gs, le);
    GroupCountTrue(keys);
    GroupCountCovers(keys, x);
    var k :| 0 <= k < |gs| && gs[k].key == x;
    assert gs[k] in multiset(sorted);
    assert gs[k] !in r;
    TakeOfSortedKeepsFirst(sorted, le, n, gs[k]);
    assert gs[k] == Group(x, multiset(keys)[x]);
  }

  lemma NewestYearFirstTotal()
    ensures TotalPreorder(NewestYearFirst)
  {
  }

  lemma LargestCountFirstTotal()
    ensures TotalPreorder(LargestCountFirst)
  {
  }

  /** Groups with distinct years sorted newest first have strictly
      decreasing years. */
  lemma YearsDescend(r: seq<Group<int>>)
    requires SortedBy(r, NewestYearFirst)
    requires DistinctBy(r, (g: Group<int>) => g.key)
    ensures forall i, j :: 0 <= i < j < |r| ==> r[i].key > r[j].key
  {
    forall i, j | 0 <= i < j < |r| ensures r[i].key > r[j].key {
      assert NewestYearFirst(r[i], r[j]);
    }
  }

  lemma CountsDescend(r: seq<Group<string>>)
    requires SortedBy(r, LargestCountFirst)
    ensures forall i, j :: 0 <= i < j < |r| ==> r[i].count >= r[j].count
  {
    forall i, j | 0 <= i < j < |r| ensures r[i].count >= r[j].count {
      assert LargestCountFirst(r[i], r[j]);
    }
  }

  /** `papersByYear` holds at most five groups, newest year first, each with
      the number of documents of that year; a year that occurs but is not
      listed is older than every listed year, and then five are listed. */
  lemma YearGroups(docs: seq<Paper>, y: int)
    ensures var r := PapersByYear(docs);
            && |r| <= 5
            && (forall i, j :: 0 <= i < j < |r| ==> r[i].key > r[j].key)
            && (forall i :: 0 <= i < |r| ==> r[i].count == multiset(YearsOf(docs))[r[i].key] > 0)
            && ((y in YearsOf(docs) && forall i :: 0 <= i < |r| ==> r[i].key != y) ==>
                  |r| == 5 && forall i :: 0 <= i < |r| ==> r[i].key > y)
  {
    var r := PapersByYear(docs);
    YearShape(docs);
    if y in YearsOf(docs) && forall i :: 0 <= i < |r| ==> r[i].key != y {
      YearLeftOut(docs, y);
    }
  }

  lemma YearShape(docs: seq<Paper>)
    ensures var r := PapersByYear(docs);
            && |r| <= 5
            && (forall i, j :: 0 <= i < j < |r| ==> r[i].key > r[j].key)
            && (forall i :: 0 <= i < |r| ==> r[i].count == multiset(YearsOf(docs))[r[i].key] > 0)
  {
    NewestYearFirstTotal();
    TopGroups(YearsOf(docs), NewestYearFirst, 5);
    YearsDescend(PapersByYear(docs));
  }

  lemma YearLeftOut(docs: seq<Paper>, y: int)
    requires y in YearsOf(docs)
    requires forall i :: 0 <= i < |PapersByYear(docs)| ==> PapersByYear(docs)[i].key != y
    ensures var r := PapersByYear(docs);
            |r| == 5 && forall i :: 0 <= i < |r| ==> r[i].key > y
  {
    var r := PapersByYear(docs);
    NewestYearFirstTotal();
    TopGroupsLeftOut(YearsOf(docs), NewestYearFirst, 5, y);
    forall i | 0 <= i < |r| ensures r[i].key > y {
      assert NewestYearFirst(r[i], Group(y, multiset(YearsOf(docs))[y]));
    }
  }

  /** `papersBySubject` holds at most ten groups, largest count first, each
      with the number of documents on that subject; a subject that occurs but
      is not listed has no more documents than any listed one, and then ten
      are listed. */
  lemma SubjectGroups(docs: seq<Paper>, s: string)
    ensures var r := PapersBySubject(docs);
            && |r| <= 10
            && (forall i, j :: 0 <= i < j < |r| ==> r[i].count >= r[j].count)
            && (forall i, j :: 0 <= i < j < |r| ==> r[i].key != r[j].key)
            && (forall i :: 0 <= i < |r| ==> r[i].count == multiset(SubjectsOf(docs))[r[i].key] > 0)
            && ((s in SubjectsOf(docs) && forall i :: 0 <= i < |r| ==> r[i].key != s) ==>
                  |r| == 10 && forall i :: 0 <= i < |r| ==> r[i].count >= multiset(SubjectsOf(docs))[s])
  {
    var r := PapersBySubject(docs);
    SubjectShape(docs);
    if s in SubjectsOf(docs) && forall i :: 0 <= i < |r| ==> r[i].key != s {
      SubjectLeftOut(docs, s);
    }
  }

  lemma SubjectShape(docs: seq<Paper>)
    ensures var r := PapersBySubject(docs);
            && |r| <= 10
            && (forall i, j :: 0 <= i < j < |r| ==> r[i].count >= r[j].count)
            && (forall i, j :: 0 <= i < j < |r| ==> r[i].key != r[j].key)
            && (forall i :: 0 <= i < |r| ==> r[i].count == multiset(SubjectsOf(docs))[r[i].key] > 0)
  {
    LargestCountFirstTotal();
    TopGroups(SubjectsOf(docs), LargestCountFirst, 10);
    CountsDescend(PapersBySubject(docs));
  }

  lemma SubjectLeftOut(docs: seq<Paper>, s: string)
    requires s in SubjectsOf(docs)
    requires forall i :: 0 <= i < |PapersBySubject(docs)| ==> PapersBySubject(docs)[i].key != s
    ensures var r := PapersBySubject(docs);
            |r| == 10 && forall i :: 0 <= i < |r| ==> r[i].count >= multiset(SubjectsOf(docs))[s]
  {
    var r := PapersBySubject(docs);
    LargestCountFirstTotal();
    TopGroupsLeftOut(SubjectsOf(docs), LargestCountFirst, 10, s);
    forall i | 0 <= i < |r| ensures r[i].count >= multiset(SubjectsOf(docs))[s] {
      assert LargestCountFirst(r[i], Group(s, multiset(SubjectsOf(docs))[s]));
    }
  }

  /** The documents of type `t`, in listing order. */
  ghost function OfKind(docs: seq<Paper>, t: string): (r: seq<Paper>)
    ensures forall p :: p in r <==> p in docs && p.kind == t
    ensures |r| == multiset(KindsOf(docs))[t]
  {
    if docs == [] then []
    else
      var rest := OfKind(docs[1..], t);
      assert KindsOf(docs) == [docs[0].kind] + KindsOf(docs[1..]);
      if docs[0].kind == t then [docs[0]] + rest else rest
  }

  /** Selecting the papers of one type keeps ids distinct. */
  lemma {:induction false} OfKindDistinct(docs: seq<Paper>, t: string)
    requires DistinctBy(docs, (p: Paper) => p.id)
    ensures DistinctBy(OfKind(docs, t), (p: Paper) => p.id)
  {
    if docs != [] {
      DistinctTail(docs);
      OfKindDistinct(docs[1..], t);
      if docs[0].kind == t {
        DistinctCons(docs[0], OfKind(docs[1..], t));
      }
    }
  }

  lemma DistinctCons(x: Paper, rest: seq<Paper>)
    requires DistinctBy(rest, (p: Paper) => p.id)
    requires forall q :: q in rest ==> q.id != x.id
    ensures DistinctBy([x] + rest, (p: Paper) => p.id)
  {
    var s := [x] + rest;
    forall i, j | 0 <= i < j < |s| ensures s[i].id != s[j].id {
      assert s[j] == rest[j - 1];
      if i > 0 {
        assert s[i] == rest[i - 1];
      }
    }
  }

  lemma DistinctTail(docs: seq<Paper>)
    requires docs != []
    ensures DistinctBy(docs, (p: Paper) => p.id) ==>
              && DistinctBy(docs[1..], (p: Paper) => p.id)
              && forall q :: q in docs[1..] ==> q.id != docs[0].id
  {
    if DistinctBy(docs, (p: Paper) => p.id) {
      forall q | q in docs[1..] ensures q.id != docs[0].id {
        var j :| 0 <= j < |docs[1..]| && docs[1..][j] == q;
        assert docs[j + 1] == q;
      }
      forall i, j | 0 <= i < j < |docs[1..]| ensures docs[1..][i].id != docs[1..][j].id {
        assert docs[1..][i] == docs[i + 1] && docs[1..][j] == docs[j + 1];
      }
    }
  }

  function TypeFilter(t: string): Filter {
    Filter(Some(t), None, None, None, None)
  }

  /** The count `getStats` reports for type `t` is the `total` that
      `getAll` reports when filtered on that type. */
  lemma TypeCountIsFilteredTotal(docs: seq<Paper>, store: Collection, t: string)
    requires WellKeyed(store) && IsListing(docs, store, NoFilter)
    ensures Lookup(PapersByType(docs), t) == |MatchingIds(store, TypeFilter(t))|
  {
    var r := OfKind(docs, t);
    OfKindDistinct(docs, t);
    forall id | id in MatchingIds(store, TypeFilter(t)) ensures store[id] in r {
      assert id in MatchingIds(store, NoFilter);
    }
    assert IsListing(r, store, TypeFilter(t));
    ListingLength(r, store, TypeFilter(t));
  }
}
