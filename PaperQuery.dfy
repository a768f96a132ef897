/** What `Paper.find(filter).sort(sort).skip(n).limit(k)` and
    `Paper.countDocuments(filter)` compute over the collection: exact-match
    filters, the order a one-field sort imposes, and the page window. */
module PaperQuery {
  import opened Wrappers
  import opened Text
  import opened ObjectIds
  import opened Sorting
  import opened PaperModel

  /** An exact-match filter; an absent field does not filter. */
  datatype Filter = Filter(
    kind: Option<string>,
    subject: Option<string>,
    year: Option<int>,
    season: Option<string>,
    paperType: Option<string>)

  const NoFilter: Filter := Filter(None, None, None, None, None)

  predicate Matches(p: Paper, f: Filter) {
    && (f.kind.Some? ==> p.kind == f.kind.value)
    && (f.subject.Some? ==> p.subject == f.subject.value)
    && (f.year.Some? ==> p.year == f.year.value)
    && (f.season.Some? ==> p.season == f.season.value)
    && (f.paperType.Some? ==> p.paperType == f.paperType.value)
  }

  /** The collection: documents keyed by their `_id`. */
  type Collection = map<PaperId, Paper>

  ghost predicate WellKeyed(store: Collection) {
    forall id :: id in store ==> store[id].id == id
  }

  /** The ids of the documents `filter` selects: what `countDocuments` counts. */
  ghost function MatchingIds(store: Collection, f: Filter): set<PaperId> {
    set id | id in store && Matches(store[id], f)
  }

  /** `s` lists every document the filter selects, each exactly once. */
  ghost predicate IsListing(s: seq<Paper>, store: Collection, f: Filter) {
    && (forall i :: 0 <= i < |s| ==> s[i].id in store && store[s[i].id] == s[i] && Matches(s[i], f))
    && (forall id :: id in MatchingIds(store, f) ==> store[id] in s)
    && DistinctBy(s, (p: Paper) => p.id)
  }

  /** The value MongoDB compares when sorting on one field. */
  datatype SortKey = Missing | Number(n: int) | Text(t: string)

  /** The sort key of `p` for the field named `field`. A field the schema
      does not have is missing on every document. */
  function KeyOf(p: Paper, field: string): SortKey {
    if field == "title" then Text(p.title)
    else if field == "type" then Text(p.kind)
    else if field == "subject" then Text(p.subject)
    else if field == "year" then Number(p.year)
    else if field == "season" then Text(p.season)
    else if field == "paperType" then Text(p.paperType)
    else if field == "driveLink" then Text(p.driveLink)
    else if field == "description" then (if p.description.Some? then Text(p.description.value) else Missing)
    else if field == "addedBy" then Text(p.addedBy)
    else if field == "createdAt" then Number(p.createdAt)
    else if field == "updatedAt" then Number(p.updatedAt)
    else if field == "_id" then Text(p.id)
    else Missing
  }

  /** MongoDB's comparison order: a missing value before numbers, numbers
      before strings; numbers by value, strings character by character. */
  predicate KeyLe(a: SortKey, b: SortKey) {
    match (a, b)
    case (Missing, _) => true
    case (Number(x), Number(y)) => x <= y
    case (Number(_), Text(_)) => true
    case (Text(x), Text(y)) => LexLe(x, y)
    case _ => false
  }

  lemma KeyLeTotalPreorder()
    ensures forall a, b :: KeyLe(a, b) || KeyLe(b, a)
    ensures forall a, b, c :: KeyLe(a, b) && KeyLe(b, c) ==> KeyLe(a, c)
  {
    forall a, b ensures KeyLe(a, b) || KeyLe(b, a) {
      if a.Text? && b.Text? {
        LexLeTotal(a.t, b.t);
      }
    }
    forall a, b, c | KeyLe(a, b) && KeyLe(b, c) ensures KeyLe(a, c) {
      if a.Text? && b.Text? && c.Text? {
        LexLeTransitive(a.t, b.t, c.t);
      }
    }
  }

  /** The order `sort({[field]: desc ? -1 : 1})` puts documents in: `Order(field,
      desc)(p, q)` holds when `p` may come before `q`. */
  function Order(field: string, desc: bool): (Paper, Paper) -> bool {
    if desc then (p: Paper, q: Paper) => KeyLe(KeyOf(q, field), KeyOf(p, field))
    else (p: Paper, q: Paper) => KeyLe(KeyOf(p, field), KeyOf(q, field))
  }

  lemma OrderIsTotalPreorder(field: string, desc: bool)
    ensures TotalPreorder(Order(field, desc))
  {
    KeyLeTotalPreorder();
  }

  /** `.skip(skip).limit(limit)` on a sequence. */
  function Window<T>(s: seq<T>, skip: nat, limit: nat): (r: seq<T>)
    ensures |r| <= limit
    ensures |r| == if skip >= |s| then 0 else if |s| - skip < limit then |s| - skip else limit
    ensures forall i :: 0 <= i < |r| ==> r[i] == s[skip + i]
  {
    if skip >= |s| then []
    else if skip + limit <= |s| then s[skip..skip + limit]
    else s[skip..]
  }

  /** `Math.ceil(total / limit)` for a positive `limit`. */
  function CeilDiv(total: nat, limit: nat): (pages: nat)
    requires limit > 0
    ensures pages * limit >= total
    ensures pages > 0 ==> (pages - 1) * limit < total
  {
    (total + limit - 1) / limit
  }

  /** `page` is one possible outcome of the query: the window at `skip` of
      some sorted listing of the selected documents. Ties may fall either
      way, so there may be several. */
  ghost predicate IsPage(page: seq<Paper>, store: Collection, f: Filter, field: string, desc: bool, skip: nat, limit: nat) {
    exists s :: IsListing(s, store, f) && SortedBy(s, Order(field, desc)) && page == Window(s, skip, limit)
  }

  /** A listing is as long as the selection is large. */
  lemma ListingLength(s: seq<Paper>, store: Collection, f: Filter)
    requires WellKeyed(store) && IsListing(s, store, f)
    ensures |s| == |MatchingIds(store, f)|
  {
    var ids := seq(|s|, i requires 0 <= i < |s| => s[i].id);
    assert (set i | 0 <= i < |ids| :: ids[i]) == MatchingIds(store, f) by {
      forall id | id in MatchingIds(store, f) ensures id in (set i | 0 <= i < |ids| :: ids[i]) {
        var i :| 0 <= i < |s| && s[i] == store[id];
        assert ids[i] == id;
      }
    }
    DistinctCard(ids);
  }

  /** The elements of a sequence without repetitions number its length. */
  lemma {:induction false} DistinctCard<T>(ids: seq<T>)
    requires forall i, j :: 0 <= i < j < |ids| ==> ids[i] != ids[j]
    ensures |set i | 0 <= i < |ids| :: ids[i]| == |ids|
  {
    if ids != [] {
      var init := ids[..|ids| - 1];
      DistinctCard(init);
      var last := ids[|ids| - 1];
      assert (set i | 0 <= i < |ids| :: ids[i]) == (set i | 0 <= i < |init| :: init[i]) + {last};
      assert last !in (set i | 0 <= i < |init| :: init[i]);
    }
  }

  /** What a page is, in the caller's terms: at most `limit` documents,
      exactly as many as remain after `skip`, every one selected by the
      filter and stored under its id, none twice, in sort order. */
  lemma PageProperties(page: seq<Paper>, store: Collection, f: Filter, field: string, desc: bool, skip: nat, limit: nat)
    requires WellKeyed(store)
    requires IsPage(page, store, f, field, desc, skip, limit)
    ensures |page| <= limit
    ensures var total := |MatchingIds(store, f)|;
            |page| == if skip >= total then 0 else if total - skip < limit then total - skip else limit
    ensures forall i :: 0 <= i < |page| ==> page[i].id in store && store[page[i].id] == page[i] && Matches(page[i], f)
    ensures forall i, j :: 0 <= i < j < |page| ==> page[i].id != page[j].id
    ensures SortedBy(page, Order(field, desc))
  {
    var s :| IsListing(s, store, f) && SortedBy(s, Order(field, desc)) && page == Window(s, skip, limit);
    ListingLength(s, store, f);
    forall i, j | 0 <= i < j < |page| ensures page[i].id != page[j].id {
      assert page[i] == s[skip + i] && page[j] == s[skip + j];
    }
    forall i, j | 0 <= i < j < |page| ensures Order(field, desc)(page[i], page[j]) {
      assert page[i] == s[skip + i] && page[j] == s[skip + j];
    }
  }

  /** A page is non-empty exactly when the page number is within
      `1..totalPages`. */
  lemma PageNonEmptyIff(total: nat, page: nat, limit: nat)
    requires limit > 0 && page >= 1
    ensures var skip := (page - 1) * limit;
            (skip < total) <==> page <= CeilDiv(total, limit)
  {
    var pages := CeilDiv(total, limit);
    if page <= pages {
      assert (page - 1) * limit <= (pages - 1) * limit by {
        MulMonotone(page - 1, pages - 1, limit);
      }
    } else {
      assert pages * limit <= (page - 1) * limit by {
        MulMonotone(pages, page - 1, limit);
      }
    }
  }

  lemma MulMonotone(a: nat, b: nat, k: nat)
    requires a <= b
    ensures a * k <= b * k
  {
  }

  /** Page 2 of 25 selected documents, ten to a page, holds ten documents of
      three pages. */
  lemma SecondOfThreePages(page: seq<Paper>, store: Collection, f: Filter, field: string, desc: bool)
    requires WellKeyed(store) && |MatchingIds(store, f)| == 25
    requires IsPage(page, store, f, field, desc, (2 - 1) * 10, 10)
    ensures |page| == 10 && CeilDiv(25, 10) == 3
  {
    PageProperties(page, store, f, field, desc, 10, 10);
  }
}
