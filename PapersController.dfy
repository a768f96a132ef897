/** The paper handlers of the admin API over one collection of papers: the
    collection is a `PaperStore` whose map of documents the handlers update
    in place. A failure of the database is the parameter `fault`, which
    sends the handler to its `catch` branch. */
module PapersController {
  import opened Wrappers
  import opened Text
  import opened ObjectIds
  import opened Sorting
  import opened PaperModel
  import opened PaperQuery
  import opened PaperStats

  /** The JSON reply of a handler. */
  datatype Reply =
    | Created(paper: Paper)
    | Found(paper: Paper)
    | Updated(paper: Paper)
    | Deleted(paper: Paper)
    | Listing(papers: seq<Paper>, total: nat, totalPages: Option<nat>, currentPage: nat)
    | Statistics(stats: Stats)
    | BadRequest(errors: seq<FieldError>)
    | NotFound
    | ServerError

  function Status(r: Reply): (code: int)
    ensures code in {200, 201, 400, 404, 500}
  {
    match r
    case Created(_) => 201
    case BadRequest(_) => 400
    case NotFound => 404
    case ServerError => 500
    case _ => 200
  }

  /** The query string of `GET /papers`. `page` and `limit` are the values
      of decimal strings; an absent parameter takes its default. */
  datatype Query = Query(
    kind: Option<string>,
    subject: Option<string>,
    year: Option<string>,
    season: Option<string>,
    paperType: Option<string>,
    page: Option<nat>,
    limit: Option<nat>,
    sortBy: Option<string>,
    sortOrder: Option<string>)

  /** A parameter JavaScript finds truthy: present and not empty. */
  predicate Given(v: Option<string>) {
    v.Some? && v.value != ""
  }

  /** The filter `getAll` builds, as Mongoose casts it, or `None` when the
      `year` parameter is not a number, which Mongoose refuses to cast.
      Casting a filter runs the path's setters: `subject` is trimmed, and
      `type`, upper-cased by the handler, is upper-cased again to no effect. */
  function QueryFilter(q: Query): (r: Option<Filter>)
    ensures r.None? <==> Given(q.year) && ParseInt(q.year.value).None?
    ensures r.Some? ==> (r.value.kind.Some? <==> Given(q.kind))
    ensures r.Some? && Given(q.kind) ==> r.value.kind.value == ToUpper(q.kind.value)
    ensures r.Some? ==> (r.value.subject.Some? <==> Given(q.subject))
    ensures r.Some? && Given(q.subject) ==> r.value.subject.value == Trim(q.subject.value)
    ensures r.Some? ==> r.value.season == (if Given(q.season) then q.season else None)
    ensures r.Some? ==> r.value.paperType == (if Given(q.paperType) then q.paperType else None)
    ensures r.Some? ==> (r.value.year.Some? <==> Given(q.year))
    ensures r.Some? && Given(q.year) ==> r.value.year == Some(ParseInt(q.year.value).value)
  {
    var year: Option<Option<int>> :=
      if !Given(q.year) then Some(None)
      else match ParseInt(q.year.value)
        case None => None
        case Some(n) => Some(Some(n));
    if year.None? then None
    else
      Some(Filter(
        if Given(q.kind) then Some(ToUpper(q.kind.value)) else None,
        if Given(q.subject) then Some(Trim(q.subject.value)) else None,
        year.value,
        if Given(q.season) then q.season else None,
        if Given(q.paperType) then q.paperType else None))
  }

  /** `getAll` builds its filter one assignment at a time, one per
      parameter it finds truthy. */
  method BuildFilter(q: Query) returns (f: Option<Filter>)
    ensures f == QueryFilter(q)
  {
    var filter := NoFilter;
    if Given(q.kind) {
      filter := filter.(kind := Some(ToUpper(q.kind.value)));
    }
    if Given(q.subject) {
      filter := filter.(subject := Some(Trim(q.subject.value)));
    }
    if Given(q.year) {
      var n := ParseInt(q.year.value);
      if n.None? {
        return None;
      }
      filter := filter.(year := Some(n.value));
    }
    if Given(q.season) {
      filter := filter.(season := q.season);
    }
    if Given(q.paperType) {
      filter := filter.(paperType := q.paperType);
    }
    f := Some(filter);
  }

  function PageOf(q: Query): nat { q.page.GetOr(1) }

  function LimitOf(q: Query): nat { q.limit.GetOr(10) }

  function SortFieldOf(q: Query): string { q.sortBy.GetOr("year") }

  /** `sortOrder === 'desc'`; the default is "desc". */
  function DescendingOf(q: Query): bool { q.sortOrder.GetOr("desc") == "desc" }

  /** `(page - 1) * limit`, which MongoDB refuses when negative. */
  function SkipOf(q: Query): int { (PageOf(q) - 1) * LimitOf(q) }

  /** `Math.ceil(total / limit)`; JSON has no value for the infinity or NaN
      a zero limit gives, and writes `null`. */
  function TotalPages(total: nat, limit: nat): (r: Option<nat>)
    ensures r.None? <==> limit == 0
    ensures r.Some? ==> r.value * limit >= total && (r.value > 0 ==> (r.value - 1) * limit < total)
  {
    if limit == 0 then None else Some(CeilDiv(total, limit))
  }

  /** `.limit(0)` sets no limit: the page may hold all `total` documents. */
  function EffectiveLimit(limit: nat, total: nat): nat {
    if limit == 0 then total else limit
  }

  /** Every stored document is under its own id and passed the schema. */
  ghost predicate ValidCollection(papers: Collection, maxYear: int) {
    && WellKeyed(papers)
    && forall id :: id in papers ==> WellFormedPaper(papers[id], maxYear)
  }

  /** Storing a well-formed document under its own id keeps the collection
      valid. */
  lemma StoreKeepsValid(papers: Collection, maxYear: int, p: Paper)
    requires ValidCollection(papers, maxYear) && WellFormedPaper(p, maxYear)
    ensures ValidCollection(papers[p.id := p], maxYear)
  {
  }

  /** The collection and the `max` of the year path, fixed when the schema
      was loaded. */
  class PaperStore {
    const maxYear: int
    var papers: Collection

    ghost predicate Valid()
      reads this
    {
      ValidCollection(papers, maxYear)
    }

    /** An empty collection, with the schema loaded in year `loadYear`. */
    constructor (loadYear: int)
      ensures maxYear == MaxYear(loadYear)
      ensures papers == map[]
      ensures Valid()
    {
      maxYear := MaxYear(loadYear);
      papers := map[];
    }

    /** `Paper.find(filter)` before sorting: every selected document once,
        in the order the scan meets them. */
    method Select(f: Filter) returns (s: seq<Paper>)
      requires WellKeyed(papers)
      ensures IsListing(s, papers, f)
    {
      s := [];
      var rest := papers.Keys;
      while rest != {}
        invariant rest <= papers.Keys
        invariant forall i :: 0 <= i < |s| ==> s[i].id in papers && papers[s[i].id] == s[i] && Matches(s[i], f)
        invariant forall i :: 0 <= i < |s| ==> s[i].id !in rest
        invariant forall id :: id in papers && Matches(papers[id], f) && id !in rest ==> papers[id] in s
        invariant DistinctBy(s, (p: Paper) => p.id)
        decreases rest
      {
        var id :| id in rest;
        var p := papers[id];
        assert p.id == id;
        if Matches(p, f) {
          DistinctSnoc(s, p);
          s := s + [p];
        }
        rest := rest - {id};
      }
    }

    /** `create`: the body with `addedBy` set to the signed-in admin is
        validated and saved under a fresh id. A rejected body or a failed
        save answers 400 and stores nothing. */
    method Create(body: PaperBody, adminId: AdminId, newId: PaperId, now: int, fault: bool) returns (reply: Reply)
      requires Valid()
      requires newId !in papers
      modifies this
      ensures Valid()
      ensures reply.Created? ==> reply.paper.addedBy == adminId && reply.paper.id == newId
      ensures var r := NewPaper(body.(addedBy := Some(adminId)), newId, maxYear, now);
              if r.Err? then reply == BadRequest(r.error) && papers == old(papers)
              else if fault then reply == BadRequest([]) && papers == old(papers)
              else reply == Created(r.value) && papers == old(papers)[newId := r.value]
    {
      var r := NewPaper(body.(addedBy := Some(adminId)), newId, maxYear, now);
      if r.Err? {
        reply := BadRequest(r.error);
      } else if fault {
        reply := BadRequest([]);
      } else {
        StoreKeepsValid(papers, maxYear, r.value);
        papers := papers[newId := r.value];
        reply := Created(r.value);
      }
    }

    /** `getAll`: one page of the selected documents in the requested
        order, the number selected, the number of pages and the page
        number. A `year` that is not a number, a negative skip or a failed
        query answers 500. */
    method GetAll(q: Query, fault: bool) returns (reply: Reply)
      requires Valid()
      ensures var f := QueryFilter(q);
              if fault || f.None? || SkipOf(q) < 0 then reply == ServerError
              else
                var total := |MatchingIds(papers, f.value)|;
                && reply.Listing?
                && IsPage(reply.papers, papers, f.value, SortFieldOf(q), DescendingOf(q),
                          SkipOf(q), EffectiveLimit(LimitOf(q), total))
                && reply.total == total
                && reply.totalPages == TotalPages(total, LimitOf(q))
                && reply.currentPage == PageOf(q)
      ensures reply.Listing? ==> forall i :: 0 <= i < |reply.papers| ==>
                reply.papers[i].id in papers && papers[reply.papers[i].id] == reply.papers[i] &&
                Matches(reply.papers[i], QueryFilter(q).value)
      ensures reply.Listing? && LimitOf(q) > 0 ==> |reply.papers| <= LimitOf(q)
    {
      var f := BuildFilter(q);
      if fault || f.None? || SkipOf(q) < 0 {
        return ServerError;
      }
      var selected := Select(f.value);
      ListingLength(selected, papers, f.value);
      var order := Order(SortFieldOf(q), DescendingOf(q));
      OrderIsTotalPreorder(SortFieldOf(q), DescendingOf(q));
      var sorted := SortBy(selected, order);
      SortBySorted(selected, order);
      SortByDistinct(selected, order, (p: Paper) => p.id);
      SortedListing(selected, sorted, papers, f.value);
      var total := |selected|;
      var page := Window(sorted, SkipOf(q), EffectiveLimit(LimitOf(q), total));
      reply := Listing(page, total, TotalPages(total, LimitOf(q)), PageOf(q));
      PageProperties(page, papers, f.value, SortFieldOf(q), DescendingOf(q),
                     SkipOf(q), EffectiveLimit(LimitOf(q), total));
    }

    /** `getById`: the stored document, or 404. */
    method GetById(id: PaperId, fault: bool) returns (reply: Reply)
      requires Valid()
      ensures fault ==> reply == ServerError
      ensures !fault && id !in papers ==> reply == NotFound
      ensures !fault && id in papers ==> reply == Found(papers[id]) && reply.paper.id == id
      ensures reply.Found? ==> WellFormedPaper(reply.paper, maxYear)
    {
      if fault {
        reply := ServerError;
      } else if id !in papers {
        reply := NotFound;
      } else {
        reply := Found(papers[id]);
      }
    }

    /** `update`: the update validators check the paths the body sets; a
        body they accept is merged into the stored document, with
        `updatedAt` set to the time of the request. Casting the update comes
        first: an `addedBy` that is no ObjectId fails the cast. An unknown id
        answers 404; a failed cast, a rejected body or a failed update 400. */
    method Update(id: PaperId, body: PaperBody, now: int, fault: bool) returns (reply: Reply)
      requires Valid()
      modifies this
      ensures Valid()
      ensures var c := ApplySetters(body);
              var errs := Errors(c, maxYear, false);
              if body.addedBy.Some? && !CastsToObjectId(body.addedBy.value) then
                reply == BadRequest([CastFailed(AddedBy)]) && papers == old(papers)
              else if errs != [] then reply == BadRequest(errs) && papers == old(papers)
              else if fault then reply == BadRequest([]) && papers == old(papers)
              else if id !in old(papers) then reply == NotFound && papers == old(papers)
              else reply == Updated(Merge(old(papers)[id], c, now))
                   && papers == old(papers)[id := reply.paper]
    {
      if body.addedBy.Some? && !CastsToObjectId(body.addedBy.value) {
        return BadRequest([CastFailed(AddedBy)]);
      }
      var c := ApplySetters(body);
      var errs := Errors(c, maxYear, false);
      if errs != [] {
        reply := BadRequest(errs);
      } else if fault {
        reply := BadRequest([]);
      } else if id !in papers {
        reply := NotFound;
      } else {
        MergeKeepsWellFormed(papers[id], body, maxYear, now);
        var merged := Merge(papers[id], c, now);
        StoreKeepsValid(papers, maxYear, merged);
        papers := papers[id := merged];
        reply := Updated(merged);
      }
    }

    /** `delete`: removes the document and answers with it, or 404. */
    method Delete(id: PaperId, fault: bool) returns (reply: Reply)
      requires Valid()
      modifies this
      ensures Valid()
      ensures fault ==> reply == ServerError && papers == old(papers)
      ensures !fault && id !in old(papers) ==> reply == NotFound && papers == old(papers)
      ensures !fault && id in old(papers) ==>
                reply == Deleted(old(papers)[id]) && papers == old(papers) - {id}
    {
      if fault {
        reply := ServerError;
      } else if id !in papers {
        reply := NotFound;
      } else {
        reply := Deleted(papers[id]);
        papers := papers - {id};
      }
    }

    /** `getStats`: the four aggregates over the whole collection. */
    method GetStats(fault: bool) returns (reply: Reply)
      requires Valid()
      ensures fault ==> reply == ServerError
      ensures !fault ==> reply.Statistics? && IsStats(reply.stats, papers)
    {
      if fault {
        return ServerError;
      }
      var total := Select(NoFilter);
      var byType := Select(NoFilter);
      var byYear := Select(NoFilter);
      var bySubject := Select(NoFilter);
      ListingLength(total, papers, NoFilter);
      NoFilterSelectsAll(papers);
      reply := Statistics(Stats(|total|, PapersByType(byType), PapersByYear(byYear), PapersBySubject(bySubject)));
    }
  }

  /** A deleted paper is gone: deleting it answers with the paper, and
      fetching it afterwards answers 404. */
  method DeleteThenGetById(store: PaperStore, id: PaperId) returns (first: Reply, second: Reply)
    requires store.Valid() && id in store.papers
    modifies store
    ensures first == Deleted(old(store.papers[id]))
    ensures second == NotFound
    ensures store.papers == old(store.papers) - {id}
  {
    first := store.Delete(id, false);
    second := store.GetById(id, false);
  }

  lemma DistinctSnoc(s: seq<Paper>, p: Paper)
    requires DistinctBy(s, (q: Paper) => q.id)
    requires forall i :: 0 <= i < |s| ==> s[i].id != p.id
    ensures DistinctBy(s + [p], (q: Paper) => q.id)
  {
    var t := s + [p];
    forall i, j | 0 <= i < j < |t| ensures t[i].id != t[j].id {
      assert t[i] == s[i];
    }
  }

  /** Sorting a listing gives a listing. */
  lemma SortedListing(s: seq<Paper>, t: seq<Paper>, store: Collection, f: Filter)
    requires IsListing(s, store, f)
    requires multiset(t) == multiset(s)
    requires DistinctBy(t, (p: Paper) => p.id)
    ensures IsListing(t, store, f)
  {
    forall i | 0 <= i < |t| ensures t[i].id in store && store[t[i].id] == t[i] && Matches(t[i], f) {
      assert t[i] in multiset(s);
    }
    forall id | id in MatchingIds(store, f) ensures store[id] in t {
      assert store[id] in multiset(s);
    }
  }

  /** `st` is what `getStats` may answer for `store`: the number of
      documents, and each aggregate over the documents in some scan order of
      its own. The four queries run independently, `$group` promises no
      order and `$sort` breaks ties either way, so the tie orders of
      different aggregates need not agree. */
  ghost predicate IsStats(st: Stats, store: Collection) {
    && st.totalPapers == |store|
    && (exists docs :: IsListing(docs, store, NoFilter) && st.papersByType == PapersByType(docs))
    && (exists docs :: IsListing(docs, store, NoFilter) && st.papersByYear == PapersByYear(docs))
    && (exists docs :: IsListing(docs, store, NoFilter) && st.papersBySubject == PapersBySubject(docs))
  }

  /** What `getStats` reports: the number of documents, and for each type
      the `total` that `getAll` reports for that type. */
  lemma StatsTotals(st: Stats, store: Collection, t: string)
    requires WellKeyed(store) && IsStats(st, store)
    ensures st.totalPapers == |store|
    ensures Lookup(st.papersByType, t) == |MatchingIds(store, TypeFilter(t))|
  {
    var docs :| IsListing(docs, store, NoFilter) && st.papersByType == PapersByType(docs);
    TypeCountIsFilteredTotal(docs, store, t);
  }

  lemma NoFilterSelectsAll(store: Collection)
    ensures MatchingIds(store, NoFilter) == store.Keys
  {
  }

  /** The `type` parameter matches regardless of case. */
  lemma TypeQueryIgnoresCase(q: Query)
    requires Given(q.kind)
    ensures QueryFilter(q) == QueryFilter(q.(kind := Some(ToUpper(q.kind.value))))
  {
    ToUpperIdempotent(q.kind.value);
  }

  /** `?year=2023` filters on the number 2023, and so do `?year=%202023`
      and `?year=2023abc`: `parseInt` skips leading blanks and stops at the
      first character that is not a digit. "0x" and "0X" start a
      hexadecimal year instead. */
  lemma YearQueryReadsLeadingDigits(q: Query, w: string, n: nat, tail: string)
    requires AllSpace(w)
    requires q.year == Some(w + Numeral(n, 10) + tail)
    requires tail == [] || !IsDigit(tail[0])
    requires n == 0 ==> tail == [] || (tail[0] != 'x' && tail[0] != 'X')
    ensures QueryFilter(q).Some? && QueryFilter(q).value.year == Some(n)
  {
    ParseIntNumeral(w, n, tail);
  }

  /** `?year=-5` filters on the number -5 and `?year=+2023` on 2023:
      `parseInt` reads one sign, then reads the rest as it would without
      one. */
  lemma YearQueryReadsSign(q: Query, w: string, c: char, u: string)
    requires AllSpace(w)
    requires c == '+' || c == '-'
    requires q.year == Some(w + [c] + u)
    ensures QueryFilter(q).None? <==> ParseUnsigned(u).None?
    ensures ParseUnsigned(u).Some? && c == '+' ==>
              QueryFilter(q).value.year == Some(ParseUnsigned(u).value as int)
    ensures ParseUnsigned(u).Some? && c == '-' ==>
              QueryFilter(q).value.year == Some(-(ParseUnsigned(u).value as int))
  {
    ParseIntReadsSign(w, c, u);
  }

  /** `?year=0x7E7` filters on 2023: without a radix `parseInt` reads a
      hexadecimal numeral after "0x" or "0X". */
  lemma YearQueryReadsHex(q: Query, w: string, n: nat, x: char, tail: string)
    requires AllSpace(w)
    requires x == 'x' || x == 'X'
    requires q.year == Some(w + ['0', x] + Numeral(n, 16) + tail)
    requires tail == [] || DigitValue(tail[0]) >= 16
    ensures QueryFilter(q).Some? && QueryFilter(q).value.year == Some(n)
  {
    var u := ['0', x] + Numeral(n, 16) + tail;
    assert q.year.value == w + u;
    assert u[0] == '0';
    ParseUnsignedHexNumeral(n, x, tail);
    ParseIntSkipsBlanks(w, u);
  }

  /** `?year=0x` alone, or followed by no hexadecimal digit, is NaN, which
      fails the cast: `getAll` answers 500. */
  lemma YearQueryEmptyHexFails(q: Query, w: string, x: char, tail: string)
    requires AllSpace(w)
    requires x == 'x' || x == 'X'
    requires q.year == Some(w + ['0', x] + tail)
    requires tail == [] || DigitValue(tail[0]) >= 16
    ensures QueryFilter(q).None?
  {
    var u := ['0', x] + tail;
    assert q.year.value == w + u;
    assert HasHexPrefix(u);
    ParseIntSkipsBlanks(w, u);
  }

  /** Blanks around `?subject=` are trimmed off by the cast: the query
      selects what the trimmed one does. */
  lemma SubjectQueryIgnoresBlanks(q: Query)
    requires Given(q.subject) && Trim(q.subject.value) != ""
    ensures QueryFilter(q) == QueryFilter(q.(subject := Some(Trim(q.subject.value))))
  {
    TrimIdempotent(q.subject.value);
  }

  /** A `?subject=` of blanks alone is truthy, so it filters, on the empty
      subject, which no stored paper has. */
  lemma BlankSubjectSelectsNothing(q: Query, store: Collection, maxYear: int)
    requires Given(q.subject) && Trim(q.subject.value) == ""
    requires QueryFilter(q).Some?
    requires forall id :: id in store ==> WellFormedPaper(store[id], maxYear)
    ensures MatchingIds(store, QueryFilter(q).value) == {}
  {
    forall id | id in store
      ensures !Matches(store[id], QueryFilter(q).value)
    {
      assert store[id].subject != "";
    }
  }
}
