/** The lead listing handler: the leads that pass the optional search,
    source and date filters, newest first, one page at a time. */
module Leads {
  import opened Common
  import opened Text
  import opened Seqs
  import opened Records
  import opened Time
  import opened Paging

  /** The query string: every filter is optional. */
  datatype LeadQuery = LeadQuery(
    search: Option<string>,
    source: Option<string>,
    startDate: Option<int>,
    endDate: Option<int>)

  /** The `where` clause, with local time `offset` milliseconds ahead of
      UTC: the search term in the name, email or phone, the source term in
      the source (both case-insensitively), the date at or after
      `startDate`, and at or before the last millisecond of `endDate`'s
      local day; each only when given. */
  predicate LeadMatches(q: LeadQuery, offset: int, l: Lead) {
    && (Present(q.search) ==>
          || ContainsInsensitive(l.name, q.search.value)
          || ContainsInsensitive(l.email, q.search.value)
          || ContainsInsensitive(l.phone, q.search.value))
    && (Present(q.source) ==> ContainsInsensitive(l.source, q.source.value))
    && (q.startDate.Some? ==> l.date >= q.startDate.value)
    && (q.endDate.Some? ==> l.date <= EndOfLocalDay(q.endDate.value, offset))
  }

  /** The lower-cased `field` has the lower-cased `term` at some position. */
  ghost predicate Occurs(field: Option<string>, term: string) {
    field.Some? && exists i :: OccursAt(ToLower(field.value), ToLower(term), i)
  }

  /** The filter stated with occurrences and local days: a term occurs in
      one of the fields it is matched against, and the lead's local day is
      not later than `endDate`'s. */
  ghost predicate MatchesByOccurrence(q: LeadQuery, offset: int, l: Lead) {
    && (Present(q.search) ==>
          Occurs(l.name, q.search.value) || Occurs(l.email, q.search.value) || Occurs(l.phone, q.search.value))
    && (Present(q.source) ==> Occurs(l.source, q.source.value))
    && (q.startDate.Some? ==> q.startDate.value <= l.date)
    && (q.endDate.Some? ==> LocalDay(l.date, offset) <= LocalDay(q.endDate.value, offset))
  }

  lemma OccursSpec(field: Option<string>, term: string)
    ensures ContainsInsensitive(field, term) ==> Occurs(field, term)
    ensures Occurs(field, term) ==> ContainsInsensitive(field, term)
  {
    if field.Some? {
      ContainsSpec(ToLower(field.value), ToLower(term));
    }
  }

  /** A lead passes the filter exactly when it matches by occurrence: in
      particular every lead of `endDate`'s local day passes the end bound. */
  lemma LeadMatchesSpec(q: LeadQuery, offset: int, l: Lead)
    ensures LeadMatches(q, offset, l) ==> MatchesByOccurrence(q, offset, l)
    ensures MatchesByOccurrence(q, offset, l) ==> LeadMatches(q, offset, l)
  {
    if Present(q.search) {
      OccursSpec(l.name, q.search.value);
      OccursSpec(l.email, q.search.value);
      OccursSpec(l.phone, q.search.value);
    }
    if Present(q.source) {
      OccursSpec(l.source, q.source.value);
    }
    if q.endDate.Some? {
      EndOfLocalDayBound(q.endDate.value, offset, l.date);
    }
  }

  /** The `where` filter as a row predicate. */
  function Where(q: LeadQuery, offset: int): Lead -> bool {
    (l: Lead) => LeadMatches(q, offset, l)
  }

  function LeadDate(l: Lead): int {
    l.date
  }

  /** The leads that pass the filter, newest first. */
  function Listed(rows: seq<Lead>, q: LeadQuery, offset: int): seq<Lead> {
    Listing(rows, Where(q, offset), LeadDate)
  }

  /** The full listing holds exactly the matching leads, newest first; with
      no filter given that is every lead. */
  lemma ListedRows(rows: seq<Lead>, q: LeadQuery, offset: int)
    ensures var l := Listed(rows, q, offset);
      && SortedDesc(l, LeadDate)
      && multiset(l) == multiset(Filter(rows, Where(q, offset)))
      && (forall i :: 0 <= i < |l| ==> LeadMatches(q, offset, l[i]))
      && (forall i :: 0 <= i < |rows| && LeadMatches(q, offset, rows[i]) ==> rows[i] in l)
    ensures q == LeadQuery(None, None, None, None) ==> multiset(Listed(rows, q, offset)) == multiset(rows)
  {
    ListingRows(rows, Where(q, offset), LeadDate);
    var l := Listed(rows, q, offset);
    forall i | 0 <= i < |l| ensures LeadMatches(q, offset, l[i]) {
      assert Where(q, offset)(l[i]);
    }
    if q == LeadQuery(None, None, None, None) {
      FilterAll(rows, Where(q, offset));
    }
  }

  /** The response body. */
  datatype LeadPage = LeadPage(leads: seq<Lead>, pagination: Pagination)

  /** The page the handler returns, stated on the table. */
  function LeadListing(rows: seq<Lead>, q: LeadQuery, offset: int, page: int, limit: int): LeadPage
    requires page >= 1 && limit >= 1
  {
    var total := |Filter(rows, Where(q, offset))|;
    LeadPage(PageOf(Listed(rows, q, offset), page, limit), Pagination(page, limit, total, TotalPages(total, limit)))
  }

  /** `GET /api/leads`: without a session the request is refused;
      otherwise the requested page of the listing. */
  method GetLeads(session: Option<Session>, rows: seq<Lead>, q: LeadQuery, offset: int,
                  page: int, limit: int) returns (r: Result<LeadPage>)
    requires page >= 1 && limit >= 1
    ensures session.None? ==> r == Err(Unauthorized)
    ensures session.Some? ==> r == Ok(LeadListing(rows, q, offset, page, limit))
  {
    if session.None? {
      return Err(Unauthorized);
    }
    var leads := PageOf(Listed(rows, q, offset), page, limit);
    var total := |Filter(rows, Where(q, offset))|;
    r := Ok(LeadPage(leads, Pagination(page, limit, total, TotalPages(total, limit))));
  }

  /** A page holds at most `limit` leads, newest first, each passing the
      filter; `total` counts every matching lead whatever the page, the
      pages up to `totalPages` hold them all and any later page is empty. */
  lemma LeadListingPage(rows: seq<Lead>, q: LeadQuery, offset: int, page: int, limit: int)
    requires page >= 1 && limit >= 1
    ensures var r := LeadListing(rows, q, offset, page, limit);
      && |r.leads| <= limit
      && (forall i, j :: 0 <= i < j < |r.leads| ==> r.leads[i].date >= r.leads[j].date)
      && (forall i :: 0 <= i < |r.leads| ==> LeadMatches(q, offset, r.leads[i]))
      && r.pagination.total == |Listed(rows, q, offset)|
      && r.pagination.total <= r.pagination.totalPages * limit
      && (page > r.pagination.totalPages ==> r.leads == [])
  {
    var p := PageOf(Listed(rows, q, offset), page, limit);
    ListingPage(rows, Where(q, offset), LeadDate, page, limit);
    assert forall i, j :: 0 <= i < j < |p| ==> LeadDate(p[i]) >= LeadDate(p[j]);
    forall i | 0 <= i < |p| ensures LeadMatches(q, offset, p[i]) {
      assert Where(q, offset)(p[i]);
    }
    if page > TotalPages(|Filter(rows, Where(q, offset))|, limit) {
      PageBeyondLastIsEmpty(Listed(rows, q, offset), page, limit);
    }
  }
}
