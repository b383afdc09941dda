/** The execution listing handler: the executions that pass the optional
    agent, model and date filters, newest first, one page at a time, each
    row carrying the cost the estimator charges it. */
module Executions {
  import opened Common
  import opened Text
  import opened Seqs
  import opened Records
  import opened Cost
  import opened Paging

  /** The query string: every filter is optional. */
  datatype ExecutionQuery = ExecutionQuery(
    agentName: Option<string>,
    modelUsed: Option<string>,
    startDate: Option<int>,
    endDate: Option<int>)

  /** The `where` clause: a case-insensitive substring of the agent name, the
      exact model name, and an inclusive range of start instants, each only
      when given. */
  predicate ExecutionMatches(q: ExecutionQuery, e: Execution) {
    && (Present(q.agentName) ==> ContainsInsensitive(e.agentName, q.agentName.value))
    && (Present(q.modelUsed) ==> e.modelUsed == q.modelUsed)
    && (q.startDate.Some? ==> e.startedAt >= q.startDate.value)
    && (q.endDate.Some? ==> e.startedAt <= q.endDate.value)
  }

  /** The filter stated with occurrences instead of the substring search:
      the lower-cased agent name has the lower-cased term at some position,
      the model is the one asked for, and the start lies inside the given
      bounds. */
  ghost predicate MatchesByOccurrence(q: ExecutionQuery, e: Execution) {
    && (Present(q.agentName) ==>
          e.agentName.Some? && exists i :: OccursAt(ToLower(e.agentName.value), ToLower(q.agentName.value), i))
    && (Present(q.modelUsed) ==> e.modelUsed == q.modelUsed)
    && (q.startDate.Some? ==> q.startDate.value <= e.startedAt)
    && (q.endDate.Some? ==> e.startedAt <= q.endDate.value)
  }

  /** A row passes the filter exactly when it matches by occurrence. */
  lemma ExecutionMatchesSpec(q: ExecutionQuery, e: Execution)
    ensures ExecutionMatches(q, e) ==> MatchesByOccurrence(q, e)
    ensures MatchesByOccurrence(q, e) ==> ExecutionMatches(q, e)
  {
    if e.agentName.Some? && Present(q.agentName) {
      ContainsSpec(ToLower(e.agentName.value), ToLower(q.agentName.value));
    }
  }

  /** The `where` filter as a row predicate. */
  function Where(q: ExecutionQuery): Execution -> bool {
    (e: Execution) => ExecutionMatches(q, e)
  }

  function StartedAt(e: Execution): int {
    e.startedAt
  }

  /** The executions that pass the filter, newest first. */
  function Listed(rows: seq<Execution>, q: ExecutionQuery): seq<Execution> {
    Listing(rows, Where(q), StartedAt)
  }

  /** The full listing holds exactly the matching rows, newest first; with
      no filter given that is every row. */
  lemma ListedRows(rows: seq<Execution>, q: ExecutionQuery)
    ensures var l := Listed(rows, q);
      && SortedDesc(l, StartedAt)
      && multiset(l) == multiset(Filter(rows, Where(q)))
      && (forall i :: 0 <= i < |l| ==> ExecutionMatches(q, l[i]))
      && (forall i :: 0 <= i < |rows| && ExecutionMatches(q, rows[i]) ==> rows[i] in l)
    ensures q == ExecutionQuery(None, None, None, None) ==> multiset(Listed(rows, q)) == multiset(rows)
  {
    ListingRows(rows, Where(q), StartedAt);
    var l := Listed(rows, q);
    forall i | 0 <= i < |l| ensures ExecutionMatches(q, l[i]) {
      assert Where(q)(l[i]);
    }
    if q == ExecutionQuery(None, None, None, None) {
      FilterAll(rows, Where(q));
    }
  }

  /** The cost overlay `{ ...exec, costUsd: calculateExecCost(exec) }`: every
      row keeps its place and every field but `costUsd`, which becomes the
      estimator's cost. */
  function WithCost(rows: seq<Execution>, pm: PricingMap): (r: seq<Execution>)
    ensures |r| == |rows|
    ensures forall i :: 0 <= i < |r| ==> r[i] == rows[i].(costUsd := ExecCost(rows[i], pm, ListingMissingKey))
  {
    if |rows| == 0 then []
    else [rows[0].(costUsd := ExecCost(rows[0], pm, ListingMissingKey))] + WithCost(rows[1..], pm)
  }

  /** A row with a positive recorded cost is listed unchanged; for any
      other row the listed cost is the estimate, which is the same whether
      the recorded cost was null, zero or negative. */
  lemma WithCostKeepsRecorded(rows: seq<Execution>, pm: PricingMap, i: int)
    requires 0 <= i < |rows|
    ensures rows[i].costUsd > 0.0 ==> WithCost(rows, pm)[i] == rows[i]
    ensures rows[i].costUsd <= 0.0 ==>
      WithCost(rows, pm)[i].costUsd == ExecCost(rows[i].(costUsd := 0.0), pm, ListingMissingKey)
  {
    if rows[i].costUsd > 0.0 {
      RecordedCostWins(rows[i], pm, ListingMissingKey);
    } else {
      EstimateIgnoresRecorded(rows[i], pm, ListingMissingKey);
    }
  }

  /** The response body. */
  datatype ExecutionPage = ExecutionPage(executions: seq<Execution>, pagination: Pagination)

  /** The page the handler returns, stated on the tables. */
  function ExecutionListing(rows: seq<Execution>, pricing: seq<ModelPricing>, q: ExecutionQuery,
                            page: int, limit: int): ExecutionPage
    requires page >= 1 && limit >= 1
  {
    var total := |Filter(rows, Where(q))|;
    ExecutionPage(WithCost(PageOf(Listed(rows, q), page, limit), PricingMapOf(pricing)),
                  Pagination(page, limit, total, TotalPages(total, limit)))
  }

  /** `GET /api/executions`: without a session the request is refused;
      otherwise the requested page of the listing. */
  method GetExecutions(session: Option<Session>, rows: seq<Execution>, pricing: seq<ModelPricing>,
                       q: ExecutionQuery, page: int, limit: int) returns (r: Result<ExecutionPage>)
    requires page >= 1 && limit >= 1
    ensures session.None? ==> r == Err(Unauthorized)
    ensures session.Some? ==> r == Ok(ExecutionListing(rows, pricing, q, page, limit))
  {
    if session.None? {
      return Err(Unauthorized);
    }
    var pm := BuildPricingMap(pricing);
    var fetched := PageOf(Listed(rows, q), page, limit);
    var total := |Filter(rows, Where(q))|;
    r := Ok(ExecutionPage(WithCost(fetched, pm), Pagination(page, limit, total, TotalPages(total, limit))));
  }

  /** A page holds at most `limit` rows, and `total` counts every matching
      row whatever the page: the pages up to `totalPages` hold them all and
      any later page is empty. */
  lemma ExecutionListingCount(rows: seq<Execution>, pricing: seq<ModelPricing>, q: ExecutionQuery,
                              page: int, limit: int)
    requires page >= 1 && limit >= 1
    ensures var r := ExecutionListing(rows, pricing, q, page, limit);
      && |r.executions| <= limit
      && r.pagination.total == |Listed(rows, q)|
      && r.pagination.total <= r.pagination.totalPages * limit
      && (page > r.pagination.totalPages ==> r.executions == [])
  {
    var r := ExecutionListing(rows, pricing, q, page, limit);
    if page > r.pagination.totalPages {
      PageBeyondLastIsEmpty(Listed(rows, q), page, limit);
    }
  }

  /** The overlay changes neither the start instant nor whether a row
      passes the filter. */
  lemma MatchesIgnoresCost(q: ExecutionQuery, e: Execution, c: real)
    ensures ExecutionMatches(q, e.(costUsd := c)) == ExecutionMatches(q, e)
  {
  }

  /** The rows of a page are newest first. */
  lemma ExecutionListingOrder(rows: seq<Execution>, pricing: seq<ModelPricing>, q: ExecutionQuery,
                              page: int, limit: int)
    requires page >= 1 && limit >= 1
    ensures var r := ExecutionListing(rows, pricing, q, page, limit).executions;
      forall i, j :: 0 <= i < j < |r| ==> r[i].startedAt >= r[j].startedAt
  {
    var p := PageOf(Listed(rows, q), page, limit);
    ListingPage(rows, Where(q), StartedAt, page, limit);
    assert forall i, j :: 0 <= i < j < |p| ==> StartedAt(p[i]) >= StartedAt(p[j]);
  }

  /** Every row of a page passes the filter. */
  lemma ExecutionListingMatches(rows: seq<Execution>, pricing: seq<ModelPricing>, q: ExecutionQuery,
                                page: int, limit: int)
    requires page >= 1 && limit >= 1
    ensures var r := ExecutionListing(rows, pricing, q, page, limit).executions;
      forall i :: 0 <= i < |r| ==> ExecutionMatches(q, r[i])
  {
    var pm := PricingMapOf(pricing);
    var p := PageOf(Listed(rows, q), page, limit);
    var r := WithCost(p, pm);
    ListingPage(rows, Where(q), StartedAt, page, limit);
    forall i | 0 <= i < |r| ensures ExecutionMatches(q, r[i]) {
      assert Where(q)(p[i]);
      MatchesIgnoresCost(q, p[i], ExecCost(p[i], pm, ListingMissingKey));
    }
  }
}
