/** The scalar figures of the metrics dashboard: the executions and leads of
    a window, their cost and token totals, the status counts, the success
    rate, the previous window of equal length and the percentage change
    against it. */
module MetricsTotals {
  import opened Common
  import opened Seqs
  import opened Records
  import opened Cost
  import opened Time

  // ---------------------------------------------------------------- windows

  /** The executions started inside the inclusive window `[lo, hi]`. */
  function ExecutionsIn(s: seq<Execution>, lo: int, hi: int): seq<Execution> {
    Filter(s, (e: Execution) => Within(e.startedAt, lo, hi))
  }

  /** The number of leads dated inside the inclusive window `[lo, hi]`. */
  function LeadsIn(leads: seq<Lead>, lo: int, hi: int): nat {
    |Filter(leads, (l: Lead) => Within(l.date, lo, hi))|
  }

  /** The number of leads written at or after `since` (`leadsToday`). */
  function LeadsSince(leads: seq<Lead>, since: int): nat {
    |Filter(leads, (l: Lead) => l.createdAt >= since)|
  }

  /** The window just before `[start, end]`: it is shifted back by the
      duration `end - start`, so it has the same length and ends where the
      current one starts. */
  function PreviousWindow(start: int, end: int): (w: (int, int))
    ensures w.1 - w.0 == end - start
    ensures w.1 == start
  {
    var duration := end - start;
    (start - duration, end - duration)
  }

  /** Both windows are inclusive, so they share the instant `start` and no
      other: a record stamped exactly at `start` counts in both periods. */
  lemma WindowsShareStart(start: int, end: int, t: int)
    requires start <= end
    ensures var (ps, pe) := PreviousWindow(start, end);
      Within(t, ps, pe) && Within(t, start, end) <==> t == start
  {
  }

  // ---------------------------------------------------------------- totals

  /** The cost the metrics handler charges one execution. */
  function CostOf(pm: PricingMap): Execution -> real {
    (e: Execution) => ExecCost(e, pm, MetricsMissingKey)
  }

  /** `totalCost`: the sum of the per-execution costs. */
  function TotalCost(s: seq<Execution>, pm: PricingMap): real {
    SumOf(s, CostOf(pm))
  }

  /** The `reduce` behind `totalCost`, one execution at a time. */
  method ComputeTotalCost(s: seq<Execution>, pm: PricingMap) returns (total: real)
    ensures total == TotalCost(s, pm)
  {
    total := 0.0;
    for i := 0 to |s|
      invariant total == TotalCost(s[..i], pm)
    {
      assert s[..i + 1][..i] == s[..i];
      total := total + ExecCost(s[i], pm, MetricsMissingKey);
    }
    assert s[..|s|] == s;
  }

  /** The total cost is non-negative when every price and token count is. */
  lemma {:induction false} TotalCostNonNegative(s: seq<Execution>, pm: PricingMap)
    requires NonNegativePrices(pm)
    requires forall i :: 0 <= i < |s| ==> s[i].inputTokens >= 0 && s[i].outputTokens >= 0 && s[i].totalTokens >= 0
    ensures TotalCost(s, pm) >= 0.0
  {
    if |s| > 0 {
      var n := |s| - 1;
      TotalCostNonNegative(s[..n], pm);
      CostNonNegative(s[n], pm, MetricsMissingKey);
    }
  }

  /** The tokens an execution counts for: the reported total when positive,
      otherwise input plus output. */
  function ExecTokens(e: Execution): int {
    if e.totalTokens > 0 then e.totalTokens else e.inputTokens + e.outputTokens
  }

  /** `totalTokens`. */
  function TotalTokens(s: seq<Execution>): int {
    IntSumOf(s, ExecTokens)
  }

  /** The `reduce` behind `totalTokens`. */
  method ComputeTotalTokens(s: seq<Execution>) returns (total: int)
    ensures total == TotalTokens(s)
  {
    total := 0;
    for i := 0 to |s|
      invariant total == TotalTokens(s[..i])
    {
      assert s[..i + 1][..i] == s[..i];
      var sum := s[i].inputTokens + s[i].outputTokens;
      var reported := s[i].totalTokens;
      total := total + (if reported > 0 then reported else sum);
    }
    assert s[..|s|] == s;
  }

  /** A reported total wins over the split counts, and the split counts are
      used only when no positive total was reported. */
  lemma {:induction false} TokensFromParts(s: seq<Execution>)
    requires forall i :: 0 <= i < |s| ==> s[i].totalTokens <= 0
    ensures TotalTokens(s) == IntSumOf(s, (e: Execution) => e.inputTokens) + IntSumOf(s, (e: Execution) => e.outputTokens)
  {
    if |s| > 0 {
      TokensFromParts(s[..|s| - 1]);
    }
  }

  // ---------------------------------------------------------------- status

  predicate IsSuccess(e: Execution) {
    e.status == Success
  }

  predicate IsError(e: Execution) {
    e.status == Error
  }

  /** Every execution is counted as a success or as an error, never both. */
  lemma StatusPartition(s: seq<Execution>)
    ensures |Filter(s, IsSuccess)| + |Filter(s, IsError)| == |s|
  {
    FilterPartition(s, IsSuccess, IsError);
  }

  /** `successRate`: the percentage of successes, 0 when there were no
      executions. */
  function SuccessRate(total: int, success: int): real {
    if total > 0 then success as real / total as real * 100.0 else 0.0
  }

  lemma SuccessRateBounds(total: int, success: int)
    requires 0 <= success <= total
    ensures 0.0 <= SuccessRate(total, success) <= 100.0
    ensures total == 0 ==> SuccessRate(total, success) == 0.0
    ensures 0 < total == success ==> SuccessRate(total, success) == 100.0
    ensures success == 0 ==> SuccessRate(total, success) == 0.0
  {
    if total > 0 {
      assert success as real / total as real <= 1.0;
    }
  }

  // ---------------------------------------------------------------- change

  /** `costChange` and `leadsChange`: the relative change in percent, 0 when
      the previous value is not positive. */
  function PercentChange(current: real, previous: real): real {
    if previous > 0.0 then (current - previous) / previous * 100.0 else 0.0
  }

  /** The change is 0 without a positive previous value; otherwise applying
      it to the previous value gives back the current one, and its sign is
      the sign of the difference. */
  lemma PercentChangeMeaning(current: real, previous: real)
    ensures previous <= 0.0 ==> PercentChange(current, previous) == 0.0
    ensures previous > 0.0 ==> current == previous + previous * PercentChange(current, previous) / 100.0
    ensures previous > 0.0 ==> (PercentChange(current, previous) > 0.0 <==> current > previous)
    ensures previous > 0.0 ==> (PercentChange(current, previous) == 0.0 <==> current == previous)
    ensures previous > 0.0 && current >= 0.0 ==> PercentChange(current, previous) >= -100.0
  {
    if previous > 0.0 {
      var q := (current - previous) / previous;
      assert q * previous == current - previous;
      assert PercentChange(current, previous) == q * 100.0;
      assert q > 0.0 <==> current > previous;
    }
  }

  // ---------------------------------------------------------------- agents

  /** The distinct `agentName` values, null included: `new Set(map(e => e.agentName))`. */
  function AgentNames(s: seq<Execution>): (r: set<Option<string>>)
    ensures forall i :: 0 <= i < |s| ==> s[i].agentName in r
    ensures forall a :: a in r ==> exists i :: 0 <= i < |s| && s[i].agentName == a
  {
    set i | 0 <= i < |s| :: s[i].agentName
  }

  /** `activeAgentsCount`. */
  function ActiveAgentsCount(s: seq<Execution>): nat {
    |AgentNames(s)|
  }

  /** Appending an execution adds its agent name to the distinct names. */
  lemma AgentNamesSnoc(s: seq<Execution>)
    requires |s| > 0
    ensures AgentNames(s) == AgentNames(s[..|s| - 1]) + {s[|s| - 1].agentName}
  {
    var n := |s| - 1;
    forall a | a in AgentNames(s) ensures a in AgentNames(s[..n]) + {s[n].agentName} {
      var i :| 0 <= i < |s| && s[i].agentName == a;
      if i < n { assert s[..n][i].agentName == a; }
    }
    forall a | a in AgentNames(s[..n]) ensures a in AgentNames(s) {
      var i :| 0 <= i < n && s[..n][i].agentName == a;
      assert s[i].agentName == a;
    }
  }

  /** There are no more active agents than executions, and at least one
      when there is an execution. */
  lemma {:induction false} ActiveAgentsBounds(s: seq<Execution>)
    ensures ActiveAgentsCount(s) <= |s|
    ensures |s| > 0 ==> ActiveAgentsCount(s) >= 1
  {
    if |s| > 0 {
      var n := |s| - 1;
      ActiveAgentsBounds(s[..n]);
      AgentNamesSnoc(s);
      assert s[n].agentName in AgentNames(s);
    }
  }
}
