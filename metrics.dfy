/** The metrics dashboard handler: for a date window it reports the cost,
    volume, status split and token use of the executions, the leads and
    their change against the previous window of equal length, the top
    FAQs, a per-day timeline, a per-agent breakdown and the model
    distribution. */
module Metrics {
  import opened Common
  import opened Seqs
  import opened Grouping
  import opened Records
  import opened Cost
  import opened Time
  import opened MetricsTotals
  import opened MetricsGroups
  import opened MetricsFaqs

  /** The instants the handler reads off the server clock: the start of the
      local day, and the first and last days of the local month, which stand
      in for a missing `from` and `to`. */
  datatype Clock = Clock(todayStart: int, monthStart: int, monthEnd: int)

  /** The response body. */
  datatype Report = Report(
    totalCost: real,
    costChange: real,
    totalExecutions: nat,
    successRate: real,
    successCount: nat,
    errorCount: nat,
    totalTokens: int,
    newLeads: nat,
    leadsChange: real,
    leadsToday: nat,
    activeAgentsCount: nat,
    topFaqs: seq<Faq>,
    timeline: seq<DayStats>,
    executionsByAgent: seq<AgentStats>,
    modelDistribution: seq<ModelCount>)

  /** The window `[start, end]`: `from` or the first of the month, and the
      last millisecond of the local day of `to` or of the month's last day. */
  function ReportWindow(from: Option<int>, to: Option<int>, offset: int, clock: Clock): (w: (int, int))
    ensures from.Some? ==> w.0 == from.value
    ensures from.None? ==> w.0 == clock.monthStart
    ensures var t := if to.Some? then to.value else clock.monthEnd;
      t <= w.1 < t + DayMs && (w.1 + 1 + offset) % DayMs == 0
  {
    var start := if from.Some? then from.value else clock.monthStart;
    var end := EndOfLocalDay(if to.Some? then to.value else clock.monthEnd, offset);
    (start, end)
  }

  /** The FAQs dated inside the window. */
  function FaqsIn(faqs: seq<Faq>, lo: int, hi: int): seq<Faq> {
    Filter(faqs, (f: Faq) => Within(f.date, lo, hi))
  }

  /** The report for the window `[start, end]`, every figure taken from the
      rows of the tables it concerns. */
  function MetricsReport(pricing: seq<ModelPricing>, executions: seq<Execution>, leads: seq<Lead>,
                         faqs: seq<Faq>, start: int, end: int, todayStart: int): Report
  {
    var pm := PricingMapOf(pricing);
    var (ps, pe) := PreviousWindow(start, end);
    var cur := ExecutionsIn(executions, start, end);
    var total := TotalCost(cur, pm);
    var successes := |Filter(cur, IsSuccess)|;
    var curLeads := LeadsIn(leads, start, end);
    Report(
      total,
      PercentChange(total, TotalCost(ExecutionsIn(executions, ps, pe), pm)),
      |cur|,
      SuccessRate(|cur|, successes),
      successes,
      |Filter(cur, IsError)|,
      TotalTokens(cur),
      curLeads,
      PercentChange(curLeads as real, LeadsIn(leads, ps, pe) as real),
      LeadsSince(leads, todayStart),
      ActiveAgentsCount(cur),
      TopFaqs(FaqsIn(faqs, start, end)),
      Timeline(cur, CostOf(pm)),
      ExecutionsByAgent(cur, CostOf(pm)),
      ModelDistribution(cur))
  }

  /** `GET /api/metrics`: without a session the request is refused;
      otherwise the report of the requested window. */
  method GetMetrics(session: Option<Session>, pricing: seq<ModelPricing>, executions: seq<Execution>,
                    leads: seq<Lead>, faqs: seq<Faq>, from: Option<int>, to: Option<int>,
                    offset: int, clock: Clock) returns (r: Result<Report>)
    ensures session.None? ==> r == Err(Unauthorized)
    ensures session.Some? ==> var (start, end) := ReportWindow(from, to, offset, clock);
      r == Ok(MetricsReport(pricing, executions, leads, faqs, start, end, clock.todayStart))
  {
    if session.None? {
      return Err(Unauthorized);
    }
    var (start, end) := ReportWindow(from, to, offset, clock);
    var (ps, pe) := PreviousWindow(start, end);
    var pm := BuildPricingMap(pricing);
    var current := ExecutionsIn(executions, start, end);
    var totalCost := ComputeTotalCost(current, pm);
    var successCount := |Filter(current, IsSuccess)|;
    var errorCount := |Filter(current, IsError)|;
    var totalTokens := ComputeTotalTokens(current);
    var modelMap := BuildModelMap(current);
    var leadsToday := LeadsSince(leads, clock.todayStart);
    var prevTotalCost := ComputeTotalCost(ExecutionsIn(executions, ps, pe), pm);
    var currentLeads := LeadsIn(leads, start, end);
    var prevLeads := LeadsIn(leads, ps, pe);
    var topMap := BuildTopMap(FaqsIn(faqs, start, end));
    var timelineMap := BuildTimeline(current, CostOf(pm));
    var agentMap := BuildAgentMap(current, CostOf(pm));
    r := Ok(Report(
      totalCost,
      PercentChange(totalCost, prevTotalCost),
      |current|,
      SuccessRate(|current|, successCount),
      successCount,
      errorCount,
      totalTokens,
      currentLeads,
      PercentChange(currentLeads as real, prevLeads as real),
      leadsToday,
      ActiveAgentsCount(current),
      Take(SortDesc(Values(topMap), FaqFrequency), TopCount),
      SortDesc(Values(timelineMap), NegDate),
      SortDesc(Values(agentMap), AgentCount),
      Values(modelMap)));
  }

  /** The counts of the report agree with each other: successes and errors
      split the executions, the rate is a percentage, there are no more
      agents than executions, and the timeline, the per-agent breakdown and
      the model distribution each add up to the totals. */
  lemma ReportCounts(pricing: seq<ModelPricing>, executions: seq<Execution>, leads: seq<Lead>,
                     faqs: seq<Faq>, start: int, end: int, todayStart: int)
    ensures var r := MetricsReport(pricing, executions, leads, faqs, start, end, todayStart);
      && r.successCount + r.errorCount == r.totalExecutions
      && 0.0 <= r.successRate <= 100.0
      && r.activeAgentsCount <= r.totalExecutions
      && IntSumOf(r.timeline, DayCount) == r.totalExecutions
      && IntSumOf(r.timeline, DaySuccesses) == r.successCount
      && IntSumOf(r.timeline, DayErrors) == r.errorCount
      && IntSumOf(r.executionsByAgent, AgentCount) == r.totalExecutions
      && IntSumOf(r.modelDistribution, ModelCountOf) == r.totalExecutions
      && |r.topFaqs| <= TopCount
  {
    var pm := PricingMapOf(pricing);
    var cur := ExecutionsIn(executions, start, end);
    StatusPartition(cur);
    SuccessRateBounds(|cur|, |Filter(cur, IsSuccess)|);
    ActiveAgentsBounds(cur);
    TimelineCountSums(cur, CostOf(pm));
    TimelineStatusSums(cur, CostOf(pm));
    AgentCountSum(cur, CostOf(pm));
    ModelEntries(cur);
    TopFaqsOrder(FaqsIn(faqs, start, end));
  }

  /** The money figures agree: the timeline and the per-agent breakdown add
      up to `totalCost`, the timeline's tokens to `totalTokens`, and with
      non-negative prices and token counts the cost is non-negative and
      cannot have fallen by more than 100%. */
  lemma ReportCosts(pricing: seq<ModelPricing>, executions: seq<Execution>, leads: seq<Lead>,
                    faqs: seq<Faq>, start: int, end: int, todayStart: int)
    ensures var r := MetricsReport(pricing, executions, leads, faqs, start, end, todayStart);
      && SumOf(r.timeline, DayCost) == r.totalCost
      && SumOf(r.executionsByAgent, AgentCost) == r.totalCost
      && IntSumOf(r.timeline, DayTokens) == r.totalTokens
    ensures NonNegativePrices(PricingMapOf(pricing)) &&
            (forall i :: 0 <= i < |executions| ==>
               executions[i].inputTokens >= 0 && executions[i].outputTokens >= 0 && executions[i].totalTokens >= 0)
            ==> var r := MetricsReport(pricing, executions, leads, faqs, start, end, todayStart);
                r.totalCost >= 0.0 && r.costChange >= -100.0
  {
    var pm := PricingMapOf(pricing);
    var cur := ExecutionsIn(executions, start, end);
    TimelineCostSum(cur, CostOf(pm));
    TimelineCountSums(cur, CostOf(pm));
    AgentCostSum(cur, CostOf(pm));
    if NonNegativePrices(pm) &&
       (forall i :: 0 <= i < |executions| ==>
          executions[i].inputTokens >= 0 && executions[i].outputTokens >= 0 && executions[i].totalTokens >= 0) {
      TotalCostNonNegative(cur, pm);
      var (ps, pe) := PreviousWindow(start, end);
      PercentChangeMeaning(TotalCost(cur, pm), TotalCost(ExecutionsIn(executions, ps, pe), pm));
    }
  }

  /** A window without executions reports zero executions, a zero success
      rate and cost, no active agents, and empty breakdowns. */
  lemma EmptyWindow(pricing: seq<ModelPricing>, executions: seq<Execution>, leads: seq<Lead>,
                    faqs: seq<Faq>, start: int, end: int, todayStart: int)
    requires forall i :: 0 <= i < |executions| ==> !Within(executions[i].startedAt, start, end)
    ensures var r := MetricsReport(pricing, executions, leads, faqs, start, end, todayStart);
      && r.totalExecutions == 0 && r.successRate == 0.0 && r.totalCost == 0.0
      && r.activeAgentsCount == 0
      && r.timeline == [] && r.executionsByAgent == [] && r.modelDistribution == []
  {
    FilterNone(executions, (e: Execution) => Within(e.startedAt, start, end));
  }
}
