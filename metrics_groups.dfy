/** The three breakdowns of the metrics dashboard, each built by a `reduce`
    that updates dictionary entries in place: the per-day timeline, the
    per-agent breakdown and the model distribution. Each is proved to be a
    group-by, with per-entry closed forms and totals that match the scalar
    figures. */
module MetricsGroups {
  import opened Common
  import opened Text
  import opened Seqs
  import opened Grouping
  import opened Records
  import opened Cost
  import opened Time
  import opened MetricsTotals

  // ---------------------------------------------------------------- timeline

  /** One timeline entry. `date` is the UTC day number, whose order is the
      order of the `YYYY-MM-DD` strings the source compares. */
  datatype DayStats = DayStats(date: int, totalCost: real, totalCount: int, successCount: int,
                               errorCount: int, totalTokens: int)

  function DayKey(e: Execution): int {
    UtcDay(e.startedAt)
  }

  function NewDay(e: Execution): DayStats {
    DayStats(DayKey(e), 0.0, 0, 0, 0, 0)
  }

  /** Folds one execution into its day: cost, count and tokens grow, and
      either the success or the error count (anything not a success is an
      error here). */
  function AddToDay(d: DayStats, e: Execution, cost: Execution -> real): DayStats {
    DayStats(d.date, d.totalCost + cost(e), d.totalCount + 1,
             d.successCount + (if e.status == Success then 1 else 0),
             d.errorCount + (if e.status == Success then 0 else 1),
             d.totalTokens + ExecTokens(e))
  }

  function DayAdder(cost: Execution -> real): (DayStats, Execution) -> DayStats {
    (d: DayStats, e: Execution) => AddToDay(d, e, cost)
  }

  /** The timeline dictionary after the `reduce`. */
  function TimelineMap(s: seq<Execution>, cost: Execution -> real): seq<Slot<int, DayStats>> {
    GroupFold(s, DayKey, NewDay, DayAdder(cost))
  }

  /** The `reduce` that builds the timeline, updating the day's entry in place. */
  method BuildTimeline(s: seq<Execution>, cost: Execution -> real) returns (acc: seq<Slot<int, DayStats>>)
    ensures acc == TimelineMap(s, cost)
  {
    acc := [];
    for i := 0 to |s|
      invariant acc == TimelineMap(s[..i], cost)
    {
      assert s[..i + 1][..i] == s[..i];
      acc := AddToTimeline(acc, s[i], cost);
    }
    assert s[..|s|] == s;
  }

  /** The timeline `reduce` callback: the execution's day is found, or
      started with zero totals, and the execution is added to it in place. */
  method AddToTimeline(acc: seq<Slot<int, DayStats>>, e: Execution, cost: Execution -> real)
    returns (r: seq<Slot<int, DayStats>>)
    ensures r == GroupStep(acc, e, DayKey, NewDay, DayAdder(cost))
  {
    var day := UtcDay(e.startedAt);
    var j: nat;
    r := acc;
    match Find(acc, day) {
      case Some(k) => j := k;
      case None =>
        r := acc + [Slot(day, DayStats(day, 0.0, 0, 0, 0, 0))];
        j := |r| - 1;
    }
    GroupStepInPlace(acc, e, DayKey, NewDay, DayAdder(cost), r, j);
    var d := r[j].val;
    var c := cost(e);
    var tokens := if e.totalTokens > 0 then e.totalTokens else e.inputTokens + e.outputTokens;
    d := d.(totalCost := d.totalCost + c, totalCount := d.totalCount + 1);
    d := d.(totalTokens := d.totalTokens + tokens);
    if e.status == Success {
      d := d.(successCount := d.successCount + 1);
    } else {
      d := d.(errorCount := d.errorCount + 1);
    }
    assert d == DayAdder(cost)(r[j].val, e);
    r := r[j := Slot(day, d)];
  }

  /** `d` is the entry of its day: the cost, count, status counts and
      tokens of exactly the executions of that day. */
  ghost predicate DayEntry(s: seq<Execution>, cost: Execution -> real, d: DayStats) {
    var ms := Members(s, DayKey, d.date);
    && |ms| > 0
    && d == DayStats(d.date, SumOf(ms, cost), |ms|, |Filter(ms, IsSuccess)|, |Filter(ms, IsError)|, TotalTokens(ms))
  }

  /** A day entry, computed from the executions of that day alone. */
  lemma {:induction false} DayClosedForm(ms: seq<Execution>, cost: Execution -> real)
    requires |ms| > 0
    requires forall i :: 0 <= i < |ms| ==> DayKey(ms[i]) == DayKey(ms[0])
    ensures FoldOf(ms, NewDay, DayAdder(cost)) ==
      DayStats(DayKey(ms[0]), SumOf(ms, cost), |ms|, |Filter(ms, IsSuccess)|, |Filter(ms, IsError)|, TotalTokens(ms))
  {
    var n := |ms| - 1;
    if n > 0 {
      DayClosedForm(ms[..n], cost);
    } else {
      var x := ms[0];
      assert ms[..0] == [];
      assert SumOf(ms, cost) == SumOf(ms[..0], cost) + cost(x);
      assert IntSumOf(ms, ExecTokens) == IntSumOf(ms[..0], ExecTokens) + ExecTokens(x);
      assert |Filter(ms, IsSuccess)| == if IsSuccess(x) then 1 else 0;
      assert |Filter(ms, IsError)| == if IsError(x) then 1 else 0;
    }
  }

  /** The timeline dictionary is a group-by on the UTC day: one entry per
      day, stored under its own date, holding that day's figures. */
  lemma TimelineMapEntries(s: seq<Execution>, cost: Execution -> real)
    ensures var g := TimelineMap(s, cost);
      && DistinctKeys(g)
      && KeySet(g) == KeysOf(s, DayKey)
      && forall p :: 0 <= p < |g| ==> g[p].val.date == g[p].key && DayEntry(s, cost, g[p].val)
  {
    var g := TimelineMap(s, cost);
    GroupFoldShape(s, DayKey, NewDay, DayAdder(cost));
    forall p | 0 <= p < |g| ensures g[p].val.date == g[p].key && DayEntry(s, cost, g[p].val) {
      DayClosedForm(Members(s, DayKey, g[p].key), cost);
    }
  }

  /** The timeline, sorted by ascending date. */
  function NegDate(d: DayStats): int {
    -d.date
  }

  function Timeline(s: seq<Execution>, cost: Execution -> real): seq<DayStats> {
    SortDesc(Values(TimelineMap(s, cost)), NegDate)
  }

  /** The timeline lists each day once, in strictly ascending order. */
  lemma TimelineOrder(s: seq<Execution>, cost: Execution -> real)
    ensures var t := Timeline(s, cost);
      && (forall i, j :: 0 <= i < j < |t| ==> t[i].date < t[j].date)
      && |t| == |KeysOf(s, DayKey)|
  {
    var g := TimelineMap(s, cost);
    var vs := Values(g);
    var t := Timeline(s, cost);
    TimelineMapEntries(s, cost);
    assert DistinctBy(vs, NegDate);
    DistinctByPermutation(vs, t, NegDate);
    SortedDistinct(t, NegDate);
    DistinctKeysSize(g);
  }

  /** The timeline has one entry per distinct day of the executions, in
      strictly ascending order of date; each entry holds the figures of
      exactly the executions of its day, so its success and error counts add
      up to its count. */
  lemma TimelineEntries(s: seq<Execution>, cost: Execution -> real)
    ensures var t := Timeline(s, cost);
      && (forall i, j :: 0 <= i < j < |t| ==> t[i].date < t[j].date)
      && |t| == |KeysOf(s, DayKey)|
      && forall i :: 0 <= i < |t| ==>
           && t[i].date in KeysOf(s, DayKey)
           && DayEntry(s, cost, t[i])
           && t[i].successCount + t[i].errorCount == t[i].totalCount
  {
    var g := TimelineMap(s, cost);
    var vs := Values(g);
    var t := Timeline(s, cost);
    TimelineOrder(s, cost);
    TimelineMapEntries(s, cost);
    PermutedValues(g, t);
    forall i | 0 <= i < |t|
      ensures t[i].date in KeysOf(s, DayKey) && DayEntry(s, cost, t[i])
      ensures t[i].successCount + t[i].errorCount == t[i].totalCount
    {
      var p :| 0 <= p < |vs| && vs[p] == t[i];
      assert g[p].key in KeySet(g);
      StatusPartition(Members(s, DayKey, t[i].date));
    }
  }

  function DayCost(d: DayStats): real { d.totalCost }
  function DayCount(d: DayStats): int { d.totalCount }
  function DaySuccesses(d: DayStats): int { d.successCount }
  function DayErrors(d: DayStats): int { d.errorCount }
  function DayTokens(d: DayStats): int { d.totalTokens }

  function SuccessOne(e: Execution): int {
    if e.status == Success then 1 else 0
  }

  function ErrorOne(e: Execution): int {
    if e.status == Error then 1 else 0
  }

  /** The timeline's costs add up to `totalCost`. */
  lemma TimelineCostSum(s: seq<Execution>, cost: Execution -> real)
    ensures SumOf(Timeline(s, cost), DayCost) == SumOf(s, cost)
  {
    GroupValuesSum(s, DayKey, NewDay, DayAdder(cost), DayCost, cost, Timeline(s, cost));
  }

  /** The timeline's counts add up to `totalExecutions` and its tokens to
      `totalTokens`. */
  lemma TimelineCountSums(s: seq<Execution>, cost: Execution -> real)
    ensures IntSumOf(Timeline(s, cost), DayCount) == |s|
    ensures IntSumOf(Timeline(s, cost), DayTokens) == TotalTokens(s)
  {
    GroupValuesIntSum(s, DayKey, NewDay, DayAdder(cost), DayCount, One, Timeline(s, cost));
    IntSumOfOne(s);
    GroupValuesIntSum(s, DayKey, NewDay, DayAdder(cost), DayTokens, ExecTokens, Timeline(s, cost));
  }

  /** The timeline's success and error counts add up to `successCount` and
      `errorCount`. */
  lemma TimelineStatusSums(s: seq<Execution>, cost: Execution -> real)
    ensures IntSumOf(Timeline(s, cost), DaySuccesses) == |Filter(s, IsSuccess)|
    ensures IntSumOf(Timeline(s, cost), DayErrors) == |Filter(s, IsError)|
  {
    GroupValuesIntSum(s, DayKey, NewDay, DayAdder(cost), DaySuccesses, SuccessOne, Timeline(s, cost));
    CountAsSum(s, IsSuccess, SuccessOne);
    GroupValuesIntSum(s, DayKey, NewDay, DayAdder(cost), DayErrors, ErrorOne, Timeline(s, cost));
    CountAsSum(s, IsError, ErrorOne);
  }

  // ---------------------------------------------------------------- agents

  /** One entry of `executionsByAgent`. */
  datatype AgentStats = AgentStats(agentName: string, count: int, totalCost: real)

  /** `exec.agentName || 'Unknown'`. */
  function AgentLabel(e: Execution): string {
    if Present(e.agentName) then e.agentName.value else "Unknown"
  }

  function NewAgent(e: Execution): AgentStats {
    AgentStats(AgentLabel(e), 0, 0.0)
  }

  function AddToAgent(a: AgentStats, e: Execution, cost: Execution -> real): AgentStats {
    a.(count := a.count + 1, totalCost := a.totalCost + cost(e))
  }

  function AgentAdder(cost: Execution -> real): (AgentStats, Execution) -> AgentStats {
    (a: AgentStats, e: Execution) => AddToAgent(a, e, cost)
  }

  function AgentMap(s: seq<Execution>, cost: Execution -> real): seq<Slot<string, AgentStats>> {
    GroupFold(s, AgentLabel, NewAgent, AgentAdder(cost))
  }

  /** The `reduce` that builds the per-agent dictionary. */
  method BuildAgentMap(s: seq<Execution>, cost: Execution -> real) returns (acc: seq<Slot<string, AgentStats>>)
    ensures acc == AgentMap(s, cost)
  {
    acc := [];
    for i := 0 to |s|
      invariant acc == AgentMap(s[..i], cost)
    {
      assert s[..i + 1][..i] == s[..i];
      acc := AddToAgentMap(acc, s[i], cost);
    }
    assert s[..|s|] == s;
  }

  /** The per-agent `reduce` callback. */
  method AddToAgentMap(acc: seq<Slot<string, AgentStats>>, e: Execution, cost: Execution -> real)
    returns (r: seq<Slot<string, AgentStats>>)
    ensures r == GroupStep(acc, e, AgentLabel, NewAgent, AgentAdder(cost))
  {
    var name := if e.agentName.Some? && e.agentName.value != "" then e.agentName.value else "Unknown";
    var j: nat;
    r := acc;
    match Find(acc, name) {
      case Some(k) => j := k;
      case None =>
        r := acc + [Slot(name, AgentStats(name, 0, 0.0))];
        j := |r| - 1;
    }
    GroupStepInPlace(acc, e, AgentLabel, NewAgent, AgentAdder(cost), r, j);
    var a := r[j].val;
    a := a.(count := a.count + 1);
    a := a.(totalCost := a.totalCost + cost(e));
    assert a == AgentAdder(cost)(r[j].val, e);
    r := r[j := Slot(name, a)];
  }

  lemma {:induction false} AgentClosedForm(ms: seq<Execution>, cost: Execution -> real)
    requires |ms| > 0
    ensures FoldOf(ms, NewAgent, AgentAdder(cost)) == AgentStats(AgentLabel(ms[0]), |ms|, SumOf(ms, cost))
  {
    var n := |ms| - 1;
    if n > 0 {
      AgentClosedForm(ms[..n], cost);
    } else {
      assert ms[..0] == [];
      assert SumOf(ms, cost) == SumOf(ms[..0], cost) + cost(ms[0]);
    }
  }

  function AgentCount(a: AgentStats): int {
    a.count
  }

  function AgentName(a: AgentStats): string {
    a.agentName
  }

  function AgentCost(a: AgentStats): real {
    a.totalCost
  }

  /** `a` is the entry of its label: the count and cost of exactly the
      executions with that label. */
  ghost predicate AgentEntry(s: seq<Execution>, cost: Execution -> real, a: AgentStats) {
    var ms := Members(s, AgentLabel, a.agentName);
    |ms| > 0 && a == AgentStats(a.agentName, |ms|, SumOf(ms, cost))
  }

  /** The per-agent dictionary is a group-by on the agent label. */
  lemma AgentMapEntries(s: seq<Execution>, cost: Execution -> real)
    ensures var g := AgentMap(s, cost);
      && DistinctKeys(g)
      && KeySet(g) == KeysOf(s, AgentLabel)
      && forall p :: 0 <= p < |g| ==> g[p].val.agentName == g[p].key && AgentEntry(s, cost, g[p].val)
  {
    var g := AgentMap(s, cost);
    GroupFoldShape(s, AgentLabel, NewAgent, AgentAdder(cost));
    forall p | 0 <= p < |g| ensures g[p].val.agentName == g[p].key && AgentEntry(s, cost, g[p].val) {
      AgentClosedForm(Members(s, AgentLabel, g[p].key), cost);
    }
  }

  /** `executionsByAgent`: sorted by descending count. */
  function ExecutionsByAgent(s: seq<Execution>, cost: Execution -> real): seq<AgentStats> {
    SortDesc(Values(AgentMap(s, cost)), AgentCount)
  }

  /** One entry per agent label (`'Unknown'` standing for a missing name), in
      descending order of count; each entry holds the count and cost of
      exactly the executions with its label. */
  lemma AgentEntries(s: seq<Execution>, cost: Execution -> real)
    ensures var t := ExecutionsByAgent(s, cost);
      && SortedDesc(t, AgentCount)
      && DistinctBy(t, AgentName)
      && |t| == |KeysOf(s, AgentLabel)|
      && forall i :: 0 <= i < |t| ==> t[i].agentName in KeysOf(s, AgentLabel) && AgentEntry(s, cost, t[i])
  {
    var g := AgentMap(s, cost);
    var vs := Values(g);
    var t := ExecutionsByAgent(s, cost);
    AgentMapEntries(s, cost);
    assert DistinctBy(vs, AgentName);
    DistinctByPermutation(vs, t, AgentName);
    PermutedValues(g, t);
    forall i | 0 <= i < |t| ensures t[i].agentName in KeysOf(s, AgentLabel) && AgentEntry(s, cost, t[i]) {
      var p :| 0 <= p < |vs| && vs[p] == t[i];
      assert g[p].key in KeySet(g);
    }
    DistinctKeysSize(g);
  }

  /** The per-agent counts add up to the number of executions. */
  lemma AgentCountSum(s: seq<Execution>, cost: Execution -> real)
    ensures IntSumOf(ExecutionsByAgent(s, cost), AgentCount) == |s|
  {
    GroupValuesIntSum(s, AgentLabel, NewAgent, AgentAdder(cost), AgentCount, One, ExecutionsByAgent(s, cost));
    IntSumOfOne(s);
  }

  /** The per-agent costs add up to `totalCost`. */
  lemma AgentCostSum(s: seq<Execution>, cost: Execution -> real)
    ensures SumOf(ExecutionsByAgent(s, cost), AgentCost) == SumOf(s, cost)
  {
    GroupValuesSum(s, AgentLabel, NewAgent, AgentAdder(cost), AgentCost, cost, ExecutionsByAgent(s, cost));
  }

  // ---------------------------------------------------------------- models

  /** One entry of `modelDistribution`. */
  datatype ModelCount = ModelCount(name: string, count: int)

  /** `exec.modelUsed || 'Unknown'`. */
  function ModelLabel(e: Execution): string {
    if Present(e.modelUsed) then e.modelUsed.value else "Unknown"
  }

  function NewModel(e: Execution): ModelCount {
    ModelCount(ModelLabel(e), 0)
  }

  function AddToModel(m: ModelCount, e: Execution): ModelCount {
    m.(count := m.count + 1)
  }

  function ModelMap(s: seq<Execution>): seq<Slot<string, ModelCount>> {
    GroupFold(s, ModelLabel, NewModel, AddToModel)
  }

  method BuildModelMap(s: seq<Execution>) returns (acc: seq<Slot<string, ModelCount>>)
    ensures acc == ModelMap(s)
  {
    acc := [];
    for i := 0 to |s|
      invariant acc == ModelMap(s[..i])
    {
      assert s[..i + 1][..i] == s[..i];
      acc := AddToModelMap(acc, s[i]);
    }
    assert s[..|s|] == s;
  }

  /** The model-distribution `reduce` callback. */
  method AddToModelMap(acc: seq<Slot<string, ModelCount>>, e: Execution) returns (r: seq<Slot<string, ModelCount>>)
    ensures r == GroupStep(acc, e, ModelLabel, NewModel, AddToModel)
  {
    var model := if e.modelUsed.Some? && e.modelUsed.value != "" then e.modelUsed.value else "Unknown";
    var j: nat;
    r := acc;
    match Find(acc, model) {
      case Some(k) => j := k;
      case None =>
        r := acc + [Slot(model, ModelCount(model, 0))];
        j := |r| - 1;
    }
    GroupStepInPlace(acc, e, ModelLabel, NewModel, AddToModel, r, j);
    r := r[j := Slot(model, r[j].val.(count := r[j].val.count + 1))];
  }

  lemma {:induction false} ModelClosedForm(ms: seq<Execution>)
    requires |ms| > 0
    ensures FoldOf(ms, NewModel, AddToModel) == ModelCount(ModelLabel(ms[0]), |ms|)
  {
    var n := |ms| - 1;
    if n > 0 {
      ModelClosedForm(ms[..n]);
    }
  }

  function ModelCountOf(m: ModelCount): int {
    m.count
  }

  /** `modelDistribution`: in order of first appearance. */
  function ModelDistribution(s: seq<Execution>): seq<ModelCount> {
    Values(ModelMap(s))
  }

  /** One entry per model label (`'Unknown'` standing for a missing model),
      each counting exactly the executions with that label; the counts add
      up to the number of executions. */
  lemma ModelEntries(s: seq<Execution>)
    ensures var t := ModelDistribution(s);
      && IntSumOf(t, ModelCountOf) == |s|
      && |t| == |KeysOf(s, ModelLabel)|
      && (forall i, j :: 0 <= i < j < |t| ==> t[i].name != t[j].name)
      && (forall i :: 0 <= i < |t| ==> t[i].name in KeysOf(s, ModelLabel))
      && forall i :: 0 <= i < |t| ==> t[i].count == |Members(s, ModelLabel, t[i].name)| > 0
  {
    var g := ModelMap(s);
    var t := ModelDistribution(s);
    GroupFoldShape(s, ModelLabel, NewModel, AddToModel);
    forall p | 0 <= p < |g|
      ensures g[p].val == ModelCount(g[p].key, |Members(s, ModelLabel, g[p].key)|)
    {
      ModelClosedForm(Members(s, ModelLabel, g[p].key));
    }
    forall i | 0 <= i < |t| ensures t[i].name in KeysOf(s, ModelLabel) {
      assert g[i].key in KeySet(g);
    }
    DistinctKeysSize(g);
    GroupValuesIntSum(s, ModelLabel, NewModel, AddToModel, ModelCountOf, One, t);
    IntSumOfOne(s);
  }
}
