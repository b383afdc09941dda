/** The cost estimator shared by the metrics and execution-listing handlers:
    the pricing table is turned into a map keyed by lower-cased model name,
    and an execution's cost is its recorded cost when positive, otherwise
    an estimate from its token counts and its model's prices. */
module Cost {
  import opened Common
  import opened Text
  import opened Records
  import opened Seqs

  /** Dollars per million input and output tokens. */
  datatype Price = Price(input: real, output: real)

  type PricingMap = map<string, Price>

  /** The model whose prices stand in for a model without a pricing row. */
  const DefaultModel: string := "gpt-4o-mini"

  /** The prices used when not even the default model has a row. */
  const FallbackPrice: Price := Price(0.15, 0.6)

  /** The key a missing model is looked up under: the metrics handler uses
      the default model, the execution listing the empty string. */
  const MetricsMissingKey: string := DefaultModel
  const ListingMissingKey: string := ""

  const Million: real := 1000000.0

  function PriceOf(row: ModelPricing): Price {
    Price(row.inputPricePer1m, row.outputPricePer1m)
  }

  /** A pricing row is filed under its lower-cased model name. */
  function PricingKey(row: ModelPricing): string {
    ToLower(row.modelName)
  }

  /** The pricing map after the reduce over `rows`: later rows overwrite
      earlier ones under the same lower-cased name. */
  function PricingMapOf(rows: seq<ModelPricing>): PricingMap {
    MapOf(rows, PricingKey, PriceOf)
  }

  /** The reduce that builds the pricing map, one row at a time. */
  method BuildPricingMap(rows: seq<ModelPricing>) returns (m: PricingMap)
    ensures m == PricingMapOf(rows)
  {
    m := map[];
    for i := 0 to |rows|
      invariant m == PricingMapOf(rows[..i])
    {
      assert rows[..i + 1][..i] == rows[..i];
      m := m[ToLower(rows[i].modelName) := Price(rows[i].inputPricePer1m, rows[i].outputPricePer1m)];
    }
    assert rows[..|rows|] == rows;
  }

  /** Row `i` is the last row whose lower-cased name is `k`. */
  ghost predicate LastRowFor(rows: seq<ModelPricing>, k: string, i: int) {
    LastWith(rows, PricingKey, k, i)
  }

  /** The pricing map is a case-insensitive index of the table: a key is
      present exactly when some row's name lower-cases to it, and it holds
      the prices of the last such row. */
  lemma PricingMapLookup(rows: seq<ModelPricing>, k: string)
    ensures k in PricingMapOf(rows) <==> exists i :: 0 <= i < |rows| && ToLower(rows[i].modelName) == k
    ensures forall i :: LastRowFor(rows, k, i) ==> k in PricingMapOf(rows) && PricingMapOf(rows)[k] == PriceOf(rows[i])
  {
    MapOfLookup(rows, PricingKey, PriceOf, k);
  }

  /** `exec.modelUsed?.toLowerCase() || missingKey`. */
  function ModelKey(model: Option<string>, missingKey: string): string {
    if model.Some? && ToLower(model.value) != "" then ToLower(model.value) else missingKey
  }

  /** `pricingMap[key] || pricingMap['gpt-4o-mini'] || { input: 0.15, output: 0.6 }`. */
  function ResolvePrice(pm: PricingMap, key: string): Price {
    if key in pm then pm[key]
    else if DefaultModel in pm then pm[DefaultModel]
    else FallbackPrice
  }

  /** The dollar cost of `input` and `output` tokens at price `p`. */
  function TokenCost(input: real, output: real, p: Price): real {
    input * (p.input / Million) + output * (p.output / Million)
  }

  /** `calculateExecCost`. */
  function ExecCost(e: Execution, pm: PricingMap, missingKey: string): real {
    if e.costUsd > 0.0 then e.costUsd
    else
      var p := ResolvePrice(pm, ModelKey(e.modelUsed, missingKey));
      if e.inputTokens != 0 && e.outputTokens != 0 then
        TokenCost(e.inputTokens as real, e.outputTokens as real, p)
      else if e.totalTokens != 0 then
        TokenCost(e.totalTokens as real * 0.7, e.totalTokens as real * 0.3, p)
      else 0.0
  }

  /** A recorded positive cost is authoritative, whatever the pricing. */
  lemma RecordedCostWins(e: Execution, pm: PricingMap, missingKey: string)
    requires e.costUsd > 0.0
    ensures ExecCost(e, pm, missingKey) == e.costUsd
  {
  }

  /** Without a positive recorded cost the estimate does not depend on the
      recorded value: null, zero and negative costs are estimated alike. */
  lemma EstimateIgnoresRecorded(e: Execution, pm: PricingMap, missingKey: string)
    requires e.costUsd <= 0.0
    ensures ExecCost(e, pm, missingKey) == ExecCost(e.(costUsd := 0.0), pm, missingKey)
  {
  }

  /** `p` is the price the table charges for model key `key`: the prices of
      the last row named (case-insensitively) `key`; with no such row, those
      of the last row named like the default model; with neither, the
      fallback pair. */
  ghost predicate ChargedAt(rows: seq<ModelPricing>, key: string, p: Price) {
    || (exists i :: LastRowFor(rows, key, i) && p == PriceOf(rows[i]))
    || ((forall i :: 0 <= i < |rows| ==> PricingKey(rows[i]) != key) &&
        exists i :: LastRowFor(rows, DefaultModel, i) && p == PriceOf(rows[i]))
    || ((forall i :: 0 <= i < |rows| ==> PricingKey(rows[i]) != key && PricingKey(rows[i]) != DefaultModel) &&
        p == FallbackPrice)
  }

  /** Without a recorded cost, the estimate is priced at the table's price
      for the execution's model and follows the token branches: both counts
      at their own rates, else the total split 70/30, else nothing. */
  lemma EstimateBranches(e: Execution, rows: seq<ModelPricing>, missingKey: string, p: Price)
    requires e.costUsd <= 0.0
    requires ChargedAt(rows, ModelKey(e.modelUsed, missingKey), p)
    ensures e.inputTokens != 0 && e.outputTokens != 0 ==>
      ExecCost(e, PricingMapOf(rows), missingKey) ==
        e.inputTokens as real * p.input / Million + e.outputTokens as real * p.output / Million
    ensures !(e.inputTokens != 0 && e.outputTokens != 0) && e.totalTokens != 0 ==>
      ExecCost(e, PricingMapOf(rows), missingKey) ==
        0.7 * e.totalTokens as real * p.input / Million + 0.3 * e.totalTokens as real * p.output / Million
    ensures !(e.inputTokens != 0 && e.outputTokens != 0) && e.totalTokens == 0 ==>
      ExecCost(e, PricingMapOf(rows), missingKey) == 0.0
  {
    ChargedIsResolved(rows, ModelKey(e.modelUsed, missingKey), p);
    if e.inputTokens != 0 && e.outputTokens != 0 {
      PerMillion(e.inputTokens as real, e.outputTokens as real, p);
    } else if e.totalTokens != 0 {
      PerMillion(e.totalTokens as real * 0.7, e.totalTokens as real * 0.3, p);
    }
  }

  /** The price the estimator looks up is the one the table charges. */
  lemma ChargedIsResolved(rows: seq<ModelPricing>, key: string, p: Price)
    requires ChargedAt(rows, key, p)
    ensures ResolvePrice(PricingMapOf(rows), key) == p
  {
    PricingMapLookup(rows, key);
    PricingMapLookup(rows, DefaultModel);
  }

  lemma PerMillion(input: real, output: real, p: Price)
    ensures TokenCost(input, output, p) == input * p.input / Million + output * p.output / Million
  {
  }

  /** The price an execution is charged at, stated against the pricing
      table: the last row named (case-insensitively) like its model, else the
      last row named like the default model, else the fallback pair. */
  lemma {:induction false} PriceResolution(rows: seq<ModelPricing>, model: Option<string>, missingKey: string)
    ensures var key := ModelKey(model, missingKey);
      var p := ResolvePrice(PricingMapOf(rows), key);
      && (forall i :: LastRowFor(rows, key, i) ==> p == PriceOf(rows[i]))
      && ((forall i :: 0 <= i < |rows| ==> ToLower(rows[i].modelName) != key) ==>
            (forall i :: LastRowFor(rows, DefaultModel, i) ==> p == PriceOf(rows[i])))
      && ((forall i :: 0 <= i < |rows| ==> ToLower(rows[i].modelName) != key && ToLower(rows[i].modelName) != DefaultModel) ==>
            p == FallbackPrice)
  {
    PricingMapLookup(rows, ModelKey(model, missingKey));
    PricingMapLookup(rows, DefaultModel);
  }

  /** Every price in the map is non-negative. */
  ghost predicate NonNegativePrices(pm: PricingMap) {
    forall k :: k in pm ==> pm[k].input >= 0.0 && pm[k].output >= 0.0
  }

  lemma TokenCostNonNegative(input: real, output: real, p: Price)
    requires input >= 0.0 && output >= 0.0 && p.input >= 0.0 && p.output >= 0.0
    ensures TokenCost(input, output, p) >= 0.0
  {
    assert input * (p.input / Million) >= 0.0;
    assert output * (p.output / Million) >= 0.0;
  }

  /** The estimator never returns a negative cost when token counts and
      prices are non-negative, whatever cost was recorded. */
  lemma CostNonNegative(e: Execution, pm: PricingMap, missingKey: string)
    requires NonNegativePrices(pm)
    requires e.inputTokens >= 0 && e.outputTokens >= 0 && e.totalTokens >= 0
    ensures ExecCost(e, pm, missingKey) >= 0.0
  {
    var p := ResolvePrice(pm, ModelKey(e.modelUsed, missingKey));
    if e.inputTokens != 0 && e.outputTokens != 0 {
      TokenCostNonNegative(e.inputTokens as real, e.outputTokens as real, p);
    } else if e.totalTokens != 0 {
      TokenCostNonNegative(e.totalTokens as real * 0.7, e.totalTokens as real * 0.3, p);
    }
  }

  /** The two copies of the estimator differ only in the key a missing model
      is looked up under; unless some pricing row has an empty name they
      charge every execution the same. */
  lemma {:induction false} EstimatorsAgree(rows: seq<ModelPricing>, e: Execution)
    requires forall i :: 0 <= i < |rows| ==> rows[i].modelName != ""
    ensures ExecCost(e, PricingMapOf(rows), ListingMissingKey) == ExecCost(e, PricingMapOf(rows), MetricsMissingKey)
  {
    PricingMapLookup(rows, "");
    assert "" !in PricingMapOf(rows) by {
      forall i | 0 <= i < |rows| ensures ToLower(rows[i].modelName) != "" {
        assert |ToLower(rows[i].modelName)| == |rows[i].modelName|;
      }
    }
  }

  /** An execution with one million tokens each way on a model priced at $1
      and $2 per million costs exactly $3; with one million tokens in total
      and no split it costs 0.7 * 1 + 0.3 * 2 = $1.3. */
  lemma WorkedExamples(e: Execution, rows: seq<ModelPricing>)
    requires e.costUsd == 0.0 && e.modelUsed == Some("m1")
    requires rows == [ModelPricing("m1", "OpenAI", 1.0, 2.0)]
    ensures e.inputTokens == 1000000 && e.outputTokens == 1000000 ==>
      ExecCost(e, PricingMapOf(rows), MetricsMissingKey) == 3.0
    ensures e.inputTokens == 0 && e.outputTokens == 0 && e.totalTokens == 1000000 ==>
      ExecCost(e, PricingMapOf(rows), MetricsMissingKey) == 1.3
  {
    assert PricingKey(rows[0]) == "m1" by {
      ToLowerChars("m1");
    }
    assert PricingMapOf(rows) == map["m1" := Price(1.0, 2.0)] by {
      assert rows[..0] == [];
      assert MapOf(rows, PricingKey, PriceOf) == MapOf(rows[..0], PricingKey, PriceOf)[PricingKey(rows[0]) := PriceOf(rows[0])];
    }
  }

  /** With an empty pricing table every model is charged the fallback pair. */
  lemma FallbackWhenTableEmpty(e: Execution, missingKey: string)
    requires e.costUsd <= 0.0
    ensures ExecCost(e, PricingMapOf([]), missingKey) ==
      if e.inputTokens != 0 && e.outputTokens != 0 then e.inputTokens as real * 0.15 / Million + e.outputTokens as real * 0.6 / Million
      else if e.totalTokens != 0 then e.totalTokens as real * (0.7 * 0.15 + 0.3 * 0.6) / Million
      else 0.0
  {
  }
}
