/** The Top FAQs widget of the metrics dashboard: the FAQs of the window
    grouped by their trimmed, lower-cased question, with the frequencies
    summed, sorted by descending frequency and cut to five. */
module MetricsFaqs {
  import opened Text
  import opened Seqs
  import opened Grouping
  import opened Records

  /** The most entries the widget lists. */
  const TopCount: nat := 5

  /** `curr.question.trim().toLowerCase()`. */
  function TopKey(f: Faq): string {
    ToLower(Trim(f.question))
  }

  /** `{ ...curr, frequency: 0 }`: the group starts as a copy of its first row. */
  function NewTop(f: Faq): Faq {
    f.(frequency := 0)
  }

  /** `acc[key].frequency += (curr.frequency || 1)`. */
  function AddToTop(g: Faq, f: Faq): Faq {
    g.(frequency := g.frequency + EffectiveFrequency(f))
  }

  function TopMap(s: seq<Faq>): seq<Slot<string, Faq>> {
    GroupFold(s, TopKey, NewTop, AddToTop)
  }

  /** The `reduce` callback: the FAQ's group is found by its key, or started
      from the FAQ with frequency 0, and the FAQ's weight is added to it. */
  method AddToTopMap(acc: seq<Slot<string, Faq>>, f: Faq) returns (r: seq<Slot<string, Faq>>)
    ensures r == GroupStep(acc, f, TopKey, NewTop, AddToTop)
  {
    var key := TopKey(f);
    var j: nat;
    r := acc;
    match Find(acc, key) {
      case Some(k) => j := k;
      case None =>
        r := acc + [Slot(key, f.(frequency := 0))];
        j := |r| - 1;
    }
    GroupStepInPlace(acc, f, TopKey, NewTop, AddToTop, r, j);
    var g := r[j].val;
    g := g.(frequency := g.frequency + (if f.frequency != 0 then f.frequency else 1));
    r := r[j := Slot(key, g)];
  }

  /** The `reduce` that builds the FAQ groups. */
  method BuildTopMap(s: seq<Faq>) returns (acc: seq<Slot<string, Faq>>)
    ensures acc == TopMap(s)
  {
    acc := [];
    for i := 0 to |s|
      invariant acc == TopMap(s[..i])
    {
      assert s[..i + 1][..i] == s[..i];
      acc := AddToTopMap(acc, s[i]);
    }
    assert s[..|s|] == s;
  }

  /** A group is its first row with the summed weights of all its rows as
      frequency. */
  lemma {:induction false} TopClosedForm(ms: seq<Faq>)
    requires |ms| > 0
    ensures FoldOf(ms, NewTop, AddToTop) == ms[0].(frequency := IntSumOf(ms, EffectiveFrequency))
  {
    var n := |ms| - 1;
    if n > 0 {
      TopClosedForm(ms[..n]);
    } else {
      assert ms[..0] == [];
    }
  }

  /** `g` is the group of its key: the first row of the key with the summed
      weights of all rows of the key. */
  ghost predicate TopGroup(s: seq<Faq>, g: Faq) {
    var ms := Members(s, TopKey, TopKey(g));
    |ms| > 0 && g == ms[0].(frequency := IntSumOf(ms, EffectiveFrequency))
  }

  /** All groups, by descending frequency. */
  function RankedGroups(s: seq<Faq>): seq<Faq> {
    SortDesc(Values(TopMap(s)), FaqFrequency)
  }

  /** `topFaqs`. */
  function TopFaqs(s: seq<Faq>): seq<Faq> {
    Take(RankedGroups(s), TopCount)
  }

  /** The ranked groups: by descending frequency, no key twice, each the
      group of its key, one per key. */
  lemma RankedGroupsEntries(s: seq<Faq>)
    ensures var r := RankedGroups(s);
      && SortedDesc(r, FaqFrequency)
      && DistinctBy(r, TopKey)
      && |r| == |KeysOf(s, TopKey)|
      && multiset(r) == multiset(Values(TopMap(s)))
      && forall i :: 0 <= i < |r| ==> TopKey(r[i]) in KeysOf(s, TopKey) && TopGroup(s, r[i])
  {
    var r := RankedGroups(s);
    ReorderedGroups(s, TopKey, NewTop, AddToTop, TopKey, r);
    forall i | 0 <= i < |r| ensures TopGroup(s, r[i]) {
      TopClosedForm(Members(s, TopKey, TopKey(r[i])));
    }
  }

  /** At most five groups, by descending frequency, no key twice; fewer
      than five only when there are fewer groups. */
  lemma TopFaqsOrder(s: seq<Faq>)
    ensures var t := TopFaqs(s);
      && |t| <= TopCount
      && SortedDesc(t, FaqFrequency)
      && DistinctBy(t, TopKey)
      && (|t| < TopCount ==> |t| == |KeysOf(s, TopKey)|)
  {
    RankedGroupsEntries(s);
    TakeSorted(RankedGroups(s), FaqFrequency, TopKey, TopCount);
  }

  /** Each listed entry is the group of a key that occurs in the rows. */
  lemma TopFaqsGroups(s: seq<Faq>)
    ensures var t := TopFaqs(s);
      forall i :: 0 <= i < |t| ==> TopKey(t[i]) in KeysOf(s, TopKey) && TopGroup(s, t[i])
  {
    var r := RankedGroups(s);
    RankedGroupsEntries(s);
    var t := TopFaqs(s);
    assert forall i :: 0 <= i < |t| ==> t[i] == r[i];
  }

  /** Every group left out is no more frequent than any listed one. */
  lemma TopFaqsCutoff(s: seq<Faq>)
    ensures var t := TopFaqs(s);
      forall g :: g in Values(TopMap(s)) ==> g in t || forall i :: 0 <= i < |t| ==> t[i].frequency >= g.frequency
  {
    var r := RankedGroups(s);
    RankedGroupsEntries(s);
    TakeSorted(r, FaqFrequency, TopKey, TopCount);
    forall g | g in Values(TopMap(s)) ensures g in r {
      assert g in multiset(r);
    }
  }

  /** Before the cut, the group frequencies add up to the summed weights of
      all rows. */
  lemma TopFrequencyTotal(s: seq<Faq>)
    ensures IntSumOf(RankedGroups(s), FaqFrequency) == IntSumOf(s, EffectiveFrequency)
  {
    GroupValuesIntSum(s, TopKey, NewTop, AddToTop, FaqFrequency, EffectiveFrequency, RankedGroups(s));
  }
}
