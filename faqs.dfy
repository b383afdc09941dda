/** The FAQ listing: the rows that pass the optional agent and question
    filters, newest first, grouped by an aggressively normalised question
    (trimmed, lower-cased, punctuation removed, runs of white space
    collapsed), with frequencies summed, ranked by frequency and cut to one
    hundred. */
module Faqs {
  import opened Common
  import opened Text
  import opened Seqs
  import opened Grouping
  import opened Records

  /** The most groups the listing returns. */
  const Limit: nat := 100

  // ---------------------------------------------------------------- normalising

  /** The characters `[.,\/#!$%\^&\*;:{}=\-_`~()]` removes. */
  predicate IsPunct(c: char) {
    || c == '.' || c == ',' || c == '/' || c == '#' || c == '!' || c == '$' || c == '%'
    || c == '^' || c == '&' || c == '*' || c == ';' || c == ':' || c == '{' || c == '}'
    || c == '=' || c == '-' || c == '_' || c == '`' || c == '~' || c == '(' || c == ')'
  }

  predicate NotPunct(c: char) {
    !IsPunct(c)
  }

  /** Every punctuation character deleted. */
  function StripPunct(s: string): string {
    if |s| == 0 then [] else (if IsPunct(s[0]) then [] else [s[0]]) + StripPunct(s[1..])
  }

  /** `replace(/\s{2,}/g, " ")`: each run of two or more white-space
      characters becomes one space; a lone white-space character stays as
      it is. */
  function CollapseSpaces(s: string): string
    decreases |s|
  {
    if |s| == 0 then []
    else if |s| >= 2 && IsSpace(s[0]) && IsSpace(s[1]) then [' '] + CollapseSpaces(TrimStart(s))
    else [s[0]] + CollapseSpaces(s[1..])
  }

  /** The grouping key of a question. */
  function NormalizeQuestion(q: string): string {
    CollapseSpaces(StripPunct(ToLower(Trim(q))))
  }

  /** No two white-space characters are adjacent. */
  ghost predicate NoDoubleSpace(s: string) {
    forall i :: 0 <= i < |s| - 1 ==> !(IsSpace(s[i]) && IsSpace(s[i + 1]))
  }

  predicate NotSpace(c: char) {
    !IsSpace(c)
  }

  /** Putting a character in front keeps white space apart unless both it
      and the old first character are white space. */
  lemma NoDoubleSpaceCons(x: char, c: string)
    requires NoDoubleSpace(c)
    requires |c| == 0 || !(IsSpace(x) && IsSpace(c[0]))
    ensures NoDoubleSpace([x] + c)
  {
    var r := [x] + c;
    forall i | 0 < i < |r| - 1 ensures !(IsSpace(r[i]) && IsSpace(r[i + 1])) {
      assert r[i] == c[i - 1] && r[i + 1] == c[i];
    }
  }

  /** After collapsing, no two white-space characters are adjacent, and the
      result starts with white space exactly when the input does. */
  lemma {:induction false} CollapseSpacesShape(s: string)
    ensures var r := CollapseSpaces(s);
      && NoDoubleSpace(r)
      && |r| <= |s|
      && (|r| > 0 <==> |s| > 0)
      && (|s| > 0 ==> (IsSpace(r[0]) <==> IsSpace(s[0])))
    decreases |s|
  {
    if |s| == 0 {
    } else if |s| >= 2 && IsSpace(s[0]) && IsSpace(s[1]) {
      var t := TrimStart(s);
      TrimStartSpec(s);
      CollapseSpacesShape(t);
      NoDoubleSpaceCons(' ', CollapseSpaces(t));
    } else {
      CollapseSpacesShape(s[1..]);
      NoDoubleSpaceCons(s[0], CollapseSpaces(s[1..]));
    }
  }

  /** Collapsing keeps every character that is not white space, in order. */
  lemma {:induction false} CollapseSpacesKeepsText(s: string)
    ensures Filter(CollapseSpaces(s), NotSpace) == Filter(s, NotSpace)
    decreases |s|
  {
    if |s| == 0 {
    } else if |s| >= 2 && IsSpace(s[0]) && IsSpace(s[1]) {
      var t := TrimStart(s);
      CollapseSpacesKeepsText(t);
      TrimStartKeepsText(s);
      FilterCons(' ', CollapseSpaces(t), NotSpace);
    } else {
      CollapseSpacesKeepsText(s[1..]);
      assert s == [s[0]] + s[1..];
      FilterCons(s[0], s[1..], NotSpace);
      FilterCons(s[0], CollapseSpaces(s[1..]), NotSpace);
    }
  }

  /** Filtering distributes over putting an element in front. */
  lemma {:induction false} FilterCons<T>(x: T, s: seq<T>, p: T -> bool)
    ensures Filter([x] + s, p) == (if p(x) then [x] else []) + Filter(s, p)
    decreases |s|
  {
    if |s| > 0 {
      var n := |s| - 1;
      FilterCons(x, s[..n], p);
      assert ([x] + s)[..n + 1] == [x] + s[..n];
      assert ([x] + s)[n + 1] == s[n];
    } else {
      assert ([x] + s)[..0] == [];
    }
  }

  /** Dropping a prefix that the predicate rejects throughout does not
      change the filtered sequence. */
  lemma {:induction false} FilterDropPrefix<T>(s: seq<T>, p: T -> bool, k: nat)
    requires k <= |s|
    requires forall i :: 0 <= i < k ==> !p(s[i])
    ensures Filter(s, p) == Filter(s[k..], p)
    decreases k
  {
    if k > 0 {
      FilterDropPrefix(s, p, k - 1);
      assert s[k - 1..] == [s[k - 1]] + s[k..];
      FilterCons(s[k - 1], s[k..], p);
    }
  }

  /** Leading white space carries no text. */
  lemma TrimStartKeepsText(s: string)
    ensures Filter(TrimStart(s), NotSpace) == Filter(s, NotSpace)
  {
    var t := TrimStart(s);
    var k := |s| - |t|;
    TrimStartSpec(s);
    forall i | 0 <= i < k ensures !NotSpace(s[i]) {
      assert IsSpace(s[i]);
    }
    FilterDropPrefix(s, NotSpace, k);
  }

  /** Deleting the punctuation keeps exactly the other characters, in
      order. */
  lemma {:induction false} StripPunctKeeps(s: string)
    ensures StripPunct(s) == Filter(s, NotPunct)
  {
    if |s| > 0 {
      StripPunctKeeps(s[1..]);
      assert s == [s[0]] + s[1..];
      FilterCons(s[0], s[1..], NotPunct);
    }
  }

  /** A string without adjacent white space is left alone, so collapsing
      twice is collapsing once. */
  lemma {:induction false} CollapseSpacesFixed(s: string)
    requires NoDoubleSpace(s)
    ensures CollapseSpaces(s) == s
    decreases |s|
  {
    if |s| > 0 {
      assert !(|s| >= 2 && IsSpace(s[0]) && IsSpace(s[1]));
      assert NoDoubleSpace(s[1..]) by {
        forall i | 0 <= i < |s[1..]| - 1 ensures !(IsSpace(s[1..][i]) && IsSpace(s[1..][i + 1])) {
          assert s[1..][i] == s[i + 1] && s[1..][i + 1] == s[i + 2];
        }
      }
      CollapseSpacesFixed(s[1..]);
    }
  }

  lemma CollapseSpacesIdempotent(s: string)
    ensures CollapseSpaces(CollapseSpaces(s)) == CollapseSpaces(s)
  {
    CollapseSpacesShape(s);
    CollapseSpacesFixed(CollapseSpaces(s));
  }

  /** Collapsing brings in no punctuation: it only writes spaces. */
  lemma {:induction false} CollapseSpacesNoPunct(s: string)
    requires forall i :: 0 <= i < |s| ==> !IsPunct(s[i])
    ensures forall i :: 0 <= i < |CollapseSpaces(s)| ==> !IsPunct(CollapseSpaces(s)[i])
    decreases |s|
  {
    if |s| == 0 {
    } else if |s| >= 2 && IsSpace(s[0]) && IsSpace(s[1]) {
      var t := TrimStart(s);
      TrimStartSpec(s);
      forall i | 0 <= i < |t| ensures !IsPunct(t[i]) {
        assert t[i] == s[|s| - |t| + i];
      }
      CollapseSpacesNoPunct(t);
      var c := CollapseSpaces(t);
      var r := CollapseSpaces(s);
      assert r == [' '] + c;
      forall i | 0 <= i < |r| ensures !IsPunct(r[i]) {
        if i > 0 {
          assert r[i] == c[i - 1];
        }
      }
    } else {
      CollapseSpacesNoPunct(s[1..]);
      var c := CollapseSpaces(s[1..]);
      var r := CollapseSpaces(s);
      assert r == [s[0]] + c;
      forall i | 0 <= i < |r| ensures !IsPunct(r[i]) {
        if i > 0 {
          assert r[i] == c[i - 1];
        }
      }
    }
  }

  /** The key holds no punctuation and no adjacent white space. */
  lemma NormalizedShape(q: string)
    ensures var k := NormalizeQuestion(q);
      && NoDoubleSpace(k)
      && forall i :: 0 <= i < |k| ==> !IsPunct(k[i])
  {
    var t := ToLower(Trim(q));
    var p := StripPunct(t);
    CollapseSpacesShape(p);
    var k := CollapseSpaces(p);
    assert forall i :: 0 <= i < |p| ==> !IsPunct(p[i]) by {
      StripPunctKeeps(t);
    }
    CollapseSpacesNoPunct(p);
  }

  // ---------------------------------------------------------------- examples

  /** The key, one stage of the chain at a time. */
  lemma KeyChain(q: string, t: string, l: string, p: string, k: string)
    requires Trim(q) == t && ToLower(t) == l && StripPunct(l) == p && CollapseSpaces(p) == k
    ensures NormalizeQuestion(q) == k
  {
  }

  // Each stage of the two examples below, one small fact at a time.

  lemma TrimPunctuated() ensures Trim("A, b!") == "A, b!" {
    TrimUnchanged("A, b!");
  }

  lemma LowerPunctuated() ensures ToLower("A, b!") == "a, b!" {
    ToLowerChars("A, b!");
  }

  lemma StripPunctuated() ensures StripPunct("a, b!") == "a b" {
  }

  lemma CollapseSingle() ensures CollapseSpaces("a b") == "a b" {
  }

  lemma TrimSpaced() ensures Trim(" a  b") == "a  b" {
  }

  lemma LowerSpaced() ensures ToLower("a  b") == "a  b" {
    ToLowerChars("a  b");
  }

  lemma StripSpaced() ensures StripPunct("a  b") == "a  b" {
  }

  lemma CollapseSpaced() ensures CollapseSpaces("a  b") == "a b" {
  }

  /** Questions differing in letter case, punctuation and white space share
      a key, so their rows end up in one group. */
  lemma SameKeyExample()
    ensures NormalizeQuestion("A, b!") == NormalizeQuestion(" a  b") == "a b"
  {
    TrimPunctuated();
    LowerPunctuated();
    StripPunctuated();
    CollapseSingle();
    KeyChain("A, b!", "A, b!", "a, b!", "a b", "a b");
    TrimSpaced();
    LowerSpaced();
    StripSpaced();
    CollapseSpaced();
    KeyChain(" a  b", "a  b", "a  b", "a  b", "a b");
  }

  lemma LeadingPunctStages()
    ensures Trim("! a") == "! a" && ToLower("! a") == "! a"
    ensures StripPunct("! a") == " a" && CollapseSpaces(" a") == " a"
  {
    assert Trim("! a") == "! a" by {
      TrimUnchanged("! a");
    }
    assert ToLower("! a") == "! a" by {
      ToLowerChars("! a");
    }
  }

  lemma LeadingSpaceStages()
    ensures Trim(" a") == "a" && ToLower("a") == "a" && StripPunct("a") == "a" && CollapseSpaces("a") == "a"
  {
    assert ToLower("a") == "a" by {
      ToLowerChars("a");
    }
  }

  /** Trimming happens before the punctuation is deleted, so a key can
      start with white space, and normalising a key again can change it. */
  lemma NotIdempotentExample()
    ensures NormalizeQuestion("! a") == " a"
    ensures NormalizeQuestion(NormalizeQuestion("! a")) == "a"
  {
    LeadingPunctStages();
    LeadingSpaceStages();
    KeyChain("! a", "! a", "! a", " a", " a");
    KeyChain(" a", "a", "a", "a", "a");
  }

  // ---------------------------------------------------------------- filtering

  /** The `where` clause: each filter applies only when its parameter is a
      non-empty string, and matches a case-insensitive substring. */
  predicate Matches(f: Faq, agentName: Option<string>, search: Option<string>) {
    && (Present(agentName) ==> ContainsInsensitive(f.agentName, agentName.value))
    && (Present(search) ==> ContainsInsensitive(Some(f.question), search.value))
  }

  function FaqDate(f: Faq): int {
    f.date
  }

  /** `findMany({ where, orderBy: { date: 'desc' } })`. */
  function Fetched(rows: seq<Faq>, agentName: Option<string>, search: Option<string>): seq<Faq> {
    SortDesc(Filter(rows, (f: Faq) => Matches(f, agentName, search)), FaqDate)
  }

  /** The fetched rows are exactly the matching rows, newest first. */
  lemma FetchedRows(rows: seq<Faq>, agentName: Option<string>, search: Option<string>)
    ensures var s := Fetched(rows, agentName, search);
      && SortedDesc(s, FaqDate)
      && multiset(s) == multiset(Filter(rows, (f: Faq) => Matches(f, agentName, search)))
      && (forall i :: 0 <= i < |s| ==> Matches(s[i], agentName, search))
      && (forall i :: 0 <= i < |rows| && Matches(rows[i], agentName, search) ==> rows[i] in s)
  {
    var m := Filter(rows, (f: Faq) => Matches(f, agentName, search));
    var s := Fetched(rows, agentName, search);
    forall i | 0 <= i < |s| ensures Matches(s[i], agentName, search) {
      assert s[i] in multiset(m);
    }
    forall i | 0 <= i < |rows| && Matches(rows[i], agentName, search) ensures rows[i] in s {
      assert rows[i] in m;
      assert rows[i] in multiset(s);
    }
  }

  /** Without filter parameters every row is fetched. */
  lemma NoFilterFetchesAll(rows: seq<Faq>)
    ensures multiset(Fetched(rows, None, None)) == multiset(rows)
  {
    FilterAll(rows, (f: Faq) => Matches(f, None, None));
  }

  // ---------------------------------------------------------------- grouping

  function GroupKey(f: Faq): string {
    NormalizeQuestion(f.question)
  }

  /** The entry a new key starts with: the row's fields with frequency 0. */
  function NewGroup(f: Faq): Faq {
    f.(frequency := 0)
  }

  /** Folding a row into its group: its weight is added, its agent fills a
      missing one, and a later date replaces the group's. */
  function AddToGroup(g: Faq, f: Faq): Faq {
    Faq(g.id, g.question, g.category, g.frequency + EffectiveFrequency(f),
        if Present(f.agentName) && !Present(g.agentName) then f.agentName else g.agentName,
        if f.date > g.date then f.date else g.date)
  }

  function GroupMap(s: seq<Faq>): seq<Slot<string, Faq>> {
    GroupFold(s, GroupKey, NewGroup, AddToGroup)
  }

  /** The `reduce` callback, updating the group in place. */
  method AddToGroupMap(acc: seq<Slot<string, Faq>>, f: Faq) returns (r: seq<Slot<string, Faq>>)
    ensures r == GroupStep(acc, f, GroupKey, NewGroup, AddToGroup)
  {
    var key := NormalizeQuestion(f.question);
    var j: nat;
    r := acc;
    match Find(acc, key) {
      case Some(k) => j := k;
      case None =>
        r := acc + [Slot(key, Faq(f.id, f.question, f.category, 0, f.agentName, f.date))];
        j := |r| - 1;
    }
    GroupStepInPlace(acc, f, GroupKey, NewGroup, AddToGroup, r, j);
    var g := r[j].val;
    g := g.(frequency := g.frequency + (if f.frequency != 0 then f.frequency else 1));
    if Present(f.agentName) && !Present(g.agentName) {
      g := g.(agentName := f.agentName);
    }
    if f.date > g.date {
      g := g.(date := f.date);
    }
    r := r[j := Slot(key, g)];
  }

  /** The `reduce` that builds `groupedMap`. */
  method BuildGroupMap(s: seq<Faq>) returns (acc: seq<Slot<string, Faq>>)
    ensures acc == GroupMap(s)
  {
    acc := [];
    for i := 0 to |s|
      invariant acc == GroupMap(s[..i])
    {
      assert s[..i + 1][..i] == s[..i];
      acc := AddToGroupMap(acc, s[i]);
    }
    assert s[..|s|] == s;
  }

  // ---------------------------------------------------------------- one group

  /** A group keeps the identity of its first row: id, question, category. */
  lemma {:induction false} GroupIdentity(ms: seq<Faq>)
    requires |ms| > 0
    ensures var g := FoldOf(ms, NewGroup, AddToGroup);
      g.id == ms[0].id && g.question == ms[0].question && g.category == ms[0].category
  {
    if |ms| > 1 {
      GroupIdentity(ms[..|ms| - 1]);
    }
  }

  /** A group's frequency is the summed weight of its rows. */
  lemma {:induction false} GroupFrequency(ms: seq<Faq>)
    requires |ms| > 0
    ensures FoldOf(ms, NewGroup, AddToGroup).frequency == IntSumOf(ms, EffectiveFrequency)
  {
    var n := |ms| - 1;
    if n > 0 {
      GroupFrequency(ms[..n]);
    } else {
      assert ms[..0] == [];
    }
  }

  /** Row `k` is the first row with an agent. */
  ghost predicate FirstAgentAt(ms: seq<Faq>, k: int) {
    0 <= k < |ms| && Present(ms[k].agentName) && forall i :: 0 <= i < k ==> !Present(ms[i].agentName)
  }

  /** A group's agent is that of its first row with an agent, or the first
      row's (missing) agent when no row has one. */
  lemma {:induction false} GroupAgent(ms: seq<Faq>)
    requires |ms| > 0
    ensures var g := FoldOf(ms, NewGroup, AddToGroup);
      && (forall k :: FirstAgentAt(ms, k) ==> g.agentName == ms[k].agentName)
      && ((forall i :: 0 <= i < |ms| ==> !Present(ms[i].agentName)) ==> g.agentName == ms[0].agentName)
  {
    var n := |ms| - 1;
    if n > 0 {
      var prev := ms[..n];
      GroupAgent(prev);
      var g := FoldOf(ms, NewGroup, AddToGroup);
      assert g == AddToGroup(FoldOf(prev, NewGroup, AddToGroup), ms[n]);
      forall k | FirstAgentAt(ms, k) ensures g.agentName == ms[k].agentName {
        if k < n {
          assert FirstAgentAt(prev, k);
        } else {
          assert forall i :: 0 <= i < n ==> !Present(prev[i].agentName);
        }
      }
      if forall i :: 0 <= i < |ms| ==> !Present(ms[i].agentName) {
        assert forall i :: 0 <= i < n ==> !Present(prev[i].agentName);
      }
    }
  }

  /** A group's date is the latest date of its rows. */
  lemma {:induction false} GroupDate(ms: seq<Faq>)
    requires |ms| > 0
    ensures var g := FoldOf(ms, NewGroup, AddToGroup);
      && (forall i :: 0 <= i < |ms| ==> ms[i].date <= g.date)
      && exists i :: 0 <= i < |ms| && g.date == ms[i].date
  {
    var n := |ms| - 1;
    if n > 0 {
      var prev := ms[..n];
      GroupDate(prev);
      var w :| 0 <= w < n && FoldOf(prev, NewGroup, AddToGroup).date == prev[w].date;
      var g := FoldOf(ms, NewGroup, AddToGroup);
      if g.date == ms[n].date {
        assert 0 <= n < |ms| && g.date == ms[n].date;
      } else {
        assert g.date == ms[w].date;
      }
      forall i | 0 <= i < |ms| ensures ms[i].date <= g.date {
        if i < n {
          assert ms[i] == prev[i];
        }
      }
    } else {
      assert 0 <= 0 < |ms| && FoldOf(ms, NewGroup, AddToGroup).date == ms[0].date;
    }
  }

  /** When every row of a group passes the filters, so does the group: its
      question is a row's question and its agent a row's agent. */
  lemma {:induction false} GroupMatches(ms: seq<Faq>, agentName: Option<string>, search: Option<string>)
    requires |ms| > 0
    requires forall i :: 0 <= i < |ms| ==> Matches(ms[i], agentName, search)
    ensures Matches(FoldOf(ms, NewGroup, AddToGroup), agentName, search)
  {
    var n := |ms| - 1;
    if n > 0 {
      GroupMatches(ms[..n], agentName, search);
      assert Matches(ms[n], agentName, search);
    } else {
      assert Matches(ms[0], agentName, search);
    }
  }

  /** `g` is the group of the rows `s` holds under its key. */
  ghost predicate FaqGroup(s: seq<Faq>, g: Faq) {
    var ms := Members(s, GroupKey, GroupKey(g));
    |ms| > 0 && g == FoldOf(ms, NewGroup, AddToGroup)
  }

  // ---------------------------------------------------------------- listing

  /** `Object.values(groupedMap).sort((a, b) => b.frequency - a.frequency)`. */
  function Ranked(s: seq<Faq>): seq<Faq> {
    SortDesc(Values(GroupMap(s)), FaqFrequency)
  }

  /** The response body: the first hundred ranked groups of the fetched rows. */
  function FaqList(rows: seq<Faq>, agentName: Option<string>, search: Option<string>): seq<Faq> {
    Take(Ranked(Fetched(rows, agentName, search)), Limit)
  }

  /** `GET /api/faqs`: signed-in users only. */
  method GetFaqs(session: Option<Session>, rows: seq<Faq>, agentName: Option<string>, search: Option<string>)
    returns (r: Result<seq<Faq>>)
    ensures session.None? ==> r == Err(Unauthorized)
    ensures session.Some? ==> r == Ok(FaqList(rows, agentName, search))
  {
    if session.None? {
      return Err(Unauthorized);
    }
    var fetched := Fetched(rows, agentName, search);
    var grouped := BuildGroupMap(fetched);
    var ranked := SortDesc(Values(grouped), FaqFrequency);
    return Ok(Take(ranked, Limit));
  }

  /** The ranked groups: by descending frequency, no key twice, one per key
      of the rows, each the group of its key. */
  lemma RankedEntries(s: seq<Faq>)
    ensures var r := Ranked(s);
      && SortedDesc(r, FaqFrequency)
      && DistinctBy(r, GroupKey)
      && |r| == |KeysOf(s, GroupKey)|
      && multiset(r) == multiset(Values(GroupMap(s)))
      && forall i :: 0 <= i < |r| ==> GroupKey(r[i]) in KeysOf(s, GroupKey) && FaqGroup(s, r[i])
  {
    ReorderedGroups(s, GroupKey, NewGroup, AddToGroup, GroupKey, Ranked(s));
  }

  /** At most a hundred groups, by descending frequency, no key twice;
      fewer only when there are fewer keys. */
  lemma FaqListOrder(rows: seq<Faq>, agentName: Option<string>, search: Option<string>)
    ensures var s := Fetched(rows, agentName, search);
      var t := FaqList(rows, agentName, search);
      && |t| <= Limit
      && SortedDesc(t, FaqFrequency)
      && DistinctBy(t, GroupKey)
      && (|t| < Limit ==> |t| == |KeysOf(s, GroupKey)|)
  {
    var s := Fetched(rows, agentName, search);
    RankedEntries(s);
    TakeSorted(Ranked(s), FaqFrequency, GroupKey, Limit);
  }

  /** Each listed entry is the group of a key of the fetched rows. */
  lemma FaqListGroups(rows: seq<Faq>, agentName: Option<string>, search: Option<string>)
    ensures var s := Fetched(rows, agentName, search);
      var t := FaqList(rows, agentName, search);
      forall i :: 0 <= i < |t| ==> GroupKey(t[i]) in KeysOf(s, GroupKey) && FaqGroup(s, t[i])
  {
    var s := Fetched(rows, agentName, search);
    RankedEntries(s);
    var t := FaqList(rows, agentName, search);
    assert forall i :: 0 <= i < |t| ==> t[i] == Ranked(s)[i];
  }

  /** Every group left out is no more frequent than any listed one. */
  lemma FaqListCutoff(rows: seq<Faq>, agentName: Option<string>, search: Option<string>)
    ensures var s := Fetched(rows, agentName, search);
      var t := FaqList(rows, agentName, search);
      forall g :: g in Values(GroupMap(s)) ==> g in t || forall i :: 0 <= i < |t| ==> t[i].frequency >= g.frequency
  {
    var s := Fetched(rows, agentName, search);
    var r := Ranked(s);
    RankedEntries(s);
    TakeSorted(r, FaqFrequency, GroupKey, Limit);
    forall g | g in Values(GroupMap(s)) ensures g in r {
      assert g in multiset(r);
    }
  }

  /** Before the cut, the group frequencies add up to the summed weights of
      the fetched rows. */
  lemma FaqTotal(s: seq<Faq>)
    ensures IntSumOf(Ranked(s), FaqFrequency) == IntSumOf(s, EffectiveFrequency)
  {
    GroupValuesIntSum(s, GroupKey, NewGroup, AddToGroup, FaqFrequency, EffectiveFrequency, Ranked(s));
  }

  /** The filters hold of every listed group, not only of the rows. */
  lemma FaqListMatches(rows: seq<Faq>, agentName: Option<string>, search: Option<string>)
    ensures var t := FaqList(rows, agentName, search);
      forall i :: 0 <= i < |t| ==> Matches(t[i], agentName, search)
  {
    var s := Fetched(rows, agentName, search);
    var t := FaqList(rows, agentName, search);
    var p := (f: Faq) => Matches(f, agentName, search);
    assert forall i :: 0 <= i < |s| ==> p(s[i]) by {
      FetchedRows(rows, agentName, search);
    }
    forall i | 0 <= i < |t| ensures Matches(t[i], agentName, search) {
      var ms := Members(s, GroupKey, GroupKey(t[i]));
      assert |ms| > 0 && t[i] == FoldOf(ms, NewGroup, AddToGroup) by {
        FaqListGroups(rows, agentName, search);
      }
      MembersAll(s, GroupKey, GroupKey(t[i]), p);
      forall j | 0 <= j < |ms| ensures Matches(ms[j], agentName, search) {
        assert p(ms[j]);
      }
      GroupMatches(ms, agentName, search);
    }
  }
}
