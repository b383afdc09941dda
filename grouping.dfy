/** The group-by that every `reduce` into an object performs in the source:
    for each element, find its key, create the entry from the element if
    the key is new, then fold the element into the entry. The lemmas here
    relate the entries to the elements: one entry per distinct key, each
    entry the fold of exactly the elements with its key, and sums over the
    entries equal to sums over the elements. */
module Grouping {
  import opened Seqs

  /** One call of the `reduce` callback: the entry of `x`'s key, created by
      `init` if the key is new, has `x` folded into it by `add`. */
  function GroupStep<T, K(==), V>(acc: seq<Slot<K, V>>, x: T, key: T -> K, init: T -> V, add: (V, T) -> V): seq<Slot<K, V>> {
    Upsert(acc, key(x), init(x), (v: V) => add(v, x))
  }

  /** The entries after reducing `s`. */
  function GroupFold<T, K(==), V>(s: seq<T>, key: T -> K, init: T -> V, add: (V, T) -> V): seq<Slot<K, V>> {
    if |s| == 0 then []
    else GroupStep(GroupFold(s[..|s| - 1], key, init, add), s[|s| - 1], key, init, add)
  }

  /** The callback as the handlers write it: find the entry of the element's
      key, or append a new entry built from the element, then fold the
      element into that entry in place. */
  lemma GroupStepInPlace<T, K, V>(acc: seq<Slot<K, V>>, x: T, key: T -> K, init: T -> V, add: (V, T) -> V,
                                  mid: seq<Slot<K, V>>, j: nat)
    requires match Find(acc, key(x))
      case Some(p) => mid == acc && j == p
      case None => mid == acc + [Slot(key(x), init(x))] && j == |acc|
    ensures j < |mid| && mid[j].key == key(x)
    ensures GroupStep(acc, x, key, init, add) == mid[j := Slot(key(x), add(mid[j].val, x))]
  {
  }

  /** One step of the `reduce` over `s`, in place. */
  lemma GroupFoldStep<T, K, V>(s: seq<T>, key: T -> K, init: T -> V, add: (V, T) -> V,
                               i: nat, mid: seq<Slot<K, V>>, j: nat)
    requires i < |s|
    requires var prev := GroupFold(s[..i], key, init, add);
      match Find(prev, key(s[i]))
      case Some(p) => mid == prev && j == p
      case None => mid == prev + [Slot(key(s[i]), init(s[i]))] && j == |prev|
    ensures j < |mid| && mid[j].key == key(s[i])
    ensures GroupFold(s[..i + 1], key, init, add) == mid[j := Slot(key(s[i]), add(mid[j].val, s[i]))]
  {
    assert s[..i + 1][..i] == s[..i];
    GroupStepInPlace(GroupFold(s[..i], key, init, add), s[i], key, init, add, mid, j);
  }

  /** The elements of `s` with key `k`, in order. */
  function Members<T, K(==)>(s: seq<T>, key: T -> K, k: K): (r: seq<T>)
    ensures |r| <= |s|
    ensures forall i :: 0 <= i < |r| ==> key(r[i]) == k
  {
    if |s| == 0 then []
    else Members(s[..|s| - 1], key, k) + (if key(s[|s| - 1]) == k then [s[|s| - 1]] else [])
  }

  /** What holds of every element holds of every member of a key. */
  lemma {:induction false} MembersAll<T, K>(s: seq<T>, key: T -> K, k: K, p: T -> bool)
    requires forall i :: 0 <= i < |s| ==> p(s[i])
    ensures forall i :: 0 <= i < |Members(s, key, k)| ==> p(Members(s, key, k)[i])
  {
    if |s| > 0 {
      var n := |s| - 1;
      assert forall i :: 0 <= i < n ==> s[..n][i] == s[i];
      MembersAll(s[..n], key, k, p);
      var ms := Members(s, key, k);
      var pre := Members(s[..n], key, k);
      assert ms == pre + (if key(s[n]) == k then [s[n]] else []);
      assert p(s[n]);
      forall i | 0 <= i < |ms| ensures p(ms[i]) {
        if i < |pre| {
          assert ms[i] == pre[i] && p(pre[i]);
        } else {
          assert ms[i] == s[n] && p(s[n]);
        }
      }
    }
  }

  /** One group's value computed from its members alone. */
  function FoldOf<T, V>(ms: seq<T>, init: T -> V, add: (V, T) -> V): V
    requires |ms| > 0
  {
    if |ms| == 1 then add(init(ms[0]), ms[0])
    else add(FoldOf(ms[..|ms| - 1], init, add), ms[|ms| - 1])
  }

  /** The keys of the elements of `s`. */
  function KeysOf<T, K>(s: seq<T>, key: T -> K): set<K> {
    set i | 0 <= i < |s| :: key(s[i])
  }

  lemma {:induction false} MembersEmpty<T, K>(s: seq<T>, key: T -> K, k: K)
    requires k !in KeysOf(s, key)
    ensures Members(s, key, k) == []
  {
    if |s| > 0 {
      var n := |s| - 1;
      assert key(s[n]) in KeysOf(s, key);
      assert KeysOf(s[..n], key) <= KeysOf(s, key) by {
        forall x | x in KeysOf(s[..n], key) ensures x in KeysOf(s, key) {
          var i :| 0 <= i < n && key(s[..n][i]) == x;
          assert key(s[i]) == x;
        }
      }
      MembersEmpty(s[..n], key, k);
    }
  }

  lemma KeysOfSnoc<T, K>(s: seq<T>, key: T -> K)
    requires |s| > 0
    ensures KeysOf(s, key) == KeysOf(s[..|s| - 1], key) + {key(s[|s| - 1])}
  {
    var n := |s| - 1;
    forall x | x in KeysOf(s, key) ensures x in KeysOf(s[..n], key) + {key(s[n])} {
      var i :| 0 <= i < |s| && key(s[i]) == x;
      if i < n { assert key(s[..n][i]) == x; }
    }
    forall x | x in KeysOf(s[..n], key) ensures x in KeysOf(s, key) {
      var i :| 0 <= i < n && key(s[..n][i]) == x;
      assert key(s[i]) == x;
    }
  }

  /** One entry per distinct key of the input, and each entry is the fold of
      exactly the elements carrying its key, in input order. */
  lemma {:induction false} GroupFoldShape<T, K, V>(s: seq<T>, key: T -> K, init: T -> V, add: (V, T) -> V)
    ensures var g := GroupFold(s, key, init, add);
      && DistinctKeys(g)
      && KeySet(g) == KeysOf(s, key)
      && forall i :: 0 <= i < |g| ==>
           |Members(s, key, g[i].key)| > 0 && g[i].val == FoldOf(Members(s, key, g[i].key), init, add)
  {
    if |s| > 0 {
      var n := |s| - 1;
      var x := s[n];
      var prev := GroupFold(s[..n], key, init, add);
      GroupFoldShape(s[..n], key, init, add);
      var upd := (v: V) => add(v, x);
      UpsertShape(prev, key(x), init(x), upd);
      KeysOfSnoc(s, key);
      var g := GroupFold(s, key, init, add);
      assert g == Upsert(prev, key(x), init(x), upd);
      forall i | 0 <= i < |g|
        ensures |Members(s, key, g[i].key)| > 0 && g[i].val == FoldOf(Members(s, key, g[i].key), init, add)
      {
        var k := g[i].key;
        var ms := Members(s, key, k);
        assert ms == Members(s[..n], key, k) + (if key(x) == k then [x] else []);
        if k != key(x) {
          assert i < |prev| && g[i] == prev[i];
          assert ms == Members(s[..n], key, k);
          assert |ms| > 0;
          assert g[i].val == FoldOf(ms, init, add);
        } else {
          match Find(prev, key(x))
          case Some(j) =>
            assert g[j].key == k;
            assert i == j;
            assert ms[..|ms| - 1] == Members(s[..n], key, k);
            assert g[i].val == upd(prev[j].val) == add(prev[j].val, x);
            assert prev[j].val == FoldOf(Members(s[..n], key, k), init, add);
            assert ms[|ms| - 1] == x;
            assert |ms| > 1;
            assert FoldOf(ms, init, add) == add(FoldOf(ms[..|ms| - 1], init, add), x);
          case None =>
            MembersEmpty(s[..n], key, k);
            assert i == |prev|;
            assert ms == [x];
            assert g[i].val == upd(init(x)) == add(init(x), x);
        }
      }
    }
  }

  /** The sum of `f` over the values of the entries. */
  function ValSum<K, V>(slots: seq<Slot<K, V>>, f: V -> real): real {
    if |slots| == 0 then 0.0 else ValSum(slots[..|slots| - 1], f) + f(slots[|slots| - 1].val)
  }

  function IntValSum<K, V>(slots: seq<Slot<K, V>>, f: V -> int): int {
    if |slots| == 0 then 0 else IntValSum(slots[..|slots| - 1], f) + f(slots[|slots| - 1].val)
  }

  lemma {:induction false} ValSumUpdate<K, V>(s: seq<Slot<K, V>>, f: V -> real, j: nat, x: Slot<K, V>)
    requires j < |s|
    ensures ValSum(s[j := x], f) == ValSum(s, f) - f(s[j].val) + f(x.val)
  {
    var n := |s| - 1;
    if j < n {
      ValSumUpdate(s[..n], f, j, x);
      assert s[j := x][..n] == s[..n][j := x];
    } else {
      assert s[j := x][..n] == s[..n];
    }
  }

  lemma {:induction false} IntValSumUpdate<K, V>(s: seq<Slot<K, V>>, f: V -> int, j: nat, x: Slot<K, V>)
    requires j < |s|
    ensures IntValSum(s[j := x], f) == IntValSum(s, f) - f(s[j].val) + f(x.val)
  {
    var n := |s| - 1;
    if j < n {
      IntValSumUpdate(s[..n], f, j, x);
      assert s[j := x][..n] == s[..n][j := x];
    } else {
      assert s[j := x][..n] == s[..n];
    }
  }

  /** A per-entry quantity that a new entry starts from and that grows by
      `g(x)` whenever element `x` is folded in sums, over all entries, to the
      sum of `g` over the elements. */
  lemma {:induction false} GroupFoldSum<T, K, V>(s: seq<T>, key: T -> K, init: T -> V, add: (V, T) -> V,
                                                 f: V -> real, g: T -> real)
    requires forall x :: f(add(init(x), x)) == g(x)
    requires forall v, x :: f(add(v, x)) == f(v) + g(x)
    ensures ValSum(GroupFold(s, key, init, add), f) == SumOf(s, g)
  {
    if |s| > 0 {
      var n := |s| - 1;
      var x := s[n];
      var prev := GroupFold(s[..n], key, init, add);
      GroupFoldSum(s[..n], key, init, add, f, g);
      var upd := (v: V) => add(v, x);
      match Find(prev, key(x))
      case Some(j) =>
        ValSumUpdate(prev, f, j, Slot(key(x), upd(prev[j].val)));
        assert upd(prev[j].val) == add(prev[j].val, x);
      case None =>
        assert (prev + [Slot(key(x), upd(init(x)))])[..|prev|] == prev;
        assert upd(init(x)) == add(init(x), x);
    }
  }

  lemma {:induction false} GroupFoldIntSum<T, K, V>(s: seq<T>, key: T -> K, init: T -> V, add: (V, T) -> V,
                                                    f: V -> int, g: T -> int)
    requires forall x :: f(add(init(x), x)) == g(x)
    requires forall v, x :: f(add(v, x)) == f(v) + g(x)
    ensures IntValSum(GroupFold(s, key, init, add), f) == IntSumOf(s, g)
  {
    if |s| > 0 {
      var n := |s| - 1;
      var x := s[n];
      var prev := GroupFold(s[..n], key, init, add);
      GroupFoldIntSum(s[..n], key, init, add, f, g);
      var upd := (v: V) => add(v, x);
      match Find(prev, key(x))
      case Some(j) =>
        IntValSumUpdate(prev, f, j, Slot(key(x), upd(prev[j].val)));
        assert upd(prev[j].val) == add(prev[j].val, x);
      case None =>
        assert (prev + [Slot(key(x), upd(init(x)))])[..|prev|] == prev;
        assert upd(init(x)) == add(init(x), x);
    }
  }

  /** The values of the entries, in insertion order: `Object.values(acc)`. */
  function Values<K, V>(slots: seq<Slot<K, V>>): (r: seq<V>)
    ensures |r| == |slots|
    ensures forall i :: 0 <= i < |slots| ==> r[i] == slots[i].val
  {
    seq(|slots|, i requires 0 <= i < |slots| => slots[i].val)
  }

  lemma {:induction false} ValuesSum<K, V>(slots: seq<Slot<K, V>>, f: V -> real)
    ensures SumOf(Values(slots), f) == ValSum(slots, f)
  {
    if |slots| > 0 {
      var n := |slots| - 1;
      ValuesSum(slots[..n], f);
      assert Values(slots)[..n] == Values(slots[..n]);
    }
  }

  lemma {:induction false} ValuesIntSum<K, V>(slots: seq<Slot<K, V>>, f: V -> int)
    ensures IntSumOf(Values(slots), f) == IntValSum(slots, f)
  {
    if |slots| > 0 {
      var n := |slots| - 1;
      ValuesIntSum(slots[..n], f);
      assert Values(slots)[..n] == Values(slots[..n]);
    }
  }

  /** Every element of a reordering of the values is the value of some entry. */
  lemma PermutedValues<K, V>(slots: seq<Slot<K, V>>, t: seq<V>)
    requires multiset(t) == multiset(Values(slots))
    ensures forall i :: 0 <= i < |t| ==> t[i] in Values(slots)
  {
    forall i | 0 <= i < |t| ensures t[i] in Values(slots) {
      assert t[i] in multiset(Values(slots));
    }
  }

  /** `GroupFoldSum` for the values listed in any order. */
  lemma GroupValuesSum<T, K, V>(s: seq<T>, key: T -> K, init: T -> V, add: (V, T) -> V,
                                f: V -> real, g: T -> real, t: seq<V>)
    requires forall x :: f(add(init(x), x)) == g(x)
    requires forall v, x :: f(add(v, x)) == f(v) + g(x)
    requires multiset(t) == multiset(Values(GroupFold(s, key, init, add)))
    ensures SumOf(t, f) == SumOf(s, g)
  {
    var gs := GroupFold(s, key, init, add);
    GroupFoldSum(s, key, init, add, f, g);
    ValuesSum(gs, f);
    SumOfPermutation(Values(gs), t, f);
  }

  lemma GroupValuesIntSum<T, K, V>(s: seq<T>, key: T -> K, init: T -> V, add: (V, T) -> V,
                                   f: V -> int, g: T -> int, t: seq<V>)
    requires forall x :: f(add(init(x), x)) == g(x)
    requires forall v, x :: f(add(v, x)) == f(v) + g(x)
    requires multiset(t) == multiset(Values(GroupFold(s, key, init, add)))
    ensures IntSumOf(t, f) == IntSumOf(s, g)
  {
    var gs := GroupFold(s, key, init, add);
    GroupFoldIntSum(s, key, init, add, f, g);
    ValuesIntSum(gs, f);
    IntSumOfPermutation(Values(gs), t, f);
  }

  /** When each entry's value records its own key (`keyOf`), a group's value
      carries the key of its first element. */
  lemma {:induction false} FoldOfKey<T, K, V>(ms: seq<T>, key: T -> K, init: T -> V, add: (V, T) -> V, keyOf: V -> K)
    requires |ms| > 0
    requires forall x :: keyOf(add(init(x), x)) == key(x)
    requires forall v, x :: keyOf(add(v, x)) == keyOf(v)
    ensures keyOf(FoldOf(ms, init, add)) == key(ms[0])
  {
    if |ms| > 1 {
      var n := |ms| - 1;
      FoldOfKey(ms[..n], key, init, add, keyOf);
      var v := FoldOf(ms[..n], init, add);
      assert keyOf(add(v, ms[n])) == keyOf(v);
      assert ms[..n][0] == ms[0];
    }
  }

  /** The values of a group-by whose values record their own key, listed in
      any order: one per distinct key of the input, no key twice, each the
      fold of exactly the elements with its key. */
  lemma ReorderedGroups<T, K, V>(s: seq<T>, key: T -> K, init: T -> V, add: (V, T) -> V, keyOf: V -> K, r: seq<V>)
    requires forall x :: keyOf(add(init(x), x)) == key(x)
    requires forall v, x :: keyOf(add(v, x)) == keyOf(v)
    requires multiset(r) == multiset(Values(GroupFold(s, key, init, add)))
    ensures DistinctBy(r, keyOf)
    ensures |r| == |KeysOf(s, key)|
    ensures forall i :: 0 <= i < |r| ==>
      && keyOf(r[i]) in KeysOf(s, key)
      && |Members(s, key, keyOf(r[i]))| > 0
      && r[i] == FoldOf(Members(s, key, keyOf(r[i])), init, add)
  {
    var g := GroupFold(s, key, init, add);
    var vs := Values(g);
    GroupFoldShape(s, key, init, add);
    forall p | 0 <= p < |g| ensures keyOf(g[p].val) == g[p].key {
      FoldOfKey(Members(s, key, g[p].key), key, init, add, keyOf);
    }
    assert DistinctBy(vs, keyOf);
    DistinctByPermutation(vs, r, keyOf);
    PermutedValues(g, r);
    forall i | 0 <= i < |r|
      ensures keyOf(r[i]) in KeysOf(s, key)
      ensures |Members(s, key, keyOf(r[i]))| > 0 && r[i] == FoldOf(Members(s, key, keyOf(r[i])), init, add)
    {
      var p :| 0 <= p < |vs| && vs[p] == r[i];
      assert g[p].key in KeySet(g);
    }
    DistinctKeysSize(g);
  }
}
