/** Sequence utilities shared by the handlers: sums, the stable sort that
    `Array.prototype.sort` performs with a numeric comparator, `slice(0, n)`,
    and the keyed accumulators that the source builds as plain objects
    (`acc[key] ??= init; acc[key].field += ...`), kept in key-insertion order
    as `Object.values` lists them. */
module Seqs {
  import opened Common

  // ---------------------------------------------------------------- sums

  /** The sum of `f` over `s`. */
  function SumOf<T>(s: seq<T>, f: T -> real): real {
    if |s| == 0 then 0.0 else SumOf(s[..|s| - 1], f) + f(s[|s| - 1])
  }

  /** The integer sum of `f` over `s`. */
  function IntSumOf<T>(s: seq<T>, f: T -> int): int {
    if |s| == 0 then 0 else IntSumOf(s[..|s| - 1], f) + f(s[|s| - 1])
  }

  /** Replacing one element changes a sum by the difference of the two values. */
  lemma {:induction false} SumOfUpdate<T>(s: seq<T>, f: T -> real, j: nat, x: T)
    requires j < |s|
    ensures SumOf(s[j := x], f) == SumOf(s, f) - f(s[j]) + f(x)
  {
    var n := |s| - 1;
    if j < n {
      SumOfUpdate(s[..n], f, j, x);
      assert s[j := x][..n] == s[..n][j := x];
    } else {
      assert s[j := x][..n] == s[..n];
    }
  }

  lemma {:induction false} IntSumOfUpdate<T>(s: seq<T>, f: T -> int, j: nat, x: T)
    requires j < |s|
    ensures IntSumOf(s[j := x], f) == IntSumOf(s, f) - f(s[j]) + f(x)
  {
    var n := |s| - 1;
    if j < n {
      IntSumOfUpdate(s[..n], f, j, x);
      assert s[j := x][..n] == s[..n][j := x];
    } else {
      assert s[j := x][..n] == s[..n];
    }
  }

  /** A sum does not depend on the order of the elements. */
  lemma {:induction false} IntSumOfPermutation<T>(s: seq<T>, t: seq<T>, f: T -> int)
    requires multiset(s) == multiset(t)
    ensures IntSumOf(s, f) == IntSumOf(t, f)
    decreases |s|
  {
    if |s| > 0 {
      var n := |s| - 1;
      var x := s[n];
      assert x in multiset(t);
      var j :| 0 <= j < |t| && t[j] == x;
      var t' := t[..j] + t[j + 1..];
      RemoveOne(t, j);
      assert s == s[..n] + [x];
      assert multiset(s[..n]) == multiset(s) - multiset{x};
      IntSumOfPermutation(s[..n], t', f);
      IntSumOfRemove(t, j, f);
    }
  }

  /** Taking element `j` out of a sequence lowers its sum by that element. */
  lemma {:induction false} IntSumOfRemove<T>(t: seq<T>, j: nat, f: T -> int)
    requires j < |t|
    ensures IntSumOf(t, f) == IntSumOf(t[..j] + t[j + 1..], f) + f(t[j])
    decreases |t|
  {
    var n := |t| - 1;
    if j == n {
      assert t[..j] + t[j + 1..] == t[..n];
    } else {
      IntSumOfRemove(t[..n], j, f);
      assert t[..n][..j] + t[..n][j + 1..] == (t[..j] + t[j + 1..])[..n - 1];
      assert (t[..j] + t[j + 1..])[n - 1] == t[n];
    }
  }

  lemma {:induction false} SumOfRemove<T>(t: seq<T>, j: nat, f: T -> real)
    requires j < |t|
    ensures SumOf(t, f) == SumOf(t[..j] + t[j + 1..], f) + f(t[j])
    decreases |t|
  {
    var n := |t| - 1;
    if j == n {
      assert t[..j] + t[j + 1..] == t[..n];
    } else {
      SumOfRemove(t[..n], j, f);
      assert t[..n][..j] + t[..n][j + 1..] == (t[..j] + t[j + 1..])[..n - 1];
      assert (t[..j] + t[j + 1..])[n - 1] == t[n];
    }
  }

  lemma {:induction false} SumOfPermutation<T>(s: seq<T>, t: seq<T>, f: T -> real)
    requires multiset(s) == multiset(t)
    ensures SumOf(s, f) == SumOf(t, f)
    decreases |s|
  {
    if |s| > 0 {
      var n := |s| - 1;
      var x := s[n];
      assert x in multiset(t);
      var j :| 0 <= j < |t| && t[j] == x;
      var t' := t[..j] + t[j + 1..];
      RemoveOne(t, j);
      assert s == s[..n] + [x];
      assert multiset(s[..n]) == multiset(s) - multiset{x};
      SumOfPermutation(s[..n], t', f);
      SumOfRemove(t, j, f);
    }
  }

  /** Removing position `j` removes one copy of `t[j]` from the multiset. */
  lemma RemoveOne<T>(t: seq<T>, j: nat)
    requires j < |t|
    ensures multiset(t[..j] + t[j + 1..]) == multiset(t) - multiset{t[j]}
  {
    var t' := t[..j] + t[j + 1..];
    assert t == t[..j] + [t[j]] + t[j + 1..];
    assert multiset(t) == multiset(t[..j]) + multiset{t[j]} + multiset(t[j + 1..]);
  }

  /** The constant 1: counting is summing ones. */
  function One<T>(x: T): int {
    1
  }

  lemma {:induction false} IntSumOfOne<T>(s: seq<T>)
    ensures IntSumOf(s, One) == |s|
  {
    if |s| > 0 {
      IntSumOfOne(s[..|s| - 1]);
    }
  }

  // ---------------------------------------------------------------- filters

  /** The elements of `s` that satisfy `p`, in order: a `where` clause or
      `Array.prototype.filter`. */
  function Filter<T>(s: seq<T>, p: T -> bool): (r: seq<T>)
    ensures |r| <= |s|
    ensures forall i :: 0 <= i < |r| ==> p(r[i])
    ensures forall i :: 0 <= i < |r| ==> r[i] in s
    ensures forall i :: 0 <= i < |s| && p(s[i]) ==> s[i] in r
  {
    if |s| == 0 then []
    else
      var n := |s| - 1;
      var r := Filter(s[..n], p) + (if p(s[n]) then [s[n]] else []);
      assert forall i :: 0 <= i < n ==> s[..n][i] == s[i];
      r
  }

  /** Filtering by a predicate and by its negation splits `s` in two. */
  lemma {:induction false} FilterPartition<T>(s: seq<T>, p: T -> bool, q: T -> bool)
    requires forall x :: q(x) == !p(x)
    ensures |Filter(s, p)| + |Filter(s, q)| == |s|
  {
    if |s| > 0 {
      FilterPartition(s[..|s| - 1], p, q);
    }
  }

  /** The two halves of that split are, between them, exactly `s`. */
  lemma {:induction false} FilterComplement<T>(s: seq<T>, p: T -> bool, q: T -> bool)
    requires forall x :: q(x) == !p(x)
    ensures multiset(Filter(s, p)) + multiset(Filter(s, q)) == multiset(s)
  {
    if |s| == 0 {
      assert Filter(s, p) == [] && Filter(s, q) == [];
    } else {
      var n := |s| - 1;
      FilterComplement(s[..n], p, q);
      FilterSnoc(s, p);
      FilterSnoc(s, q);
      MultisetSnoc(s);
      assert q(s[n]) == !p(s[n]);
    }
  }

  /** One more element adds itself to the filter's multiset when it passes. */
  lemma FilterSnoc<T>(s: seq<T>, p: T -> bool)
    requires |s| > 0
    ensures multiset(Filter(s, p)) ==
      multiset(Filter(s[..|s| - 1], p)) + if p(s[|s| - 1]) then multiset{s[|s| - 1]} else multiset{}
  {
  }

  lemma MultisetSnoc<T>(s: seq<T>)
    requires |s| > 0
    ensures multiset(s) == multiset(s[..|s| - 1]) + multiset{s[|s| - 1]}
  {
    assert s == s[..|s| - 1] + [s[|s| - 1]];
  }

  /** A filter that no element passes keeps nothing. */
  lemma {:induction false} FilterNone<T>(s: seq<T>, p: T -> bool)
    requires forall i :: 0 <= i < |s| ==> !p(s[i])
    ensures Filter(s, p) == []
  {
    if |s| > 0 {
      FilterNone(s[..|s| - 1], p);
    }
  }

  /** A filter that every element passes keeps everything. */
  lemma {:induction false} FilterAll<T>(s: seq<T>, p: T -> bool)
    requires forall i :: 0 <= i < |s| ==> p(s[i])
    ensures Filter(s, p) == s
  {
    if |s| > 0 {
      var n := |s| - 1;
      FilterAll(s[..n], p);
      assert s == s[..n] + [s[n]];
    }
  }

  /** Counting the elements that pass a filter is summing its indicator. */
  lemma {:induction false} CountAsSum<T>(s: seq<T>, p: T -> bool, ind: T -> int)
    requires forall x :: ind(x) == if p(x) then 1 else 0
    ensures |Filter(s, p)| == IntSumOf(s, ind)
  {
    if |s| > 0 {
      CountAsSum(s[..|s| - 1], p, ind);
    }
  }

  // ---------------------------------------------------------------- distinctness

  /** No two elements of `s` agree on `f`. */
  ghost predicate DistinctBy<T, K>(s: seq<T>, f: T -> K) {
    forall i, j :: 0 <= i < j < |s| ==> f(s[i]) != f(s[j])
  }

  /** When no two elements agree on `f`, each element occurs once. */
  lemma OccursOnce<T, K>(s: seq<T>, f: T -> K, p: nat)
    requires DistinctBy(s, f) && p < |s|
    ensures multiset(s)[s[p]] == 1
  {
    assert s == s[..p] + [s[p]] + s[p + 1..];
    assert s[p] !in s[..p] by {
      forall q | 0 <= q < p ensures s[..p][q] != s[p] { assert f(s[q]) != f(s[p]); }
    }
    assert s[p] !in s[p + 1..] by {
      forall q | p < q < |s| ensures s[q] != s[p] { assert f(s[q]) != f(s[p]); }
    }
    assert multiset(s) == multiset(s[..p]) + multiset{s[p]} + multiset(s[p + 1..]);
  }

  /** Reordering keeps the elements pairwise distinct on `f`. */
  lemma DistinctByPermutation<T, K>(s: seq<T>, t: seq<T>, f: T -> K)
    requires multiset(s) == multiset(t) && DistinctBy(s, f)
    ensures DistinctBy(t, f)
  {
    forall i, j | 0 <= i < j < |t| ensures f(t[i]) != f(t[j]) {
      if f(t[i]) == f(t[j]) {
        assert t[i] in multiset(s) && t[j] in multiset(s);
        var p :| 0 <= p < |s| && s[p] == t[i];
        var q :| 0 <= q < |s| && s[q] == t[j];
        if p == q {
          assert t == t[..j] + [t[j]] + t[j + 1..];
          assert t[i] in t[..j];
          assert multiset(t)[t[j]] >= 2 by {
            assert multiset(t) == multiset(t[..j]) + multiset{t[j]} + multiset(t[j + 1..]);
            assert t[j] in multiset(t[..j]);
          }
          OccursOnce(s, f, p);
          assert false;
        } else {
          assert false;
        }
      }
    }
  }

  // ---------------------------------------------------------------- sorting

  /** `s` is in non-increasing order of `key`. */
  ghost predicate SortedDesc<T>(s: seq<T>, key: T -> int) {
    forall i, j :: 0 <= i < j < |s| ==> key(s[i]) >= key(s[j])
  }

  /** Inserts `x` before the first element with a smaller key. */
  function InsertDesc<T>(x: T, s: seq<T>, key: T -> int): (r: seq<T>)
    requires SortedDesc(s, key)
    ensures SortedDesc(r, key)
    ensures multiset(r) == multiset(s) + multiset{x}
  {
    if |s| == 0 then [x]
    else if key(x) >= key(s[0]) then
      SortedCons(x, s, key);
      [x] + s
    else
      var rest := InsertDesc(x, s[1..], key);
      assert forall i :: 0 <= i < |s[1..]| ==> key(s[1..][i]) <= key(s[0]) by {
        forall i | 0 <= i < |s[1..]| ensures key(s[1..][i]) <= key(s[0]) {
          assert s[1..][i] == s[i + 1];
        }
      }
      BoundedByElements(rest, s[1..], x, key, key(s[0]));
      assert |rest| > 0;
      SortedCons(s[0], rest, key);
      assert s == [s[0]] + s[1..];
      [s[0]] + rest
  }

  /** Putting an element in front of a sorted sequence keeps it sorted
      when no element ranks above it. */
  lemma SortedCons<T>(y: T, r: seq<T>, key: T -> int)
    requires SortedDesc(r, key)
    requires |r| == 0 || key(y) >= key(r[0])
    ensures SortedDesc([y] + r, key)
  {
    var t := [y] + r;
    forall i, j | 0 <= i < j < |t| ensures key(t[i]) >= key(t[j]) {
      if i == 0 {
        assert t[j] == r[j - 1];
      } else {
        assert t[i] == r[i - 1] && t[j] == r[j - 1];
      }
    }
  }

  /** Every element of `r` is bounded when `r` holds just `x` and the
      elements of `s`, and all of those are. */
  lemma BoundedByElements<T>(r: seq<T>, s: seq<T>, x: T, key: T -> int, b: int)
    requires multiset(r) == multiset(s) + multiset{x}
    requires key(x) <= b && forall i :: 0 <= i < |s| ==> key(s[i]) <= b
    ensures forall i :: 0 <= i < |r| ==> key(r[i]) <= b
  {
    forall i | 0 <= i < |r| ensures key(r[i]) <= b {
      var y := r[i];
      assert y in multiset(r);
      if y != x {
        assert y in multiset(s);
        var m :| 0 <= m < |s| && s[m] == y;
      }
    }
  }

  /** A stable sort into non-increasing order of `key`: what `sort((a, b) =>
      key(b) - key(a))` yields. */
  function SortDesc<T>(s: seq<T>, key: T -> int): (r: seq<T>)
    ensures SortedDesc(r, key)
    ensures multiset(r) == multiset(s) && |r| == |s|
  {
    if |s| == 0 then []
    else
      assert s == [s[0]] + s[1..];
      InsertDesc(s[0], SortDesc(s[1..], key), key)
  }

  /** Sorted with no two keys equal is strictly decreasing. */
  lemma SortedDistinct<T>(s: seq<T>, key: T -> int)
    requires SortedDesc(s, key) && DistinctBy(s, key)
    ensures forall i, j :: 0 <= i < j < |s| ==> key(s[i]) > key(s[j])
  {
  }

  /** `slice(0, n)`. */
  function Take<T>(s: seq<T>, n: nat): (r: seq<T>)
    ensures |r| <= n && |r| <= |s|
    ensures |s| <= n ==> r == s
    ensures r == s[..|r|]
  {
    if n < |s| then s[..n] else s
  }

  /** Cutting a sorted sequence keeps a sorted, distinct prefix, and every
      element cut off ranks no higher than any element kept. */
  lemma TakeSorted<T, K>(s: seq<T>, key: T -> int, f: T -> K, n: nat)
    requires SortedDesc(s, key) && DistinctBy(s, f)
    ensures var t := Take(s, n);
      && SortedDesc(t, key) && DistinctBy(t, f)
      && (|t| < n ==> t == s)
      && forall x :: x in s ==> x in t || forall i :: 0 <= i < |t| ==> key(t[i]) >= key(x)
  {
    var t := Take(s, n);
    assert forall i :: 0 <= i < |t| ==> t[i] == s[i];
    forall x | x in s ensures x in t || forall i :: 0 <= i < |t| ==> key(t[i]) >= key(x) {
      var k :| 0 <= k < |s| && s[k] == x;
      if k < |t| {
        assert t[k] == x;
      }
    }
  }

  // ---------------------------------------------------------------- keyed accumulators

  /** One entry of an object used as a dictionary. */
  datatype Slot<K, V> = Slot(key: K, val: V)

  ghost predicate DistinctKeys<K, V>(slots: seq<Slot<K, V>>) {
    forall i, j :: 0 <= i < j < |slots| ==> slots[i].key != slots[j].key
  }

  /** The keys present, as a set. */
  function KeySet<K, V>(slots: seq<Slot<K, V>>): set<K> {
    set i | 0 <= i < |slots| :: slots[i].key
  }

  /** Where key `k` is stored, if anywhere (`acc[k]`). */
  function Find<K(==), V>(slots: seq<Slot<K, V>>, k: K): (r: Option<nat>)
    ensures r.Some? ==> r.value < |slots| && slots[r.value].key == k
    ensures r.None? <==> k !in KeySet(slots)
  {
    if |slots| == 0 then None
    else if slots[0].key == k then Some(0)
    else match Find(slots[1..], k)
      case None =>
        assert KeySet(slots) == KeySet(slots[1..]) + {slots[0].key} by {
          forall x | x in KeySet(slots) ensures x in KeySet(slots[1..]) + {slots[0].key} {
            var i :| 0 <= i < |slots| && slots[i].key == x;
            if i > 0 { assert slots[1..][i - 1].key == x; }
          }
        }
        None
      case Some(j) => Some(j + 1)
  }

  /** With distinct keys, each entry occurs once. */
  lemma DistinctKeysOccurOnce<K, V>(s: seq<Slot<K, V>>, p: nat)
    requires DistinctKeys(s) && p < |s|
    ensures multiset(s)[s[p]] == 1
  {
    assert s == s[..p] + [s[p]] + s[p + 1..];
    assert s[p] !in s[..p] by {
      forall q | 0 <= q < p ensures s[..p][q] != s[p] { assert s[q].key != s[p].key; }
    }
    assert s[p] !in s[p + 1..] by {
      forall q | p < q < |s| ensures s[q] != s[p] { assert s[q].key != s[p].key; }
    }
    assert multiset(s) == multiset(s[..p]) + multiset{s[p]} + multiset(s[p + 1..]);
  }

  /** Reordering a dictionary's entries keeps its keys distinct and its key set. */
  lemma DistinctKeysPermutation<K, V>(s: seq<Slot<K, V>>, t: seq<Slot<K, V>>)
    requires multiset(s) == multiset(t) && DistinctKeys(s)
    ensures DistinctKeys(t) && KeySet(t) == KeySet(s)
  {
    forall i, j | 0 <= i < j < |t| ensures t[i].key != t[j].key {
      if t[i].key == t[j].key {
        assert t[i] in multiset(s) && t[j] in multiset(s);
        var p :| 0 <= p < |s| && s[p] == t[i];
        var q :| 0 <= q < |s| && s[q] == t[j];
        if p == q {
          assert t == t[..j] + [t[j]] + t[j + 1..];
          assert t[i] in t[..j];
          assert multiset(t)[t[j]] >= 2 by {
            assert multiset(t) == multiset(t[..j]) + multiset{t[j]} + multiset(t[j + 1..]);
            assert t[j] in multiset(t[..j]);
          }
          DistinctKeysOccurOnce(s, p);
          assert false;
        } else {
          assert false;
        }
      }
    }
    forall k | k in KeySet(s) ensures k in KeySet(t) {
      var p :| 0 <= p < |s| && s[p].key == k;
      assert s[p] in multiset(t);
      var i :| 0 <= i < |t| && t[i] == s[p];
    }
    forall k | k in KeySet(t) ensures k in KeySet(s) {
      var i :| 0 <= i < |t| && t[i].key == k;
      assert t[i] in multiset(s);
      var p :| 0 <= p < |s| && s[p] == t[i];
    }
  }

  /** `if (!acc[k]) acc[k] = init; acc[k] = upd(acc[k])`: the value stored
      under `k` is updated in place, or appended when `k` is new. */
  function Upsert<K(==), V>(slots: seq<Slot<K, V>>, k: K, init: V, upd: V -> V): seq<Slot<K, V>> {
    match Find(slots, k)
    case Some(j) => slots[j := Slot(k, upd(slots[j].val))]
    case None => slots + [Slot(k, upd(init))]
  }

  /** Upsert keeps keys distinct, adds exactly `k` to the key set, leaves
      every other entry where it was, and stores the updated value under `k`. */
  lemma UpsertShape<K, V>(slots: seq<Slot<K, V>>, k: K, init: V, upd: V -> V)
    requires DistinctKeys(slots)
    ensures var r := Upsert(slots, k, init, upd);
      && DistinctKeys(r)
      && KeySet(r) == KeySet(slots) + {k}
      && |slots| <= |r| <= |slots| + 1
      && (forall i :: 0 <= i < |slots| && slots[i].key != k ==> r[i] == slots[i])
      && (Find(slots, k).Some? ==> |r| == |slots| && r[Find(slots, k).value] == Slot(k, upd(slots[Find(slots, k).value].val)))
      && (Find(slots, k).None? ==> r == slots + [Slot(k, upd(init))])
  {
    var r := Upsert(slots, k, init, upd);
    match Find(slots, k)
    case Some(j) =>
      assert KeySet(r) == KeySet(slots) by {
        forall x | x in KeySet(slots) ensures x in KeySet(r) {
          var i :| 0 <= i < |slots| && slots[i].key == x;
          assert r[i].key == x;
        }
        forall x | x in KeySet(r) ensures x in KeySet(slots) {
          var i :| 0 <= i < |r| && r[i].key == x;
          assert slots[i].key == x;
        }
      }
    case None =>
      assert KeySet(r) == KeySet(slots) + {k} by {
        forall x | x in KeySet(slots) ensures x in KeySet(r) {
          var i :| 0 <= i < |slots| && slots[i].key == x;
          assert r[i].key == x;
        }
        assert r[|slots|].key == k;
        forall x | x in KeySet(r) ensures x in KeySet(slots) + {k} {
          var i :| 0 <= i < |r| && r[i].key == x;
          if i < |slots| { assert slots[i].key == x; }
        }
      }
  }

  /** In a dictionary with distinct keys, `Find` returns the one position of a key. */
  lemma FindDistinct<K, V>(slots: seq<Slot<K, V>>, i: nat)
    requires DistinctKeys(slots) && i < |slots|
    ensures Find(slots, slots[i].key) == Some(i)
  {
  }

  /** With distinct keys there are as many entries as keys. */
  lemma {:induction false} DistinctKeysSize<K, V>(slots: seq<Slot<K, V>>)
    requires DistinctKeys(slots)
    ensures |KeySet(slots)| == |slots|
  {
    if |slots| > 0 {
      var n := |slots| - 1;
      DistinctKeysSize(slots[..n]);
      assert KeySet(slots) == KeySet(slots[..n]) + {slots[n].key} by {
        forall x | x in KeySet(slots) ensures x in KeySet(slots[..n]) + {slots[n].key} {
          var i :| 0 <= i < |slots| && slots[i].key == x;
          if i < n { assert slots[..n][i].key == x; }
        }
        forall x | x in KeySet(slots[..n]) ensures x in KeySet(slots) {
          var i :| 0 <= i < n && slots[..n][i].key == x;
          assert slots[i].key == x;
        }
      }
      assert slots[n].key !in KeySet(slots[..n]);
    }
  }

  // ---------------------------------------------------------------- last write wins

  /** The map a `reduce` builds by writing `val(x)` under `key(x)` for each
      element in turn, so that a later element overwrites an earlier one. */
  function MapOf<T, K(==), V>(s: seq<T>, key: T -> K, val: T -> V): map<K, V> {
    if |s| == 0 then map[]
    else MapOf(s[..|s| - 1], key, val)[key(s[|s| - 1]) := val(s[|s| - 1])]
  }

  /** Element `i` is the last one with key `k`. */
  ghost predicate LastWith<T, K>(s: seq<T>, key: T -> K, k: K, i: int) {
    && 0 <= i < |s|
    && key(s[i]) == k
    && forall j :: i < j < |s| ==> key(s[j]) != k
  }

  /** A key is in the map exactly when some element has it. */
  lemma {:induction false} MapOfKeys<T, K, V>(s: seq<T>, key: T -> K, val: T -> V, k: K)
    ensures k in MapOf(s, key, val) <==> exists i :: 0 <= i < |s| && key(s[i]) == k
  {
    if |s| > 0 {
      var n := |s| - 1;
      MapOfKeys(s[..n], key, val, k);
      assert (exists i :: 0 <= i < |s| && key(s[i]) == k) <==> key(s[n]) == k || exists i :: 0 <= i < n && key(s[..n][i]) == k by {
        if i :| 0 <= i < |s| && key(s[i]) == k {
          if i < n {
            assert key(s[..n][i]) == k;
          }
        }
        if i :| 0 <= i < n && key(s[..n][i]) == k {
          assert key(s[i]) == k;
        }
      }
    }
  }

  /** The value under a key is the value of the last element with that key. */
  lemma {:induction false} MapOfLast<T, K, V>(s: seq<T>, key: T -> K, val: T -> V, k: K)
    ensures forall i :: LastWith(s, key, k, i) ==> k in MapOf(s, key, val) && MapOf(s, key, val)[k] == val(s[i])
  {
    if |s| > 0 {
      var n := |s| - 1;
      MapOfLast(s[..n], key, val, k);
      forall i | LastWith(s, key, k, i) ensures k in MapOf(s, key, val) && MapOf(s, key, val)[k] == val(s[i]) {
        if key(s[n]) != k {
          assert LastWith(s[..n], key, k, i);
        }
      }
    }
  }

  /** A key is in the map exactly when some element has it, and it holds the
      value of the last such element. */
  lemma MapOfLookup<T, K, V>(s: seq<T>, key: T -> K, val: T -> V, k: K)
    ensures k in MapOf(s, key, val) <==> exists i :: 0 <= i < |s| && key(s[i]) == k
    ensures forall i :: LastWith(s, key, k, i) ==> k in MapOf(s, key, val) && MapOf(s, key, val)[k] == val(s[i])
  {
    MapOfKeys(s, key, val, k);
    MapOfLast(s, key, val, k);
  }
}
