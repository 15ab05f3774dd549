/** Sums over sequences, and the partition law the aggregation loops rest on. */
module Sums {

  /** The sum of `w` over the elements whose key is `k`. */
  ghost function KeySum<T, K>(s: seq<T>, key: T -> K, k: K, w: T -> int): int {
    if s == [] then 0 else (if key(s[0]) == k then w(s[0]) else 0) + KeySum(s[1..], key, k, w)
  }

  ghost function Sum<T>(s: seq<T>, w: T -> int): int {
    if s == [] then 0 else w(s[0]) + Sum(s[1..], w)
  }

  /** The sum of `w` over the elements whose key lies in `ks`. */
  ghost function InSum<T, K>(s: seq<T>, key: T -> K, ks: set<K>, w: T -> int): int {
    if s == [] then 0 else (if key(s[0]) in ks then w(s[0]) else 0) + InSum(s[1..], key, ks, w)
  }

  /** The per-key sums added up over a list of keys. */
  ghost function SumOverKeys<T, K>(s: seq<T>, key: T -> K, keys: seq<K>, w: T -> int): int {
    if keys == [] then 0 else KeySum(s, key, keys[0], w) + SumOverKeys(s, key, keys[1..], w)
  }

  ghost predicate Distinct<K>(keys: seq<K>) {
    forall i, j :: 0 <= i < j < |keys| ==> keys[i] != keys[j]
  }

  ghost predicate DistinctKeys<T, K>(s: seq<T>, key: T -> K) {
    forall i, j :: 0 <= i < j < |s| ==> key(s[i]) != key(s[j])
  }

  /** Reordering a list keeps its keys distinct. */
  lemma DistinctKeysPermuted<T, K>(a: seq<T>, b: seq<T>, key: T -> K)
    requires DistinctKeys(a, key) && multiset(a) == multiset(b)
    ensures DistinctKeys(b, key)
  {
    forall i, j | 0 <= i < j < |b| ensures key(b[i]) != key(b[j]) {
      assert b[i] in multiset(a) && b[j] in multiset(a);
      var p :| 0 <= p < |a| && a[p] == b[i];
      var q :| 0 <= q < |a| && a[q] == b[j];
      if p == q {
        Twice(b, i, j);
        Once(a, p, key);
      }
    }
  }

  lemma Twice<T>(b: seq<T>, i: nat, j: nat)
    requires i < j < |b| && b[i] == b[j]
    ensures multiset(b)[b[i]] >= 2
  {
    assert b == b[..j] + [b[j]] + b[j + 1..];
    assert b[i] in b[..j];
  }

  lemma Once<T, K>(a: seq<T>, p: nat, key: T -> K)
    requires p < |a| && DistinctKeys(a, key)
    ensures multiset(a)[a[p]] == 1
  {
    assert a == a[..p] + [a[p]] + a[p + 1..];
    forall i | 0 <= i < |a| && i != p ensures a[i] != a[p] {
      if i < p { assert key(a[i]) != key(a[p]); } else { assert key(a[p]) != key(a[i]); }
    }
    assert a[p] !in a[..p] && a[p] !in a[p + 1..];
  }

  ghost function Elems<K>(keys: seq<K>): set<K> { set k | k in keys }

  lemma {:induction false} SumAppend<T>(a: seq<T>, b: seq<T>, w: T -> int)
    ensures Sum(a + b, w) == Sum(a, w) + Sum(b, w)
  {
    if a == [] {
      assert a + b == b;
    } else {
      SumAppend(a[1..], b, w);
      assert (a + b)[1..] == a[1..] + b;
    }
  }

  lemma {:induction false} KeySumAppend<T, K>(a: seq<T>, b: seq<T>, key: T -> K, k: K, w: T -> int)
    ensures KeySum(a + b, key, k, w) == KeySum(a, key, k, w) + KeySum(b, key, k, w)
  {
    if a == [] {
      assert a + b == b;
    } else {
      KeySumAppend(a[1..], b, key, k, w);
      assert (a + b)[1..] == a[1..] + b;
    }
  }

  /** One more element appended to the list being summed. */
  lemma KeySumSnoc<T, K>(a: seq<T>, x: T, key: T -> K, k: K, w: T -> int)
    ensures KeySum(a + [x], key, k, w) == KeySum(a, key, k, w) + if key(x) == k then w(x) else 0
  {
    KeySumAppend(a, [x], key, k, w);
    assert [x][1..] == [];
  }

  lemma SumSnoc<T>(a: seq<T>, x: T, w: T -> int)
    ensures Sum(a + [x], w) == Sum(a, w) + w(x)
  {
    SumAppend(a, [x], w);
    assert [x][1..] == [];
  }

  lemma SumOfOne<T>(x: T, w: T -> int)
    ensures Sum([x], w) == w(x)
  {
    SumSnoc([], x, w);
    assert [] + [x] == [x];
  }

  lemma {:induction false} SumOverKeysCons<T, K>(s: seq<T>, key: T -> K, keys: seq<K>, w: T -> int)
    requires s != [] && Distinct(keys)
    ensures SumOverKeys(s, key, keys, w)
         == (if key(s[0]) in Elems(keys) then w(s[0]) else 0) + SumOverKeys(s[1..], key, keys, w)
  {
    if keys != [] {
      SumOverKeysCons(s, key, keys[1..], w);
      assert Elems(keys) == {keys[0]} + Elems(keys[1..]);
    }
  }

  /**
   * The partition law: grouping a list by key, summing each group and adding the groups up gives
   * the sum over the elements whose key was listed.
   */
  lemma {:induction false} PartitionSum<T, K>(s: seq<T>, key: T -> K, keys: seq<K>, w: T -> int)
    requires Distinct(keys)
    ensures SumOverKeys(s, key, keys, w) == InSum(s, key, Elems(keys), w)
  {
    if s == [] {
      SumOverKeysEmpty(s, key, keys, w);
    } else {
      SumOverKeysCons(s, key, keys, w);
      PartitionSum(s[1..], key, keys, w);
    }
  }

  lemma {:induction false} SumOverKeysEmpty<T, K>(s: seq<T>, key: T -> K, keys: seq<K>, w: T -> int)
    requires s == []
    ensures SumOverKeys(s, key, keys, w) == 0
  {
    if keys != [] { SumOverKeysEmpty(s, key, keys[1..], w); }
  }

  /** When every key is listed, the groups add up to the whole. */
  lemma {:induction false} InSumAll<T, K>(s: seq<T>, key: T -> K, ks: set<K>, w: T -> int)
    requires forall x :: x in s ==> key(x) in ks
    ensures InSum(s, key, ks, w) == Sum(s, w)
  {
    if s != [] {
      assert s[0] in s;
      InSumAll(s[1..], key, ks, w);
    }
  }

  lemma {:induction false} PartitionTotal<T, K>(s: seq<T>, key: T -> K, keys: seq<K>, w: T -> int)
    requires Distinct(keys)
    requires forall x :: x in s ==> key(x) in keys
    ensures SumOverKeys(s, key, keys, w) == Sum(s, w)
  {
    PartitionSum(s, key, keys, w);
    InSumAll(s, key, Elems(keys), w);
  }

  /** The weight that counts. */
  function Unit<T>(x: T): int { 1 }

  lemma {:induction false} SumOfUnits<T>(s: seq<T>)
    ensures Sum(s, Unit<T>) == |s|
  {
    if s != [] { SumOfUnits(s[1..]); }
  }

  /** Inclusion-exclusion for two key sets. */
  lemma {:induction false} InSumUnion<T, K>(s: seq<T>, key: T -> K, a: set<K>, b: set<K>, w: T -> int)
    ensures InSum(s, key, a, w) + InSum(s, key, b, w) == InSum(s, key, a + b, w) + InSum(s, key, a * b, w)
  {
    if s != [] { InSumUnion(s[1..], key, a, b, w); }
  }

  /** A list of group records whose weights are the per-key sums adds up to those sums. */
  lemma {:induction false} SumOfGroups<T, K, G>(
      s: seq<T>, key: T -> K, w: T -> int, groups: seq<G>, gkey: G -> K, gw: G -> int, keys: seq<K>)
    requires |groups| == |keys|
    requires forall i :: 0 <= i < |groups| ==> gkey(groups[i]) == keys[i]
    requires forall i :: 0 <= i < |groups| ==> gw(groups[i]) == KeySum(s, key, keys[i], w)
    ensures Sum(groups, gw) == SumOverKeys(s, key, keys, w)
  {
    if groups != [] {
      forall i | 0 <= i < |groups[1..]|
        ensures gkey(groups[1..][i]) == keys[1..][i] && gw(groups[1..][i]) == KeySum(s, key, keys[1..][i], w)
      {
        assert groups[1..][i] == groups[i + 1] && keys[1..][i] == keys[i + 1];
      }
      SumOfGroups(s, key, w, groups[1..], gkey, gw, keys[1..]);
    }
  }
}
