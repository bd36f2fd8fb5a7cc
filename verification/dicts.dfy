/**
 * Python's `dict` as the aggregation scripts use it: a mapping whose keys
 * remember the order in which they were first inserted. Assigning to an
 * existing key keeps its position; a new key goes to the end. Iteration,
 * `.items()` and `.keys()` follow that order.
 */
module Dicts {
  import opened Seqs

  datatype Dict<K(==), V> = Dict(keys: seq<K>, entries: map<K, V>) {

    /** The keys are distinct and are exactly the keys of the mapping. */
    ghost predicate Valid() {
      && NoDup(keys)
      && entries.Keys == set k | k in keys
    }

    /** `d.get(k, default)` */
    function Get(k: K, default: V): V {
      if k in entries then entries[k] else default
    }

    /** `d[k] = v` */
    function Set(k: K, v: V): (d: Dict<K, V>)
      requires Valid()
      ensures d.Valid()
      ensures d.entries == entries[k := v]
      ensures k in entries ==> d.keys == keys
      ensures k !in entries ==> d.keys == keys + [k]
    {
      if k in entries then Dict(keys, entries[k := v]) else Dict(keys + [k], entries[k := v])
    }

    /** `list(d.items())`: the key/value pairs in insertion order. */
    function Items(): (items: seq<(K, V)>)
      requires Valid()
      ensures |items| == |keys|
      ensures forall i :: 0 <= i < |items| ==> items[i].0 == keys[i] && items[i].1 == entries[keys[i]]
    {
      seq(|keys|, i requires 0 <= i < |keys| => (keys[i], entries[keys[i]]))
    }
  }

  /** A pair is among the items iff its key is present with that value. */
  lemma ItemsHas<K, V>(d: Dict<K, V>, k: K, v: V)
    requires d.Valid()
    ensures (k, v) in d.Items() <==> k in d.entries && d.entries[k] == v
  {
    var items := d.Items();
    if k in d.entries {
      var i :| 0 <= i < |d.keys| && d.keys[i] == k;
      assert items[i] == (k, d.entries[k]);
    }
  }

  /** `{}` */
  function Empty<K(==), V>(): (d: Dict<K, V>)
    ensures d.Valid() && |d.keys| == 0 && d.entries == map[]
  {
    Dict([], map[])
  }

  /** The first components of a sequence of pairs. */
  function KeysOf<K, V>(ps: seq<(K, V)>): (ks: seq<K>)
    ensures |ks| == |ps|
    ensures forall i :: 0 <= i < |ps| ==> ks[i] == ps[i].0
  {
    seq(|ps|, i requires 0 <= i < |ps| => ps[i].0)
  }

  /** `dict(pairs)`: assign the pairs from left to right. */
  function FromItems<K(==), V>(ps: seq<(K, V)>): (d: Dict<K, V>)
    ensures d.Valid()
    ensures |d.keys| <= |ps|
  {
    if |ps| == 0 then Empty()
    else FromItems(ps[..|ps| - 1]).Set(ps[|ps| - 1].0, ps[|ps| - 1].1)
  }

  /** Dropping the last pair keeps the keys distinct, and the last key is new to the rest. */
  lemma {:induction false} KeysOfLast<K, V>(ps: seq<(K, V)>)
    requires |ps| > 0 && NoDup(KeysOf(ps))
    ensures NoDup(KeysOf(ps[..|ps| - 1]))
    ensures KeysOf(ps) == KeysOf(ps[..|ps| - 1]) + [ps[|ps| - 1].0]
    ensures forall i :: 0 <= i < |ps| - 1 ==> ps[i].0 != ps[|ps| - 1].0
  {
    var n := |ps| - 1;
    assert KeysOf(ps[..n]) == KeysOf(ps)[..n];
    NoDupPrefix(KeysOf(ps), n);
    forall i | 0 <= i < n ensures ps[i].0 != ps[n].0 {
      assert KeysOf(ps)[i] != KeysOf(ps)[n];
    }
  }

  /** With distinct keys, `dict(pairs)` keeps every pair, in order. */
  lemma {:induction false} FromItemsContents<K, V>(ps: seq<(K, V)>)
    requires NoDup(KeysOf(ps))
    ensures FromItems(ps).keys == KeysOf(ps)
    ensures forall i :: 0 <= i < |ps| ==> FromItems(ps).entries[ps[i].0] == ps[i].1
  {
    if |ps| > 0 {
      var n := |ps| - 1;
      KeysOfLast(ps);
      FromItemsContents(ps[..n]);
      var d := FromItems(ps[..n]);
      assert ps[n].0 !in d.keys;
      assert FromItems(ps) == d.Set(ps[n].0, ps[n].1);
    }
  }

  /** Round trip: `list(dict(pairs).items()) == pairs` when the keys are distinct. */
  lemma {:induction false} FromItemsRoundTrip<K, V>(ps: seq<(K, V)>)
    requires NoDup(KeysOf(ps))
    ensures FromItems(ps).Items() == ps
  {
    FromItemsContents(ps);
    var items := FromItems(ps).Items();
    assert forall i :: 0 <= i < |ps| ==> items[i] == ps[i];
  }

  /** The value at `k`, where an absent key counts as zero. */
  function At<K(==)>(m: map<K, int>, k: K): int {
    if k in m then m[k] else 0
  }

  /** The sum of the values `m` holds at the keys `ks`, absent keys counting as zero. */
  function SumAt<K(==)>(ks: seq<K>, m: map<K, int>): int {
    if |ks| == 0 then 0 else SumAt(ks[..|ks| - 1], m) + At(m, ks[|ks| - 1])
  }

  /** `sum(d.values())` */
  function Total<K(==)>(d: Dict<K, int>): int {
    SumAt(d.keys, d.entries)
  }

  /** Changing the value at one key changes a sum over distinct keys by exactly that difference. */
  lemma {:induction false} SumAtUpdate<K>(ks: seq<K>, m: map<K, int>, k: K, v: int)
    requires NoDup(ks)
    ensures SumAt(ks, m[k := v]) == SumAt(ks, m) + (if k in ks then v - At(m, k) else 0)
  {
    if |ks| > 0 {
      var n := |ks| - 1;
      NoDupPrefix(ks, n);
      SumAtUpdate(ks[..n], m, k, v);
      assert ks == ks[..n] + [ks[n]];
      if ks[n] == k {
        assert k !in ks[..n];
      }
    }
  }

  /** Removing one key lowers a sum over distinct keys by that key's value, if it was summed. */
  lemma {:induction false} SumAtRemove<K>(ks: seq<K>, m: map<K, int>, k: K)
    requires NoDup(ks)
    ensures SumAt(ks, m) == SumAt(ks, m - {k}) + (if k in ks then At(m, k) else 0)
  {
    if |ks| > 0 {
      var n := |ks| - 1;
      NoDupPrefix(ks, n);
      SumAtRemove(ks[..n], m, k);
      assert ks == ks[..n] + [ks[n]];
      if ks[n] == k {
        assert k !in ks[..n];
      }
    }
  }

  /** A sum over keys none of which is in the map is zero. */
  lemma {:induction false} SumAtMissing<K>(ks: seq<K>, m: map<K, int>)
    requires forall k :: k in ks ==> k !in m
    ensures SumAt(ks, m) == 0
  {
    if |ks| > 0 {
      SumAtMissing(ks[..|ks| - 1], m);
    }
  }

  /**
   * The sum of a map's values does not depend on the order of the keys:
   * any two duplicate-free key sequences that both cover the map agree.
   */
  lemma {:induction false} SumAtCover<K>(ts: seq<K>, ks: seq<K>, m: map<K, int>)
    requires NoDup(ts) && NoDup(ks)
    requires forall k :: k in m ==> k in ts && k in ks
    ensures SumAt(ts, m) == SumAt(ks, m)
    decreases |m|
  {
    if |m| == 0 {
      SumAtMissing(ts, m);
      SumAtMissing(ks, m);
    } else {
      var k :| k in m;
      SumAtRemove(ts, m, k);
      SumAtRemove(ks, m, k);
      assert (m - {k}).Keys == m.Keys - {k};
      SumAtCover(ts, ks, m - {k});
    }
  }

  /** `d[k] = v` changes `sum(d.values())` by the difference at `k` and nothing else. */
  lemma TotalSet<K>(d: Dict<K, int>, k: K, v: int)
    requires d.Valid()
    ensures Total(d.Set(k, v)) == Total(d) - At(d.entries, k) + v
  {
    SumAtUpdate(d.keys, d.entries, k, v);
    if k !in d.entries {
      var ks := d.keys + [k];
      assert ks[..|ks| - 1] == d.keys;
    }
  }

  /** A permutation of a sequence with distinct keys has distinct keys. */
  lemma PermutationKeys<K, V>(xs: seq<(K, V)>, r: seq<(K, V)>)
    requires NoDup(KeysOf(xs)) && multiset(r) == multiset(xs)
    ensures NoDup(KeysOf(r))
  {
    forall i, j | 0 <= i < j < |r| ensures r[i].0 != r[j].0 {
      DistinctPositions(xs, r, i, j);
    }
  }

  /** Two positions of such a permutation carry different keys. */
  lemma DistinctPositions<K, V>(xs: seq<(K, V)>, r: seq<(K, V)>, i: nat, j: nat)
    requires NoDup(KeysOf(xs)) && multiset(r) == multiset(xs)
    requires i < j < |r|
    ensures r[i].0 != r[j].0
  {
    InSeqMultiset(r[i], r, xs);
    InSeqMultiset(r[j], r, xs);
    var p :| 0 <= p < |xs| && xs[p] == r[i];
    var q :| 0 <= q < |xs| && xs[q] == r[j];
    if p == q {
      MultisetTwo(r, i, j);
      MultisetOnce(xs, p);
    } else {
      assert KeysOf(xs)[p] != KeysOf(xs)[q];
    }
  }

  /** With distinct keys, every pair occurs exactly once. */
  lemma {:induction false} MultisetOnce<K, V>(s: seq<(K, V)>, p: nat)
    requires p < |s| && NoDup(KeysOf(s))
    ensures multiset(s)[s[p]] == 1
  {
    assert s == s[..p] + [s[p]] + s[p + 1..];
    assert s[p] !in s[..p] by {
      forall i | 0 <= i < p ensures s[i] != s[p] { assert KeysOf(s)[i] != KeysOf(s)[p]; }
    }
    assert s[p] !in s[p + 1..] by {
      forall i | p < i < |s| ensures s[i] != s[p] { assert KeysOf(s)[i] != KeysOf(s)[p]; }
    }
  }
}
