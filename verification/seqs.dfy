/** Small facts about sequences shared by the aggregation modules. */
module Seqs {

  /** No element occurs twice. */
  ghost predicate NoDup<T>(xs: seq<T>) {
    forall i, j :: 0 <= i < j < |xs| ==> xs[i] != xs[j]
  }

  /** A prefix of a duplicate-free sequence is duplicate-free. */
  lemma NoDupPrefix<T>(xs: seq<T>, n: nat)
    requires NoDup(xs) && n <= |xs|
    ensures NoDup(xs[..n])
  {
  }

  /** `a` is an initial segment of `b`. */
  ghost predicate IsPrefix<T>(a: seq<T>, b: seq<T>) {
    |a| <= |b| && a == b[..|a|]
  }

  /** Sequences with the same multiset have the same elements. */
  lemma InSeqMultiset<T>(y: T, s: seq<T>, s': seq<T>)
    requires multiset(s) == multiset(s')
    ensures y in s <==> y in s'
  {
    assert y in s <==> y in multiset(s);
    assert y in s' <==> y in multiset(s');
  }

  /** An element at two positions occurs at least twice. */
  lemma {:induction false} MultisetTwo<T>(s: seq<T>, i: nat, j: nat)
    requires i < j < |s| && s[i] == s[j]
    ensures multiset(s)[s[i]] >= 2
  {
    assert s == s[..i] + [s[i]] + s[i + 1..j] + [s[j]] + s[j + 1..];
  }
}
