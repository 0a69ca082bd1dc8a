/** Index arithmetic shared by the partitioner and the splitter: the numpy/torch
    operations the preparation code applies to integer index arrays (full index
    ranges, boolean-mask lookups, fancy indexing and permutations), modelled on
    sequences. */
module Indexing {

  /** 0, 1, ..., n-1. */
  function Range(n: nat): (r: seq<nat>)
    ensures |r| == n
    ensures forall j :: 0 <= j < n ==> r[j] == j
  {
    seq(n, j requires 0 <= j < n => j)
  }

  /** Every entry of p is a valid position of a sequence of length n. */
  predicate InBounds(p: seq<nat>, n: nat) {
    forall j :: 0 <= j < |p| ==> p[j] < n
  }

  /** No value occurs twice in s. */
  predicate Distinct<T(==)>(s: seq<T>) {
    forall i, j :: 0 <= i < j < |s| ==> s[i] != s[j]
  }

  /** p rearranges 0, ..., n-1: each position below n occurs exactly once and
      nothing else occurs. This is what np.random.permutation(n) and
      torch.randperm(n) return. */
  predicate IsPermutation(p: seq<nat>, n: nat) {
    multiset(p) == multiset(Range(n))
  }

  /** s[p], numpy/torch fancy indexing: entry j of the result is s[p[j]]. */
  function Gather<T>(s: seq<T>, p: seq<nat>): (r: seq<T>)
    requires InBounds(p, |s|)
    ensures |r| == |p|
    ensures forall j :: 0 <= j < |p| ==> r[j] == s[p[j]]
  {
    seq(|p|, j requires 0 <= j < |p| => s[p[j]])
  }

  /** np.where(mask)[0] / torch.where(mask)[0]: the positions at which mask
      holds, in increasing order, and no others. */
  function Where(mask: seq<bool>): (r: seq<nat>)
    ensures InBounds(r, |mask|)
    ensures forall k :: 0 <= k < |r| ==> mask[r[k]]
    ensures forall i :: 0 <= i < |mask| && mask[i] ==> i in r
    ensures forall a, b :: 0 <= a < b < |r| ==> r[a] < r[b]
  {
    if |mask| == 0 then []
    else Where(mask[..|mask| - 1]) + (if mask[|mask| - 1] then [|mask| - 1] else [])
  }

  /** n copies of v (np.zeros, np.ones, np.full). */
  function Fill<T>(n: nat, v: T): (r: seq<T>)
    ensures |r| == n
    ensures forall j :: 0 <= j < n ==> r[j] == v
  {
    seq(n, _ => v)
  }

  /** Pairs up two parallel arrays. */
  function Zip<A, B>(a: seq<A>, b: seq<B>): (r: seq<(A, B)>)
    requires |a| == |b|
    ensures |r| == |a|
    ensures forall j :: 0 <= j < |a| ==> r[j] == (a[j], b[j])
  {
    seq(|a|, j requires 0 <= j < |a| => (a[j], b[j]))
  }

  // ---------------------------------------------------------------------
  // Multiset facts

  /** Each position below n occurs exactly once in Range(n), nothing else at all. */
  lemma {:induction false} RangeCount(n: nat, x: nat)
    ensures multiset(Range(n))[x] == if x < n then 1 else 0
  {
    if n > 0 {
      RangeCount(n - 1, x);
      assert Range(n) == Range(n - 1) + [n - 1];
    }
  }

  /** n copies of v hold v n times and nothing else. */
  lemma {:induction false} FillCount<T>(n: nat, v: T, x: T)
    ensures multiset(Fill(n, v))[x] == if x == v then n else 0
  {
    if n > 0 {
      FillCount(n - 1, v, x);
      assert Fill(n, v) == Fill(n - 1, v) + [v];
    }
  }

  /** A sequence is duplicate-free exactly when no value occurs in it twice. */
  lemma DistinctCounts<T>(s: seq<T>)
    ensures Distinct(s) <==> forall x :: multiset(s)[x] <= 1
  {
    if Distinct(s) {
      DistinctAtMostOnce(s);
    } else {
      var i, j :| 0 <= i < j < |s| && s[i] == s[j];
      RepeatTwice(s, i, j);
    }
  }

  /** In a duplicate-free sequence every value occurs at most once. */
  lemma {:induction false} DistinctAtMostOnce<T>(s: seq<T>)
    requires Distinct(s)
    ensures forall x :: multiset(s)[x] <= 1
  {
    if |s| > 0 {
      var t := s[..|s| - 1];
      assert s == t + [s[|s| - 1]];
      assert Distinct(t);
      DistinctAtMostOnce(t);
      assert s[|s| - 1] !in t;
    }
  }

  /** A value at two positions occurs at least twice. */
  lemma RepeatTwice<T>(s: seq<T>, i: nat, j: nat)
    requires i < j < |s| && s[i] == s[j]
    ensures multiset(s)[s[i]] >= 2
  {
    assert s == s[..i] + [s[i]] + s[i + 1..j] + [s[j]] + s[j + 1..];
  }

  /** Drawing without replacement from a duplicate-free sequence yields a
      duplicate-free sequence. */
  lemma SubDistinct<T>(a: seq<T>, b: seq<T>)
    requires multiset(a) <= multiset(b) && Distinct(b)
    ensures Distinct(a)
  {
    DistinctCounts(b);
    DistinctCounts(a);
  }

  /** A permutation of 0..n-1 has length n, stays below n and has no repeats. */
  lemma PermutationShape(p: seq<nat>, n: nat)
    requires IsPermutation(p, n)
    ensures |p| == n && InBounds(p, n) && Distinct(p)
  {
    calc {
      |p|;
      |multiset(p)|;
      |multiset(Range(n))|;
      n;
    }
    forall j | 0 <= j < |p|
      ensures p[j] < n
    {
      assert p[j] in multiset(p);
      RangeCount(n, p[j]);
    }
    forall x
      ensures multiset(p)[x] <= 1
    {
      RangeCount(n, x);
    }
    DistinctCounts(p);
  }

  lemma GatherAppend<T>(s: seq<T>, a: seq<nat>, b: seq<nat>)
    requires InBounds(a, |s|) && InBounds(b, |s|)
    ensures InBounds(a + b, |s|)
    ensures Gather(s, a + b) == Gather(s, a) + Gather(s, b)
  {
  }

  /** Indexing by p and then by q is indexing by p[q]. */
  lemma GatherCompose<T>(s: seq<T>, p: seq<nat>, q: seq<nat>)
    requires InBounds(p, |s|) && InBounds(q, |p|)
    ensures InBounds(Gather(p, q), |s|)
    ensures Gather(Gather(s, p), q) == Gather(s, Gather(p, q))
  {
  }

  /** Taking entry k out of an index array takes s[q[k]] out of s[q]. */
  lemma GatherRemove<T>(s: seq<T>, q: seq<nat>, k: nat)
    requires InBounds(q, |s|) && k < |q|
    ensures InBounds(q[..k] + q[k + 1..], |s|)
    ensures multiset(Gather(s, q)) == multiset{s[q[k]]} + multiset(Gather(s, q[..k] + q[k + 1..]))
  {
    assert q == q[..k] + [q[k]] + q[k + 1..];
    GatherAppend(s, q[..k], q[k + 1..]);
    GatherAppend(s, q[..k] + [q[k]], q[k + 1..]);
    GatherAppend(s, q[..k], [q[k]]);
  }

  /** Taking entry k out of q takes one q[k] out of its contents. */
  lemma MultisetRemove<T>(q: seq<T>, k: nat)
    requires k < |q|
    ensures multiset(q[..k] + q[k + 1..]) == multiset(q) - multiset{q[k]}
  {
    assert q == q[..k] + [q[k]] + q[k + 1..];
  }

  /** Index arrays with the same contents are valid for the same sequences. */
  lemma SameContentsInBounds(p: seq<nat>, q: seq<nat>, n: nat)
    requires InBounds(p, n) && multiset(p) == multiset(q)
    ensures InBounds(q, n)
  {
    forall j | 0 <= j < |q|
      ensures q[j] < n
    {
      assert q[j] in multiset(p);
    }
  }

  /** The contents of s[p], counted with multiplicity, depend only on the
      contents of p: rearranging the index array rearranges the result. */
  lemma {:induction false} GatherMultiset<T>(s: seq<T>, p: seq<nat>, q: seq<nat>)
    requires InBounds(p, |s|) && multiset(p) == multiset(q)
    ensures InBounds(q, |s|)
    ensures multiset(Gather(s, p)) == multiset(Gather(s, q))
    decreases |p|
  {
    SameContentsInBounds(p, q, |s|);
    if |p| > 0 {
      var x := p[0];
      assert x in multiset(p);
      assert x in q;
      var k :| 0 <= k < |q| && q[k] == x;
      MultisetRemove(q, k);
      MultisetRemove(p, 0);
      GatherRemove(s, q, k);
      GatherRemove(s, p, 0);
      GatherMultiset(s, p[..0] + p[1..], q[..k] + q[k + 1..]);
    } else {
      assert |q| == |multiset(q)| == 0;
    }
  }

  /** Indexing by a permutation rearranges s: s[perm] has the same contents as s. */
  lemma PermutedContents<T>(s: seq<T>, perm: seq<nat>)
    requires IsPermutation(perm, |s|)
    ensures InBounds(perm, |s|) && |Gather(s, perm)| == |s|
    ensures multiset(Gather(s, perm)) == multiset(s)
  {
    PermutationShape(perm, |s|);
    assert InBounds(Range(|s|), |s|);
    GatherMultiset(s, Range(|s|), perm);
    assert Gather(s, Range(|s|)) == s;
  }

  /** Applying one index array to two parallel arrays moves whole pairs. */
  lemma GatherZip<A, B>(a: seq<A>, b: seq<B>, p: seq<nat>)
    requires |a| == |b| && InBounds(p, |a|)
    ensures Gather(Zip(a, b), p) == Zip(Gather(a, p), Gather(b, p))
  {
  }

  // ---------------------------------------------------------------------
  // Facts about Where

  /** Where on a mask that holds everywhere lists every position. */
  lemma {:induction false} WhereAll(mask: seq<bool>)
    requires forall i :: 0 <= i < |mask| ==> mask[i]
    ensures Where(mask) == Range(|mask|)
  {
    if |mask| > 0 {
      WhereAll(mask[..|mask| - 1]);
      assert Range(|mask|) == Range(|mask| - 1) + [|mask| - 1];
    }
  }

  /** When mask is the disjoint union of m1 and m2, its positions are those of
      m1 together with those of m2. */
  lemma {:induction false} WhereUnion(mask: seq<bool>, m1: seq<bool>, m2: seq<bool>)
    requires |m1| == |mask| && |m2| == |mask|
    requires forall i :: 0 <= i < |mask| ==> mask[i] == (m1[i] || m2[i]) && !(m1[i] && m2[i])
    ensures multiset(Where(mask)) == multiset(Where(m1)) + multiset(Where(m2))
  {
    if |mask| > 0 {
      var n := |mask| - 1;
      WhereUnion(mask[..n], m1[..n], m2[..n]);
    }
  }
}
