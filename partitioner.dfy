/** The environment partitioner: bucket the raw records by (sex, income),
    draw a fixed number of records from each bucket without replacement,
    concatenate the draws in environment order with a parallel array of
    environment ids, and shuffle both arrays with one permutation.

    Randomness is a parameter: `draws[e]` is the permutation of bucket
    positions from which numpy's sampling without replacement takes its
    prefix, and `shuffle` is the permutation applied to the pool. */
module Partitioner {
  import opened Errors
  import opened Indexing
  import opened DataModel

  /** The pool as index arrays: record indices into the raw arrays and the
      environment id of each entry. */
  datatype Pool = Pool(indices: seq<nat>, envs: seq<int>)

  /** Which raw records belong to environment e's bucket. */
  function BucketMask(group: seq<int>, labels: seq<int>, e: nat): (m: seq<bool>)
    requires |group| == |labels| && e < NumEnvs
    ensures |m| == |group|
    ensures forall i :: 0 <= i < |m| ==> m[i] == (group[i] == BucketSex[e] && labels[i] == BucketIncome[e])
  {
    seq(|group|, i requires 0 <= i < |group| => group[i] == BucketSex[e] && labels[i] == BucketIncome[e])
  }

  /** The indices of the records whose group and label are environment e's
      pair, in increasing order. */
  function Bucket(group: seq<int>, labels: seq<int>, e: nat): (r: seq<nat>)
    requires |group| == |labels| && e < NumEnvs
    ensures InBounds(r, |group|) && Distinct(r)
    ensures forall i: nat :: i < |group| ==>
              (i in r <==> group[i] == BucketSex[e] && labels[i] == BucketIncome[e])
    ensures forall i: nat :: i in r ==> i < |group| && EnvOf(group[i], labels[i]) == e
  {
    EnvOfInverse(e, 0, 0);
    Where(BucketMask(group, labels, e))
  }

  /** No record is in two buckets. */
  lemma BucketsDisjoint(group: seq<int>, labels: seq<int>, e1: nat, e2: nat)
    requires |group| == |labels| && e1 < NumEnvs && e2 < NumEnvs && e1 != e2
    ensures forall i: nat :: i in Bucket(group, labels, e1) ==> i !in Bucket(group, labels, e2)
  {
  }

  /** `np.random.choice(bucket, size, replace=False)`: the entries of
      `bucket` at the first `size` positions of the permutation `draw` of
      its positions. It fails when the bucket is
      smaller than the requested size; otherwise it returns `size` entries
      of the bucket, none more often than it occurs there, and the whole
      bucket when the size is exactly the bucket's length. */
  function Subsample(bucket: seq<nat>, size: nat, draw: seq<nat>, e: nat): (r: Result<seq<nat>>)
    requires IsPermutation(draw, |bucket|)
    ensures r.Failure? <==> |bucket| < size
    ensures r.Failure? ==> r.error == InsufficientData(e, |bucket|, size)
    ensures r.Success? ==> |r.value| == size && multiset(r.value) <= multiset(bucket)
    ensures r.Success? && size == |bucket| ==> multiset(r.value) == multiset(bucket)
  {
    if |bucket| < size then Failure(InsufficientData(e, |bucket|, size))
    else
      PermutedContents(bucket, draw);
      assert draw == draw[..size] + draw[size..];
      GatherAppend(bucket, draw[..size], draw[size..]);
      Success(Gather(bucket, draw[..size]))
  }

  /** Where block e starts in the concatenation of the blocks. */
  function Offset(blocks: seq<seq<nat>>, e: nat): nat
    requires e <= |blocks|
  {
    if e == 0 then 0 else Offset(blocks, e - 1) + |blocks[e - 1]|
  }

  /** Offsets of the leading blocks do not depend on the blocks after them. */
  lemma {:induction false} OffsetPrefix(blocks: seq<seq<nat>>, n: nat, e: nat)
    requires e <= n <= |blocks|
    ensures Offset(blocks[..n], e) == Offset(blocks, e)
  {
    if e > 0 {
      OffsetPrefix(blocks, n, e - 1);
    }
  }

  /** Later blocks start no earlier than earlier blocks end. */
  lemma {:induction false} OffsetMonotone(blocks: seq<seq<nat>>, e: nat, e': nat)
    requires e < e' <= |blocks|
    ensures Offset(blocks, e) + |blocks[e]| <= Offset(blocks, e')
  {
    if e + 1 < e' {
      OffsetMonotone(blocks, e, e' - 1);
    }
  }

  /** `np.concatenate` of the drawn blocks in environment order, with a
      parallel array giving every entry of block e the id e. */
  function Combine(blocks: seq<seq<nat>>): (r: Pool)
    ensures |r.indices| == |r.envs| == Offset(blocks, |blocks|)
    ensures forall j :: 0 <= j < |r.envs| ==> 0 <= r.envs[j] < |blocks|
    decreases |blocks|
  {
    if |blocks| == 0 then Pool([], [])
    else
      var n := |blocks| - 1;
      var front := Combine(blocks[..n]);
      OffsetPrefix(blocks, n, n);
      Pool(front.indices + blocks[n], front.envs + Fill(|blocks[n]|, n))
  }

  /** Position j of the combined pool carries the id of the block it came
      from: entry k of block e sits at Offset(blocks, e) + k with id e. */
  lemma {:induction false} CombineAt(blocks: seq<seq<nat>>, e: nat, k: nat)
    requires e < |blocks| && k < |blocks[e]|
    ensures Offset(blocks, e) + k < |Combine(blocks).indices|
    ensures Combine(blocks).indices[Offset(blocks, e) + k] == blocks[e][k]
    ensures Combine(blocks).envs[Offset(blocks, e) + k] == e
    decreases |blocks|
  {
    var n := |blocks| - 1;
    var front := Combine(blocks[..n]);
    OffsetPrefix(blocks, n, n);
    OffsetPrefix(blocks, n, e);
    if e < n {
      CombineAt(blocks[..n], e, k);
      OffsetMonotone(blocks, e, n);
    }
  }

  /** Applies one permutation to the index array and the id array alike:
      every (record, environment) pair of the pool survives, in a new order. */
  function Shuffle(pool: Pool, perm: seq<nat>): (r: Pool)
    requires |pool.indices| == |pool.envs| && IsPermutation(perm, |pool.indices|)
    ensures |r.indices| == |r.envs| == |pool.indices|
    ensures multiset(Zip(r.indices, r.envs)) == multiset(Zip(pool.indices, pool.envs))
    ensures multiset(r.indices) == multiset(pool.indices)
    ensures multiset(r.envs) == multiset(pool.envs)
  {
    PermutedContents(pool.indices, perm);
    PermutedContents(pool.envs, perm);
    PermutedContents(Zip(pool.indices, pool.envs), perm);
    GatherZip(pool.indices, pool.envs, perm);
    Pool(Gather(pool.indices, perm), Gather(pool.envs, perm))
  }

  /** Each pool entry's environment id is one of the four, and the record it
      points to has exactly that environment's sex code and income label. */
  predicate Labelled(group: seq<int>, labels: seq<int>, pool: Pool)
    requires |group| == |labels|
  {
    && |pool.indices| == |pool.envs|
    && InBounds(pool.indices, |group|)
    && forall j :: 0 <= j < |pool.indices| ==>
         && 0 <= pool.envs[j] < NumEnvs
         && group[pool.indices[j]] == BucketSex[pool.envs[j]]
         && labels[pool.indices[j]] == BucketIncome[pool.envs[j]]
  }

  /** Concatenating two labelled pools gives a labelled pool. */
  lemma LabelledAppend(group: seq<int>, labels: seq<int>, a: Pool, b: Pool)
    requires |group| == |labels| && Labelled(group, labels, a) && Labelled(group, labels, b)
    ensures Labelled(group, labels, Pool(a.indices + b.indices, a.envs + b.envs))
  {
  }

  /** Two duplicate-free sequences with nothing in common join into a
      duplicate-free sequence. */
  lemma DistinctJoin(a: seq<nat>, b: seq<nat>)
    requires Distinct(a) && Distinct(b)
    requires forall i, j :: 0 <= i < |a| && 0 <= j < |b| ==> a[i] != b[j]
    ensures Distinct(a + b)
  {
  }

  /** A block drawn without replacement from bucket e, with every entry given
      the id e, is labelled. */
  lemma BlockLabelled(group: seq<int>, labels: seq<int>, block: seq<nat>, e: nat)
    requires |group| == |labels| && e < NumEnvs
    requires multiset(block) <= multiset(Bucket(group, labels, e))
    ensures Labelled(group, labels, Pool(block, Fill(|block|, e)))
    ensures Distinct(block)
  {
    var bucket := Bucket(group, labels, e);
    SubDistinct(block, bucket);
    forall k | 0 <= k < |block|
      ensures block[k] < |group| && group[block[k]] == BucketSex[e] && labels[block[k]] == BucketIncome[e]
    {
      assert block[k] in multiset(bucket);
    }
  }

  /** Blocks drawn without replacement from the buckets in environment order
      combine into a pool whose ids are the environments of the records they
      label, and in which no record occurs twice. */
  lemma {:induction false} CombineSound(group: seq<int>, labels: seq<int>, blocks: seq<seq<nat>>)
    requires |group| == |labels| && |blocks| <= NumEnvs
    requires forall e: nat :: e < |blocks| ==> multiset(blocks[e]) <= multiset(Bucket(group, labels, e))
    ensures Labelled(group, labels, Combine(blocks))
    ensures Distinct(Combine(blocks).indices)
    decreases |blocks|
  {
    if |blocks| > 0 {
      var n := |blocks| - 1;
      var front, block := Combine(blocks[..n]), blocks[n];
      CombineSound(group, labels, blocks[..n]);
      BlockLabelled(group, labels, block, n);
      LabelledAppend(group, labels, front, Pool(block, Fill(|block|, n)));
      assert Combine(blocks) == Pool(front.indices + block, front.envs + Fill(|block|, n));
      forall i, j | 0 <= i < |front.indices| && 0 <= j < |block|
        ensures front.indices[i] != block[j]
      {
        var a, b := front.indices[i], block[j];
        EnvOfInverse(front.envs[i], 0, 0);
        EnvOfInverse(n, 0, 0);
        assert EnvOf(group[a], labels[a]) == front.envs[i] < n;
        assert EnvOf(group[b], labels[b]) == n;
      }
      DistinctJoin(front.indices, block);
    }
  }

  /** Block e contributes exactly its own length to the count of id e. */
  lemma {:induction false} CombineCounts(blocks: seq<seq<nat>>, e: nat)
    ensures multiset(Combine(blocks).envs)[e] == if e < |blocks| then |blocks[e]| else 0
    decreases |blocks|
  {
    if |blocks| > 0 {
      var n := |blocks| - 1;
      CombineCounts(blocks[..n], e);
      FillCount(|blocks[n]|, n, e);
    }
  }

  /** The random inputs of the partitioner fit the buckets they rearrange. */
  predicate ValidDraws(group: seq<int>, labels: seq<int>, draws: seq<seq<nat>>)
    requires |group| == |labels|
  {
    |draws| == NumEnvs &&
    forall e: nat :: e < NumEnvs ==> IsPermutation(draws[e], |Bucket(group, labels, e)|)
  }

  /** Bucket e is too small for its target size. */
  predicate Short(group: seq<int>, labels: seq<int>, e: nat)
    requires |group| == |labels| && e < NumEnvs
  {
    |Bucket(group, labels, e)| < TargetSizes[e]
  }

  /** The first bucket, from environment `from` on, that is too small for its
      target size; NumEnvs when none is. */
  function FirstShort(group: seq<int>, labels: seq<int>, from: nat): (e: nat)
    requires |group| == |labels| && from <= NumEnvs
    ensures from <= e <= NumEnvs
    ensures e < NumEnvs ==> Short(group, labels, e)
    ensures forall e': nat :: from <= e' < e ==> !Short(group, labels, e')
    decreases NumEnvs - from
  {
    if from == NumEnvs then NumEnvs
    else if Short(group, labels, from) then from
    else FirstShort(group, labels, from + 1)
  }

  /** FirstShort from environment 0, written out as the chain of checks. */
  lemma FirstShortChain(group: seq<int>, labels: seq<int>)
    requires |group| == |labels|
    ensures FirstShort(group, labels, 0) ==
      if Short(group, labels, 0) then 0
      else if Short(group, labels, 1) then 1
      else if Short(group, labels, 2) then 2
      else if Short(group, labels, 3) then 3
      else NumEnvs
  {
    assert FirstShort(group, labels, 3) == if Short(group, labels, 3) then 3 else NumEnvs;
    assert FirstShort(group, labels, 2) == if Short(group, labels, 2) then 2 else FirstShort(group, labels, 3);
    assert FirstShort(group, labels, 1) == if Short(group, labels, 1) then 1 else FirstShort(group, labels, 2);
  }

  /** Draws each bucket's subsample in environment order. The draws fail
      exactly when some bucket is smaller than its target size, naming the
      first such bucket; otherwise block e holds TargetSizes[e] records of
      bucket e, none twice. */
  function Draw(group: seq<int>, labels: seq<int>, draws: seq<seq<nat>>): (r: Result<seq<seq<nat>>>)
    requires |group| == |labels| && ValidDraws(group, labels, draws)
    ensures var e := FirstShort(group, labels, 0);
      && (r.Failure? <==> e < NumEnvs)
      && (r.Failure? ==> e < NumEnvs && r.error == InsufficientData(e, |Bucket(group, labels, e)|, TargetSizes[e]))
    ensures r.Success? ==>
      && |r.value| == NumEnvs
      && forall e: nat :: e < NumEnvs ==>
           |r.value[e]| == TargetSizes[e] && multiset(r.value[e]) <= multiset(Bucket(group, labels, e))
  {
    FirstShortChain(group, labels);
    var b0 :- Subsample(Bucket(group, labels, 0), TargetSizes[0], draws[0], 0);
    var b1 :- Subsample(Bucket(group, labels, 1), TargetSizes[1], draws[1], 1);
    var b2 :- Subsample(Bucket(group, labels, 2), TargetSizes[2], draws[2], 2);
    var b3 :- Subsample(Bucket(group, labels, 3), TargetSizes[3], draws[3], 3);
    var blocks := [b0, b1, b2, b3];
    assert forall e: nat :: e < NumEnvs ==>
      |blocks[e]| == TargetSizes[e] && multiset(blocks[e]) <= multiset(Bucket(group, labels, e))
    by {
      forall e: nat | e < NumEnvs
        ensures |blocks[e]| == TargetSizes[e] && multiset(blocks[e]) <= multiset(Bucket(group, labels, e))
      {
        if e == 0 {} else if e == 1 {} else if e == 2 {} else {}
      }
    }
    Success(blocks)
  }

  /** Buckets, subsamples, concatenates and shuffles; fails as Draw does. */
  function Partition(group: seq<int>, labels: seq<int>, draws: seq<seq<nat>>, shuffle: seq<nat>): (r: Result<Pool>)
    requires |group| == |labels| && ValidDraws(group, labels, draws)
    requires IsPermutation(shuffle, PoolSize)
    ensures r.Failure? <==> Draw(group, labels, draws).Failure?
    ensures r.Failure? ==> r.error == Draw(group, labels, draws).error
  {
    var blocks :- Draw(group, labels, draws);
    assert Offset(blocks, NumEnvs) == PoolSize by {
      assert Offset(blocks, 1) == |blocks[0]|;
      assert Offset(blocks, 2) == |blocks[0]| + |blocks[1]|;
      assert Offset(blocks, 3) == |blocks[0]| + |blocks[1]| + |blocks[2]|;
    }
    Success(Shuffle(Combine(blocks), shuffle))
  }

  /** Shuffling keeps a pool labelled, duplicate-free and its per-environment
      counts unchanged. */
  lemma ShuffleSound(group: seq<int>, labels: seq<int>, pool: Pool, perm: seq<nat>)
    requires |group| == |labels| && Labelled(group, labels, pool) && Distinct(pool.indices)
    requires IsPermutation(perm, |pool.indices|)
    ensures Labelled(group, labels, Shuffle(pool, perm))
    ensures Distinct(Shuffle(pool, perm).indices)
  {
    PermutationShape(perm, |pool.indices|);
    DistinctCounts(pool.indices);
    DistinctCounts(Shuffle(pool, perm).indices);
  }

  /** A successful partition yields a pool of exactly PoolSize entries in
      which no record occurs twice, every entry carries the environment of its
      own record, and each environment has exactly its target size. */
  lemma PartitionCorrect(group: seq<int>, labels: seq<int>, draws: seq<seq<nat>>, shuffle: seq<nat>)
    requires |group| == |labels| && ValidDraws(group, labels, draws)
    requires IsPermutation(shuffle, PoolSize)
    ensures Partition(group, labels, draws, shuffle).Success? ==>
      var pool := Partition(group, labels, draws, shuffle).value;
      && |pool.indices| == |pool.envs| == PoolSize
      && Labelled(group, labels, pool)
      && Distinct(pool.indices)
      && forall e: nat :: e < NumEnvs ==> multiset(pool.envs)[e] == TargetSizes[e]
  {
    if Partition(group, labels, draws, shuffle).Success? {
      var blocks := Draw(group, labels, draws).value;
      var pre := Combine(blocks);
      var pool := Partition(group, labels, draws, shuffle).value;
      assert pool == Shuffle(pre, shuffle);
      forall e: nat | e < NumEnvs
        ensures multiset(pre.envs)[e] == TargetSizes[e]
      {
        CombineCounts(blocks, e);
      }
      CombineSound(group, labels, blocks);
      ShuffleSound(group, labels, pre, shuffle);
    }
  }

  /** `features[idx]` and `labels[idx]`: the pool's records with their ids. */
  function PoolRecords(features: seq<Row>, labels: seq<int>, pool: Pool): (r: Split)
    requires |pool.indices| == |pool.envs| && InBounds(pool.indices, |features|) && InBounds(pool.indices, |labels|)
    ensures WellFormed(r) && |r.envs| == |pool.indices|
    ensures HasSexColumn(features) ==> HasSexColumn(r.features)
  {
    Split(Gather(features, pool.indices), Gather(labels, pool.indices), pool.envs)
  }

  /** Pool row j is the raw record the pool's entry j points to, with that
      entry's environment id. */
  lemma PoolRecordsAt(features: seq<Row>, labels: seq<int>, pool: Pool, j: nat)
    requires |pool.indices| == |pool.envs| && InBounds(pool.indices, |features|) && InBounds(pool.indices, |labels|)
    requires j < |pool.indices|
    ensures PoolRecords(features, labels, pool).features[j] == features[pool.indices[j]]
    ensures PoolRecords(features, labels, pool).labels[j] == labels[pool.indices[j]]
    ensures PoolRecords(features, labels, pool).envs[j] == pool.envs[j]
  {
  }

  /** When the group array is the feature vectors' sex column, every pool
      record's id is the environment of its own sex column and label. */
  lemma PoolRecordsConsistent(features: seq<Row>, labels: seq<int>, group: seq<int>, pool: Pool)
    requires |features| == |labels| == |group| && HasSexColumn(features)
    requires Labelled(group, labels, pool)
    ensures (forall i :: 0 <= i < |group| ==> group[i] == features[i][SexColumn]) ==>
              Consistent(PoolRecords(features, labels, pool))
  {
  }

  /** Every pool record's label is the income of the environment it is
      assigned to, whatever the feature vectors hold. */
  lemma PoolRecordsIncome(features: seq<Row>, labels: seq<int>, group: seq<int>, pool: Pool)
    requires |features| == |labels| == |group|
    requires Labelled(group, labels, pool)
    ensures IncomeMatches(PoolRecords(features, labels, pool))
  {
  }

  /** The raw indices `idx` pick out the split's records: row j is raw
      record idx[j], no raw record is picked twice, and each picked record's
      group value is the sex of the environment it is assigned to. */
  predicate DrawnFrom(features: seq<Row>, labels: seq<int>, group: seq<int>, s: Split, idx: seq<nat>)
    requires |features| == |labels| == |group| && WellFormed(s)
  {
    && |idx| == |s.envs| && Distinct(idx) && InBounds(idx, |features|)
    && forall j :: 0 <= j < |idx| ==>
         && s.features[j] == features[idx[j]] && s.labels[j] == labels[idx[j]]
         && 0 <= s.envs[j] < NumEnvs && group[idx[j]] == BucketSex[s.envs[j]]
  }

  /** The partitioner's output as records: `features[idx]`, `labels[idx]`
      and the environment ids. It fails exactly as Partition does. On
      success it holds PoolSize records, each a distinct raw record, with
      TargetSizes[e] of them in each environment e, every label its
      environment's income and every group value its environment's sex; when
      the group array is the sex column every id is its record's
      environment. */
  function PoolSplit(features: seq<Row>, labels: seq<int>, group: seq<int>, draws: seq<seq<nat>>, shuffle: seq<nat>): (r: Result<Split>)
    requires |features| == |labels| == |group| && ValidDraws(group, labels, draws)
    requires IsPermutation(shuffle, PoolSize)
    ensures r.Failure? <==> Partition(group, labels, draws, shuffle).Failure?
    ensures r.Failure? ==> r.error == Partition(group, labels, draws, shuffle).error
    ensures r.Success? ==>
      && WellFormed(r.value) && |r.value.envs| == PoolSize
      && (forall e: nat :: e < NumEnvs ==> multiset(r.value.envs)[e] == TargetSizes[e])
      && IncomeMatches(r.value)
      && (HasSexColumn(features) ==> HasSexColumn(r.value.features))
    ensures r.Success? ==> exists idx: seq<nat> :: DrawnFrom(features, labels, group, r.value, idx)
    ensures r.Success? && HasSexColumn(features) && (forall i :: 0 <= i < |group| ==> group[i] == features[i][SexColumn]) ==>
      Consistent(r.value)
  {
    var pool :- Partition(group, labels, draws, shuffle);
    PartitionCorrect(group, labels, draws, shuffle);
    PoolRecordsSound(features, labels, group, pool);
    Success(PoolRecords(features, labels, pool))
  }

  /** The records of a labelled, repeat-free pool are distinct raw records
      whose labels and group values are their environments' pair. */
  lemma PoolRecordsSound(features: seq<Row>, labels: seq<int>, group: seq<int>, pool: Pool)
    requires |features| == |labels| == |group|
    requires Labelled(group, labels, pool) && Distinct(pool.indices)
    ensures var records := PoolRecords(features, labels, pool);
      && IncomeMatches(records)
      && DrawnFrom(features, labels, group, records, pool.indices)
      && (HasSexColumn(features) && (forall i :: 0 <= i < |group| ==> group[i] == features[i][SexColumn]) ==>
            Consistent(records))
  {
    PoolRecordsIncome(features, labels, group, pool);
    if HasSexColumn(features) {
      PoolRecordsConsistent(features, labels, group, pool);
    }
  }
}
