/** The stratified splitter: within each environment present in the pool,
    shuffle that environment's pool positions, send the first int(0.8 * n)
    of them to train and the rest to validation, then concatenate the parts
    of all environments and shuffle each side once more.

    Randomness is a parameter: `localPerms[e]` is the permutation applied to
    environment e's positions, `trainPerm` and `valPerm` the final shuffles. */
module Splitter {
  import opened Indexing
  import opened DataModel

  /** int(0.8 * n): how many of an environment's n pool records go to train.
      The double 0.8 lies slightly above 4/5, so the product never rounds
      below n * 4 / 5 and the truncation equals this floor division. */
  function TrainCount(n: nat): nat {
    n * 4 / 5
  }

  /** Number of pool entries whose environment id is e. */
  function EnvCount(envs: seq<int>, e: int): nat {
    multiset(envs)[e]
  }

  /** The mask `env_labels == e`. */
  function EnvMask(envs: seq<int>, e: int): (m: seq<bool>)
    ensures |m| == |envs|
    ensures forall i :: 0 <= i < |envs| ==> m[i] == (envs[i] == e)
  {
    seq(|envs|, i requires 0 <= i < |envs| => envs[i] == e)
  }

  /** The positions whose environment id lies in 0 .. e-1. */
  function BelowMask(envs: seq<int>, e: int): (m: seq<bool>)
    ensures |m| == |envs|
    ensures forall i :: 0 <= i < |envs| ==> m[i] == (0 <= envs[i] < e)
  {
    seq(|envs|, i requires 0 <= i < |envs| => 0 <= envs[i] < e)
  }

  /** `torch.where(env_labels == e)[0]`: every pool position of environment
      e, each once and in increasing order; there are EnvCount(envs, e) of
      them. */
  function EnvPositions(envs: seq<int>, e: int): (r: seq<nat>)
    ensures InBounds(r, |envs|) && Distinct(r)
    ensures |r| == EnvCount(envs, e)
    ensures forall k :: 0 <= k < |r| ==> envs[r[k]] == e
    ensures forall i :: 0 <= i < |envs| ==> (i in r <==> envs[i] == e)
    ensures forall a, b :: 0 <= a < b < |r| ==> r[a] < r[b]
  {
    EnvPositionsLength(envs, e);
    Where(EnvMask(envs, e))
  }

  lemma {:induction false} EnvPositionsLength(envs: seq<int>, e: int)
    ensures |Where(EnvMask(envs, e))| == multiset(envs)[e]
  {
    if |envs| > 0 {
      var n := |envs| - 1;
      assert EnvMask(envs, e)[..n] == EnvMask(envs[..n], e);
      EnvPositionsLength(envs[..n], e);
      assert envs == envs[..n] + [envs[n]];
    }
  }

  /** Adding environment e to the environments below it adds its positions. */
  lemma BelowStep(envs: seq<int>, e: nat)
    ensures multiset(Where(BelowMask(envs, e + 1)))
         == multiset(Where(BelowMask(envs, e))) + multiset(Where(EnvMask(envs, e)))
  {
    WhereUnion(BelowMask(envs, e + 1), BelowMask(envs, e), EnvMask(envs, e));
  }

  lemma {:induction false} WhereNone(mask: seq<bool>)
    requires forall i :: 0 <= i < |mask| ==> !mask[i]
    ensures Where(mask) == []
  {
    if |mask| > 0 {
      WhereNone(mask[..|mask| - 1]);
    }
  }

  /** Entries that all point at environment e contribute only to e's count. */
  lemma SameEnvCounts(envs: seq<int>, part: seq<nat>, e: int, x: int)
    requires InBounds(part, |envs|)
    requires forall k :: 0 <= k < |part| ==> envs[part[k]] == e
    ensures multiset(Gather(envs, part))[x] == if x == e then |part| else 0
  {
    assert Gather(envs, part) == Fill(|part|, e);
    FillCount(|part|, e, x);
  }

  /** Train records summed over environments 0 .. e-1. */
  function TrainTotal(envs: seq<int>, e: nat): nat {
    if e == 0 then 0 else TrainTotal(envs, e - 1) + TrainCount(EnvCount(envs, e - 1))
  }

  /** Validation records summed over environments 0 .. e-1. */
  function ValTotal(envs: seq<int>, e: nat): nat {
    if e == 0 then 0 else ValTotal(envs, e - 1) + (EnvCount(envs, e - 1) - TrainCount(EnvCount(envs, e - 1)))
  }

  /** Per-environment train sizes: int(0.8 * n) of each environment's n records. */
  function TrainWanted(envs: seq<int>): (w: seq<nat>)
    ensures |w| == NumEnvs
  {
    seq(NumEnvs, k requires 0 <= k < NumEnvs => TrainCount(EnvCount(envs, k)))
  }

  /** Per-environment validation sizes: the rest of each environment. */
  function ValWanted(envs: seq<int>): (w: seq<nat>)
    ensures |w| == NumEnvs
  {
    seq(NumEnvs, k requires 0 <= k < NumEnvs => EnvCount(envs, k) - TrainCount(EnvCount(envs, k)))
  }

  /** The parts hold wanted[k] entries of each environment k below e and
      none of the others. */
  predicate CountsBelow(envs: seq<int>, parts: seq<nat>, e: nat, wanted: seq<nat>)
    requires InBounds(parts, |envs|) && |wanted| == NumEnvs
  {
    forall k: nat :: k < NumEnvs ==> multiset(Gather(envs, parts))[k] == if k < e then wanted[k] else 0
  }

  /** After handling environments 0 .. e-1: the parts hold exactly the
      positions of those environments, int(0.8 * n) of each in train and the
      rest in validation. */
  predicate SplitSoFar(envs: seq<int>, e: nat, trainParts: seq<nat>, valParts: seq<nat>) {
    && InBounds(trainParts, |envs|) && InBounds(valParts, |envs|)
    && |trainParts| == TrainTotal(envs, e) && |valParts| == ValTotal(envs, e)
    && multiset(trainParts + valParts) == multiset(Where(BelowMask(envs, e)))
    && CountsBelow(envs, trainParts, e, TrainWanted(envs))
    && CountsBelow(envs, valParts, e, ValWanted(envs))
  }

  /** A part drawn from environment e's positions lies in environment e. */
  lemma PartOfEnv(envs: seq<int>, e: nat, trainPart: seq<nat>, valPart: seq<nat>)
    requires multiset(trainPart + valPart) == multiset(EnvPositions(envs, e))
    ensures |trainPart| + |valPart| == EnvCount(envs, e)
    ensures InBounds(trainPart, |envs|) && InBounds(valPart, |envs|)
    ensures forall k :: 0 <= k < |trainPart| ==> envs[trainPart[k]] == e
    ensures forall k :: 0 <= k < |valPart| ==> envs[valPart[k]] == e
  {
    var both := trainPart + valPart;
    forall k | 0 <= k < |both|
      ensures both[k] < |envs| && envs[both[k]] == e
    {
      assert both[k] in multiset(EnvPositions(envs, e));
    }
    assert forall k :: 0 <= k < |trainPart| ==> trainPart[k] == both[k];
    assert forall k :: 0 <= k < |valPart| ==> valPart[k] == both[|trainPart| + k];
    assert |both| == |multiset(both)| == |multiset(EnvPositions(envs, e))|;
  }

  /** Appending wanted[e] entries of environment e extends the counts from
      the environments below e to those below e + 1. */
  lemma CountsStep(envs: seq<int>, parts: seq<nat>, part: seq<nat>, e: nat, wanted: seq<nat>)
    requires e < NumEnvs && |wanted| == NumEnvs
    requires InBounds(parts, |envs|) && InBounds(part, |envs|)
    requires CountsBelow(envs, parts, e, wanted)
    requires forall k :: 0 <= k < |part| ==> envs[part[k]] == e
    requires |part| == wanted[e]
    ensures InBounds(parts + part, |envs|)
    ensures CountsBelow(envs, parts + part, e + 1, wanted)
  {
    AppendPart(envs, parts, part, e);
  }

  /** Appending environment e's train and validation parts extends the
      split from environments 0 .. e-1 to 0 .. e. */
  lemma SplitStep(envs: seq<int>, e: nat, trainParts: seq<nat>, valParts: seq<nat>, trainPart: seq<nat>, valPart: seq<nat>)
    requires e < NumEnvs
    requires SplitSoFar(envs, e, trainParts, valParts)
    requires multiset(trainPart + valPart) == multiset(EnvPositions(envs, e))
    requires |trainPart| == TrainCount(EnvCount(envs, e))
    ensures SplitSoFar(envs, e + 1, trainParts + trainPart, valParts + valPart)
  {
    PartOfEnv(envs, e, trainPart, valPart);
    CountsStep(envs, trainParts, trainPart, e, TrainWanted(envs));
    CountsStep(envs, valParts, valPart, e, ValWanted(envs));
    BelowStep(envs, e);
    assert multiset(trainParts + trainPart + (valParts + valPart))
        == multiset(trainParts + valParts) + multiset(trainPart + valPart);
  }

  /** Cutting a sequence in two and putting the halves back together gives it back. */
  lemma TakeDrop<T>(s: seq<T>, k: nat)
    requires k <= |s|
    ensures s[..k] + s[k..] == s
  {
  }

  /** One environment's share of the split: its pool positions, reordered by
      `perm`, the first int(0.8 * n) to train and the rest to validation. */
  method SplitEnvironment(envs: seq<int>, e: int, perm: seq<nat>) returns (trainPart: seq<nat>, valPart: seq<nat>)
    requires IsPermutation(perm, EnvCount(envs, e))
    ensures |trainPart| == TrainCount(EnvCount(envs, e))
    ensures multiset(trainPart + valPart) == multiset(EnvPositions(envs, e))
  {
    var positions := EnvPositions(envs, e);
    var n := |positions|;
    var trainSize := TrainCount(n);
    PermutedContents(positions, perm);
    var shuffled := Gather(positions, perm);
    trainPart := shuffled[..trainSize];
    valPart := shuffled[trainSize..];
    TakeDrop(shuffled, trainSize);
  }

  /** Splits the pool positions, environment by environment, into train and
      validation positions. Together they are every pool position exactly
      once, and each environment with n pool records has exactly
      int(0.8 * n) of them in train and the rest in validation. The pool
      must not be empty: with no environment present there are no parts to
      concatenate, and `torch.cat` rejects an empty list. */
  method StratifiedSplit(envs: seq<int>, localPerms: seq<seq<nat>>, trainPerm: seq<nat>, valPerm: seq<nat>)
    returns (train: seq<nat>, val: seq<nat>)
    requires |envs| > 0
    requires forall j :: 0 <= j < |envs| ==> 0 <= envs[j] < NumEnvs
    requires |localPerms| == NumEnvs
    requires forall e: nat :: e < NumEnvs ==> IsPermutation(localPerms[e], EnvCount(envs, e))
    requires IsPermutation(trainPerm, TrainTotal(envs, NumEnvs))
    requires IsPermutation(valPerm, ValTotal(envs, NumEnvs))
    ensures InBounds(train, |envs|) && InBounds(val, |envs|)
    ensures |train| == TrainTotal(envs, NumEnvs) && |val| == ValTotal(envs, NumEnvs)
    ensures multiset(train + val) == multiset(Range(|envs|))
    ensures forall e: nat :: e < NumEnvs ==>
              && multiset(Gather(envs, train))[e] == TrainCount(EnvCount(envs, e))
              && multiset(Gather(envs, val))[e] == EnvCount(envs, e) - TrainCount(EnvCount(envs, e))
  {
    var trainParts: seq<nat> := [];
    var valParts: seq<nat> := [];
    SplitStart(envs);
    for e := 0 to NumEnvs
      invariant SplitSoFar(envs, e, trainParts, valParts)
    {
      // torch.unique lists only the environments present in the pool
      var trainPart: seq<nat> := [];
      var valPart: seq<nat> := [];
      if EnvCount(envs, e) > 0 {
        trainPart, valPart := SplitEnvironment(envs, e, localPerms[e]);
      }
      SplitStep(envs, e, trainParts, valParts, trainPart, valPart);
      trainParts := trainParts + trainPart;
      valParts := valParts + valPart;
    }
    SplitDone(envs, trainParts, valParts, trainPerm, valPerm);
    train := Gather(trainParts, trainPerm);
    val := Gather(valParts, valPerm);
  }

  /** Before any environment is handled, both sides are empty. */
  lemma SplitStart(envs: seq<int>)
    ensures SplitSoFar(envs, 0, [], [])
  {
    WhereNone(BelowMask(envs, 0));
  }

  /** Once every environment is handled, the parts hold every pool position,
      and reordering each side keeps that and the per-environment counts. */
  lemma SplitDone(envs: seq<int>, trainParts: seq<nat>, valParts: seq<nat>, trainPerm: seq<nat>, valPerm: seq<nat>)
    requires forall j :: 0 <= j < |envs| ==> 0 <= envs[j] < NumEnvs
    requires SplitSoFar(envs, NumEnvs, trainParts, valParts)
    requires IsPermutation(trainPerm, TrainTotal(envs, NumEnvs))
    requires IsPermutation(valPerm, ValTotal(envs, NumEnvs))
    ensures InBounds(trainPerm, |trainParts|) && InBounds(valPerm, |valParts|)
    ensures var train, val := Gather(trainParts, trainPerm), Gather(valParts, valPerm);
      && InBounds(train, |envs|) && InBounds(val, |envs|)
      && |train| == TrainTotal(envs, NumEnvs) && |val| == ValTotal(envs, NumEnvs)
      && multiset(train + val) == multiset(Range(|envs|))
      && forall e: nat :: e < NumEnvs ==>
           && multiset(Gather(envs, train))[e] == TrainCount(EnvCount(envs, e))
           && multiset(Gather(envs, val))[e] == EnvCount(envs, e) - TrainCount(EnvCount(envs, e))
  {
    PermuteParts(envs, trainParts, trainPerm);
    PermuteParts(envs, valParts, valPerm);
    var train, val := Gather(trainParts, trainPerm), Gather(valParts, valPerm);
    AllBelow(envs);
    SameUnion(train, val, trainParts, valParts);
    DoneCounts(envs, trainParts, train, TrainWanted(envs));
    DoneCounts(envs, valParts, val, ValWanted(envs));
  }

  /** Rearranging each of two sequences keeps the contents of their concatenation. */
  lemma SameUnion(a: seq<nat>, b: seq<nat>, a': seq<nat>, b': seq<nat>)
    requires multiset(a) == multiset(a') && multiset(b) == multiset(b')
    ensures multiset(a + b) == multiset(a' + b')
  {
  }

  /** A side with the per-environment contents of the finished parts has
      the wanted count of every environment. */
  lemma DoneCounts(envs: seq<int>, parts: seq<nat>, side: seq<nat>, wanted: seq<nat>)
    requires |wanted| == NumEnvs && InBounds(parts, |envs|) && InBounds(side, |envs|)
    requires CountsBelow(envs, parts, NumEnvs, wanted)
    requires multiset(Gather(envs, side)) == multiset(Gather(envs, parts))
    ensures forall e: nat :: e < NumEnvs ==> multiset(Gather(envs, side))[e] == wanted[e]
  {
  }

  /** When every id lies in 0 .. NumEnvs-1, the positions of all
      environments are all the pool positions. */
  lemma AllBelow(envs: seq<int>)
    requires forall j :: 0 <= j < |envs| ==> 0 <= envs[j] < NumEnvs
    ensures Where(BelowMask(envs, NumEnvs)) == Range(|envs|)
  {
    assert BelowMask(envs, NumEnvs) == Fill(|envs|, true);
    WhereAll(BelowMask(envs, NumEnvs));
  }

  /** Appending a part whose positions all belong to environment e adds its
      length to e's count and nothing to any other. */
  lemma AppendPart(envs: seq<int>, parts: seq<nat>, part: seq<nat>, e: int)
    requires InBounds(parts, |envs|) && InBounds(part, |envs|)
    requires forall k :: 0 <= k < |part| ==> envs[part[k]] == e
    ensures InBounds(parts + part, |envs|)
    ensures forall x :: multiset(Gather(envs, parts + part))[x]
                     == multiset(Gather(envs, parts))[x] + (if x == e then |part| else 0)
  {
    GatherAppend(envs, parts, part);
    forall x
      ensures multiset(Gather(envs, parts + part))[x]
           == multiset(Gather(envs, parts))[x] + (if x == e then |part| else 0)
    {
      SameEnvCounts(envs, part, e, x);
    }
  }

  /** The final shuffle of one side changes neither its positions nor its
      per-environment counts. */
  lemma PermuteParts(envs: seq<int>, parts: seq<nat>, perm: seq<nat>)
    requires InBounds(parts, |envs|) && IsPermutation(perm, |parts|)
    ensures InBounds(perm, |parts|)
    ensures |Gather(parts, perm)| == |parts| && InBounds(Gather(parts, perm), |envs|)
    ensures multiset(Gather(parts, perm)) == multiset(parts)
    ensures multiset(Gather(envs, Gather(parts, perm))) == multiset(Gather(envs, parts))
  {
    PermutedContents(parts, perm);
    GatherCompose(envs, parts, perm);
    PermutedContents(Gather(envs, parts), perm);
  }

  /** Positions that together are every pool position exactly once: train
      and validation share none, neither repeats one, every pool position is
      in one of them, and their sizes add up to the pool's. */
  lemma SplitCoversPool(train: seq<nat>, val: seq<nat>, n: nat)
    requires multiset(train + val) == multiset(Range(n))
    ensures |train| + |val| == n
    ensures Distinct(train) && Distinct(val)
    ensures forall i, j :: 0 <= i < |train| && 0 <= j < |val| ==> train[i] != val[j]
    ensures forall p: nat :: p < n ==> p in train || p in val
  {
    PermutationShape(train + val, n);
    assert forall i :: 0 <= i < |train| ==> (train + val)[i] == train[i];
    assert forall j :: 0 <= j < |val| ==> (train + val)[|train| + j] == val[j];
    forall p: nat | p < n
      ensures p in train || p in val
    {
      RangeCount(n, p);
      assert p in multiset(train + val);
    }
  }

  /** Every pool record ends up in train or validation exactly once: the two
      selections together hold the pool's records with their multiplicities. */
  lemma SplitKeepsRecords<T>(records: seq<T>, train: seq<nat>, val: seq<nat>)
    requires InBounds(train, |records|) && InBounds(val, |records|)
    requires multiset(train + val) == multiset(Range(|records|))
    ensures multiset(Gather(records, train)) + multiset(Gather(records, val)) == multiset(records)
  {
    GatherAppend(records, train, val);
    assert InBounds(Range(|records|), |records|);
    GatherMultiset(records, Range(|records|), train + val);
    assert Gather(records, Range(|records|)) == records;
  }

  /** `(features[idx], labels[idx], envs[idx])`: the pool records at the given
      positions. Selecting keeps every record's environment id consistent
      with its own sex column and label, and with its label alone, when the
      pool's ids are. */
  function Select(pool: Split, positions: seq<nat>): (r: Split)
    requires WellFormed(pool) && InBounds(positions, |pool.envs|)
    ensures WellFormed(r) && |r.envs| == |positions|
    ensures HasSexColumn(pool.features) ==> HasSexColumn(r.features)
    ensures HasSexColumn(pool.features) && Consistent(pool) ==> Consistent(r)
    ensures IncomeMatches(pool) ==> IncomeMatches(r)
  {
    Split(Gather(pool.features, positions), Gather(pool.labels, positions), Gather(pool.envs, positions))
  }

  /** Selecting positions of a split selects those positions' records. */
  lemma SelectRecords(pool: Split, positions: seq<nat>)
    requires WellFormed(pool) && InBounds(positions, |pool.envs|)
    ensures InBounds(positions, |Records(pool)|)
    ensures Records(Select(pool, positions)) == Gather(Records(pool), positions)
  {
  }

  /** The splitter applied to the pool's records: lines them up by the
      positions StratifiedSplit chooses. Train and validation together hold
      every pool record exactly once, with the per-environment counts of
      StratifiedSplit, and every record keeps the environment id it had. */
  method SplitRecords(pool: Split, localPerms: seq<seq<nat>>, trainPerm: seq<nat>, valPerm: seq<nat>)
    returns (train: Split, val: Split)
    requires WellFormed(pool) && |pool.envs| > 0
    requires forall j :: 0 <= j < |pool.envs| ==> 0 <= pool.envs[j] < NumEnvs
    requires |localPerms| == NumEnvs
    requires forall e: nat :: e < NumEnvs ==> IsPermutation(localPerms[e], EnvCount(pool.envs, e))
    requires IsPermutation(trainPerm, TrainTotal(pool.envs, NumEnvs))
    requires IsPermutation(valPerm, ValTotal(pool.envs, NumEnvs))
    ensures WellFormed(train) && WellFormed(val)
    ensures |train.envs| == TrainTotal(pool.envs, NumEnvs) && |val.envs| == ValTotal(pool.envs, NumEnvs)
    ensures forall e: nat :: e < NumEnvs ==>
              && multiset(train.envs)[e] == TrainCount(EnvCount(pool.envs, e))
              && multiset(val.envs)[e] == EnvCount(pool.envs, e) - TrainCount(EnvCount(pool.envs, e))
    ensures multiset(Records(train)) + multiset(Records(val)) == multiset(Records(pool))
    ensures HasSexColumn(pool.features) ==> HasSexColumn(train.features) && HasSexColumn(val.features)
    ensures HasSexColumn(pool.features) && Consistent(pool) ==> Consistent(train) && Consistent(val)
    ensures IncomeMatches(pool) ==> IncomeMatches(train) && IncomeMatches(val)
  {
    var trainIdx, valIdx := StratifiedSplit(pool.envs, localPerms, trainPerm, valPerm);
    train := Select(pool, trainIdx);
    val := Select(pool, valIdx);
    SelectRecords(pool, trainIdx);
    SelectRecords(pool, valIdx);
    SplitKeepsRecords(Records(pool), trainIdx, valIdx);
  }
}
