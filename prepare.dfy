/** The whole preparation of the four-environment dataset, and the choice of
    split a dataset object serves. The raw census arrays, every random draw
    and the sibling dataset's test split are inputs; the three splits that
    would be saved are the output. */
module Prepare {
  import opened Errors
  import opened Indexing
  import opened DataModel
  import opened Partitioner
  import opened Splitter
  import opened TestRemap

  /** The three splits the preparation saves. */
  datatype Prepared = Prepared(train: Split, val: Split, test: Split)

  /** Records of the pool that go to train: int(0.8 * n) of each environment. */
  const TrainSplitSize: nat :=
    TrainCount(TargetSizes[0]) + TrainCount(TargetSizes[1]) + TrainCount(TargetSizes[2]) + TrainCount(TargetSizes[3])

  /** Records of the pool that go to validation: the rest. */
  const ValSplitSize: nat := PoolSize - TrainSplitSize

  /** With each environment at its target size, the splitter's train and
      validation totals are the fixed split sizes. */
  lemma SplitTotals(envs: seq<int>)
    requires forall e: nat :: e < NumEnvs ==> EnvCount(envs, e) == TargetSizes[e]
    ensures TrainTotal(envs, NumEnvs) == TrainSplitSize
    ensures ValTotal(envs, NumEnvs) == ValSplitSize
    ensures TrainSplitSize == 32000 && ValSplitSize == 8000 && PoolSize == 40000
  {
    assert EnvCount(envs, 0) == TargetSizes[0] && EnvCount(envs, 1) == TargetSizes[1];
    assert EnvCount(envs, 2) == TargetSizes[2] && EnvCount(envs, 3) == TargetSizes[3];
    assert TrainTotal(envs, 1) == TrainCount(TargetSizes[0]);
    assert TrainTotal(envs, 2) == TrainTotal(envs, 1) + TrainCount(TargetSizes[1]);
    assert TrainTotal(envs, 3) == TrainTotal(envs, 2) + TrainCount(TargetSizes[2]);
    assert ValTotal(envs, 1) == TargetSizes[0] - TrainCount(TargetSizes[0]);
    assert ValTotal(envs, 2) == ValTotal(envs, 1) + (TargetSizes[1] - TrainCount(TargetSizes[1]));
    assert ValTotal(envs, 3) == ValTotal(envs, 2) + (TargetSizes[2] - TrainCount(TargetSizes[2]));
  }

  /** The splitter on a pool the partitioner produced: train gets
      int(0.8 * n) of each environment's n = TargetSizes[e] records and
      validation the rest, together every pool record once, and labels and
      ids keep agreeing as they did in the pool. */
  method SplitPool(pool: Split, localPerms: seq<seq<nat>>, trainPerm: seq<nat>, valPerm: seq<nat>)
    returns (train: Split, val: Split)
    requires WellFormed(pool) && IncomeMatches(pool)
    requires forall e: nat :: e < NumEnvs ==> multiset(pool.envs)[e] == TargetSizes[e]
    requires |localPerms| == NumEnvs
    requires forall e: nat :: e < NumEnvs ==> IsPermutation(localPerms[e], TargetSizes[e])
    requires IsPermutation(trainPerm, TrainSplitSize) && IsPermutation(valPerm, ValSplitSize)
    ensures WellFormed(train) && WellFormed(val)
    ensures |train.envs| == TrainSplitSize && |val.envs| == ValSplitSize
    ensures forall e: nat :: e < NumEnvs ==>
              && multiset(train.envs)[e] == TrainCount(TargetSizes[e])
              && multiset(val.envs)[e] == TargetSizes[e] - TrainCount(TargetSizes[e])
    ensures IncomeMatches(train) && IncomeMatches(val)
    ensures multiset(Records(train)) + multiset(Records(val)) == multiset(Records(pool))
    ensures HasSexColumn(pool.features) ==> HasSexColumn(train.features) && HasSexColumn(val.features)
    ensures HasSexColumn(pool.features) && Consistent(pool) ==> Consistent(train) && Consistent(val)
  {
    SplitTotals(pool.envs);
    assert 0 in multiset(pool.envs);
    train, val := SplitRecords(pool, localPerms, trainPerm, valPerm);
  }

  /** Builds the train, validation and test splits. It fails, with the first
      short bucket, when an environment's bucket is smaller than its target
      size, and otherwise, when the sibling test split is missing. On success
      train and validation together hold every pool record exactly once,
      each environment contributes int(0.8 * n) of its n records to train
      and the rest to validation, every label is its environment's income,
      and the test split is the sibling's records relabelled. */
  method Prepare(features: seq<Row>, labels: seq<int>, group: seq<int>, draws: seq<seq<nat>>, shuffle: seq<nat>,
                 localPerms: seq<seq<nat>>, trainPerm: seq<nat>, valPerm: seq<nat>, sibling: Option<Split>)
    returns (r: Result<Prepared>)
    requires |features| == |labels| == |group| && HasSexColumn(features)
    requires ValidDraws(group, labels, draws) && IsPermutation(shuffle, PoolSize)
    requires |localPerms| == NumEnvs
    requires forall e: nat :: e < NumEnvs ==> IsPermutation(localPerms[e], TargetSizes[e])
    requires IsPermutation(trainPerm, TrainSplitSize) && IsPermutation(valPerm, ValSplitSize)
    requires sibling.Some? ==> WellFormed(sibling.value) && HasSexColumn(sibling.value.features)
    ensures var pool := PoolSplit(features, labels, group, draws, shuffle);
      && (r.Failure? <==> pool.Failure? || sibling.None?)
      && (pool.Failure? ==> r.Failure? && r.error == pool.error)
      && (pool.Success? && sibling.None? ==> r.Failure? && r.error == MissingTestData)
    ensures r.Success? ==>
      var p := r.value;
      && WellFormed(p.train) && WellFormed(p.val) && WellFormed(p.test)
      && HasSexColumn(p.train.features) && HasSexColumn(p.val.features)
      && |p.train.envs| == TrainSplitSize && |p.val.envs| == ValSplitSize
      && (forall e: nat :: e < NumEnvs ==>
            && multiset(p.train.envs)[e] == TrainCount(TargetSizes[e])
            && multiset(p.val.envs)[e] == TargetSizes[e] - TrainCount(TargetSizes[e]))
      && IncomeMatches(p.train) && IncomeMatches(p.val)
      && multiset(Records(p.train)) + multiset(Records(p.val))
         == multiset(Records(PoolSplit(features, labels, group, draws, shuffle).value))
      && sibling.Some?
      && p.test.features == sibling.value.features && p.test.labels == sibling.value.labels
      && HasSexColumn(p.test.features) && Consistent(p.test)
    ensures r.Success? && (forall i :: 0 <= i < |group| ==> group[i] == features[i][SexColumn]) ==>
      Consistent(r.value.train) && Consistent(r.value.val)
  {
    var records :- PoolSplit(features, labels, group, draws, shuffle);
    var train, val := SplitPool(records, localPerms, trainPerm, valPerm);
    var test :- ReconcileTest(sibling);
    return Success(Prepared(train, val, test));
  }

  /** The split a dataset object serves, chosen by its `env` argument. */
  datatype Part = Train | Val | Test | AllTrain

  /** The `env` argument that selects each split. */
  function PartName(p: Part): string {
    match p
    case Train => "train"
    case Val => "val"
    case Test => "test"
    case AllTrain => "all_train"
  }

  /** The check on the `env` argument: the four known names select their
      split, and any other name is rejected with the name in the error. */
  function ParseEnv(name: string): (r: Result<Part>)
    ensures r.Success? <==> name in ["train", "val", "test", "all_train"]
    ensures r.Success? ==> PartName(r.value) == name
    ensures r.Failure? ==> r.error == UnknownEnv(name)
  {
    if name == "train" then Success(Train)
    else if name == "val" then Success(Val)
    else if name == "test" then Success(Test)
    else if name == "all_train" then Success(AllTrain)
    else Failure(UnknownEnv(name))
  }

  /** Every split is selected by its own name and by no other. */
  lemma ParseEnvRoundTrip(p: Part, name: string)
    ensures ParseEnv(PartName(p)) == Success(p)
    ensures ParseEnv(name) == Success(p) <==> name == PartName(p)
  {
  }
}
