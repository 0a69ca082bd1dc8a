/** The test split is not drawn from the pool: it is the sibling synthetic
    dataset's test split, kept record for record, with its environment ids
    thrown away and recomputed from each record's sex column and income
    label. */
module TestRemap {
  import opened Errors
  import opened DataModel

  /** Fills a fresh array of zeros with the environment id of every test
      record. The Python code's if-chain has no final else: a record whose
      (sex, income) pair is none of the four keeps the initial 0. */
  method RemapTestEnvs(features: seq<Row>, labels: seq<int>) returns (envs: array<int>)
    requires |labels| == |features| && HasSexColumn(features)
    ensures fresh(envs) && envs.Length == |features|
    ensures forall i :: 0 <= i < envs.Length ==> envs[i] == EnvOf(features[i][SexColumn], labels[i])
  {
    envs := new int[|features|](_ => 0);
    for i := 0 to |features|
      invariant forall k :: 0 <= k < i ==> envs[k] == EnvOf(features[k][SexColumn], labels[k])
      invariant forall k :: i <= k < envs.Length ==> envs[k] == 0
    {
      var gender := features[i][SexColumn];
      var income := labels[i];
      if gender == Male && income == LowIncome {
        envs[i] := 0;
      } else if gender == Male && income == HighIncome {
        envs[i] := 1;
      } else if gender == Female && income == LowIncome {
        envs[i] := 2;
      } else if gender == Female && income == HighIncome {
        envs[i] := 3;
      }
    }
  }

  /** Takes over the sibling dataset's test split, which must exist. On
      success the features and labels are the sibling's, unchanged, and
      every record carries the environment of its own sex and income: a
      record with a defined pair lands in exactly the environment whose
      bucket has that pair. */
  method ReconcileTest(sibling: Option<Split>) returns (r: Result<Split>)
    requires sibling.Some? ==> WellFormed(sibling.value) && HasSexColumn(sibling.value.features)
    ensures r.Failure? <==> sibling.None?
    ensures r.Failure? ==> r.error == MissingTestData
    ensures r.Success? ==>
      && WellFormed(r.value) && HasSexColumn(r.value.features)
      && r.value.features == sibling.value.features
      && r.value.labels == sibling.value.labels
      && Consistent(r.value)
      && forall j :: 0 <= j < |r.value.envs| ==> 0 <= r.value.envs[j] < NumEnvs
    ensures r.Success? ==> forall j :: 0 <= j < |r.value.envs| && Defined(r.value.features[j][SexColumn], r.value.labels[j]) ==>
      && BucketSex[r.value.envs[j]] == r.value.features[j][SexColumn]
      && BucketIncome[r.value.envs[j]] == r.value.labels[j]
  {
    if sibling.None? {
      return Failure(MissingTestData);
    }
    var test := sibling.value;
    var envs := RemapTestEnvs(test.features, test.labels);
    r := Success(Split(test.features, test.labels, envs[..]));
    forall j | 0 <= j < envs.Length && Defined(test.features[j][SexColumn], test.labels[j])
      ensures BucketSex[envs[j]] == test.features[j][SexColumn] && BucketIncome[envs[j]] == test.labels[j]
    {
      EnvOfInverse(envs[j], test.features[j][SexColumn], test.labels[j]);
    }
  }
}
