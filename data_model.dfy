/** The records and splits the preparation produces, and the four
    environments: the cross-product of the census sex code and the binary
    income label, with the fixed subsample size of each. */
module DataModel {

  /** A record's feature vector: education, occupation, weekly hours, sex,
      age. Only the sex column is ever inspected. */
  type Row = seq<int>

  const SexColumn: nat := 3

  /** A persisted split: parallel features, income labels and environment ids. */
  datatype Split = Split(features: seq<Row>, labels: seq<int>, envs: seq<int>)

  /** The three arrays of a split have one entry per record. */
  predicate WellFormed(s: Split) {
    |s.features| == |s.labels| == |s.envs|
  }

  /** Every feature vector has a sex column. */
  predicate HasSexColumn(rows: seq<Row>) {
    forall j :: 0 <= j < |rows| ==> SexColumn < |rows[j]|
  }

  const NumEnvs: nat := 4

  /** Sex codes of the survey (the SEX column and the group array). */
  const Male: int := 1
  const Female: int := 2

  /** Income label values (income above the threshold is 1). */
  const LowIncome: int := 0
  const HighIncome: int := 1

  /** The (sex, income) pair that defines each environment, in the order the
      environments are numbered: 0 male/low, 1 male/high, 2 female/low,
      3 female/high. */
  const BucketSex: seq<int> := [Male, Male, Female, Female]
  const BucketIncome: seq<int> := [LowIncome, HighIncome, LowIncome, HighIncome]

  /** Records drawn from each environment's bucket: deliberately unbalanced. */
  const TargetSizes: seq<nat> := [4000, 16000, 16000, 4000]

  /** Length of the pool: the sum of the target sizes. */
  const PoolSize: nat := TargetSizes[0] + TargetSizes[1] + TargetSizes[2] + TargetSizes[3]

  /** The environment id of a record with the given sex code and income label,
      as the test split is relabelled: the four defined pairs get their own
      id, and any other pair keeps the default id 0. */
  function EnvOf(sex: int, income: int): (e: nat)
    ensures e < NumEnvs
    ensures e != 0 ==> sex == BucketSex[e] && income == BucketIncome[e]
  {
    if sex == Male && income == LowIncome then 0
    else if sex == Male && income == HighIncome then 1
    else if sex == Female && income == LowIncome then 2
    else if sex == Female && income == HighIncome then 3
    else 0
  }

  /** A record has a defined environment when its sex code is 1 or 2 and its
      label is 0 or 1. */
  predicate Defined(sex: int, income: int) {
    (sex == Male || sex == Female) && (income == LowIncome || income == HighIncome)
  }

  /** The id each bucket's block receives in the pool agrees with EnvOf, and
      on the defined pairs EnvOf recovers the pair from the id: the two
      tables are inverse to each other. */
  lemma EnvOfInverse(e: nat, sex: int, income: int)
    requires e < NumEnvs
    ensures EnvOf(BucketSex[e], BucketIncome[e]) == e
    ensures Defined(sex, income) ==>
              (EnvOf(sex, income) == e <==> sex == BucketSex[e] && income == BucketIncome[e])
  {
  }

  /** Undefined pairs silently fall into environment 0 (male, low income). */
  lemma EnvOfDefault(sex: int, income: int)
    requires !Defined(sex, income)
    ensures EnvOf(sex, income) == 0
  {
  }

  /** Every record of the split carries the environment id of its own sex
      column and income label. */
  predicate Consistent(s: Split)
    requires WellFormed(s) && HasSexColumn(s.features)
  {
    forall j :: 0 <= j < |s.envs| ==> s.envs[j] == EnvOf(s.features[j][SexColumn], s.labels[j])
  }

  /** Every record's environment id is one of the four, and its income label
      is that environment's income. */
  predicate IncomeMatches(s: Split)
    requires WellFormed(s)
  {
    forall j :: 0 <= j < |s.envs| ==> 0 <= s.envs[j] < NumEnvs && s.labels[j] == BucketIncome[s.envs[j]]
  }

  /** The split's records as (features, label, environment id) triples. */
  function Records(s: Split): (r: seq<(Row, int, int)>)
    requires WellFormed(s)
    ensures |r| == |s.envs|
    ensures forall j :: 0 <= j < |r| ==> r[j] == (s.features[j], s.labels[j], s.envs[j])
  {
    seq(|s.envs|, j requires 0 <= j < |s.envs| => (s.features[j], s.labels[j], s.envs[j]))
  }
}
