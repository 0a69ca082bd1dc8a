# Four-environment synthetic Folktables: environment construction and resampling

This project models, in Dafny, how the four-environment Folktables dataset
prepares its splits (`prepare_four_env_folktables` and the `env` check of the
dataset constructor in `src/datasets/four_env_synthetic_folktables.py`). It
then proves what that preparation promises.

The preparation is modelled in four stages:

- **Partitioner** (`partitioner.dfy`). Raw census records are bucketed by
  (sex code, income label) into four environments: 0 male/low, 1 male/high,
  2 female/low, 3 female/high. Each bucket is subsampled without replacement
  to a fixed, deliberately unbalanced size (4000, 16000, 16000, 4000). The
  blocks are concatenated in environment order with a parallel array of
  environment ids, and the combined pool is shuffled. A bucket smaller than
  its target size makes the preparation fail.
- **Stratified splitter** (`splitter.dfy`). For each environment present in
  the pool, its pool positions are shuffled. The first int(0.8 * n) go to
  train and the rest to validation. Each side is then concatenated and
  shuffled once more. This is an imperative `method` with a loop invariant.
- **Test remapper** (`test_remap.dfy`). The sibling dataset's test split is
  taken over unchanged. Its environment ids are recomputed record by record
  into a zero-filled array, from the record's sex column and label. This is
  an array `method`.
- **Preparation** (`prepare.dfy`). Chains the three stages and checks the
  `env` argument.

Supporting modules: `errors.dfy` (error kinds, `Result`, `Option`),
`indexing.dfy` (the numpy/torch index operations: `np.where`, fancy indexing,
permutations, on sequences) and `data_model.dfy` (records, splits, the
environment table and the target sizes).

Every random draw is an argument, stated as a permutation of `0 .. n-1`:

- `np.random.choice(a, k, replace=False)` is the entries of `a` at the first
  `k` positions of a permutation of its positions.
- `np.random.permutation(n)` and `torch.randperm(n)` are permutations of
  length `n`.

Consequently every proved property holds for every outcome of the random
generators.

Only the pool shuffle is seeded: `np.random.seed(42)` (line 116) runs after
the four `np.random.choice` calls (lines 107-110), and this file never seeds
torch.

## Model

| member | source | states |
|---|---|---|
| Indexing.Where | src/datasets/four_env_synthetic_folktables.py:174 | the positions at which a mask holds, each once, in increasing order, and no others |
| Indexing.PermutedContents | src/datasets/four_env_synthetic_folktables.py:180 | indexing an array by a permutation of its positions rearranges it: the same entries with the same multiplicities |
| DataModel.EnvOf | src/datasets/four_env_synthetic_folktables.py:215-226 | the environment id of a (sex, income) pair is below 4, and a non-zero id is given only to that environment's own pair; anything else keeps the initial 0 |
| DataModel.EnvOfInverse | src/datasets/four_env_synthetic_folktables.py:113-133 | the id each bucket's block receives agrees with the test relabelling, and on the defined pairs the relabelling gives id e exactly to environment e's pair |
| DataModel.EnvOfDefault | src/datasets/four_env_synthetic_folktables.py:215-226 | a pair outside the four defined ones silently lands in environment 0 (male, low income) |
| Partitioner.Bucket | src/datasets/four_env_synthetic_folktables.py:96-99 | a bucket holds, without repeats, exactly the raw records whose group and label are its environment's pair |
| Partitioner.BucketsDisjoint | src/datasets/four_env_synthetic_folktables.py:96-99 | no raw record lies in two buckets |
| Partitioner.Subsample | src/datasets/four_env_synthetic_folktables.py:107-110 | sampling without replacement fails exactly when the bucket is smaller than the size asked for, reporting both numbers; otherwise it returns that many entries of the bucket, none more often than in the bucket |
| Partitioner.Draw | src/datasets/four_env_synthetic_folktables.py:107-110 | the four draws fail exactly when some bucket is short, naming the first short one in environment order; otherwise block e holds TargetSizes[e] entries of bucket e |
| Partitioner.Combine | src/datasets/four_env_synthetic_folktables.py:125-133 | the concatenated indices and ids are parallel arrays whose length is the sum of the block sizes, with ids drawn from the block numbers |
| Partitioner.CombineAt | src/datasets/four_env_synthetic_folktables.py:125-133 | entry k of block e sits at the block's offset plus k and carries the id e |
| Partitioner.CombineCounts | src/datasets/four_env_synthetic_folktables.py:128-133 | id e occurs in the concatenated ids exactly as often as block e is long |
| Partitioner.CombineSound | src/datasets/four_env_synthetic_folktables.py:119-133 | blocks drawn from the buckets combine into a pool without repeated records in which every id is its record's environment |
| Partitioner.Shuffle | src/datasets/four_env_synthetic_folktables.py:136-138 | one permutation moves whole (index, id) pairs, so the pairs, the indices and the ids are kept with their multiplicities |
| Partitioner.ShuffleSound | src/datasets/four_env_synthetic_folktables.py:136-138 | shuffling keeps the pool free of repeats and every entry labelled with its record's environment |
| Partitioner.Partition | src/datasets/four_env_synthetic_folktables.py:94-138 | building the pool fails exactly when the draws fail, with their error |
| Partitioner.PartitionCorrect | src/datasets/four_env_synthetic_folktables.py:94-138 | a successful pool holds 40000 distinct raw records, each labelled with its own environment, and exactly TargetSizes[e] of environment e |
| Partitioner.PoolRecords | src/datasets/four_env_synthetic_folktables.py:141-142 | extracting the pool's features and labels gives parallel arrays of the pool's length, whose rows keep the sex column |
| Partitioner.PoolRecordsAt | src/datasets/four_env_synthetic_folktables.py:141-142 | pool row j is the raw record (features, label) at the pool's index j, with the pool's id j |
| Partitioner.PoolRecordsConsistent | src/datasets/four_env_synthetic_folktables.py:141-143 | when the group array is the sex feature column, every pool record's id is the environment of its own sex column and label |
| Partitioner.PoolRecordsIncome | src/datasets/four_env_synthetic_folktables.py:141-142 | every pool record's label is the income of its environment |
| Partitioner.PoolSplit | src/datasets/four_env_synthetic_folktables.py:94-165 | the pool as records fails exactly as Partition does; on success it has 40000 records, each the raw record at its own raw index with no raw index used twice, TargetSizes[e] in environment e, every label its environment's income and every group value its environment's sex |
| Splitter.EnvPositions | src/datasets/four_env_synthetic_folktables.py:173-174 | the pool positions of environment e: every position carrying id e, each once, in increasing order, and no others |
| Splitter.SplitEnvironment | src/datasets/four_env_synthetic_folktables.py:177-182 | one environment's n positions, shuffled, give int(0.8 * n) to train and the rest to validation, together exactly its positions |
| Splitter.StratifiedSplit | src/datasets/four_env_synthetic_folktables.py:167-190 | train and validation positions together are every pool position exactly once, and each environment has int(0.8 * n) of its n positions in train and the rest in validation |
| Splitter.PermuteParts | src/datasets/four_env_synthetic_folktables.py:188-190 | the final shuffle of a side changes neither its positions nor its per-environment counts |
| Splitter.SplitCoversPool | src/datasets/four_env_synthetic_folktables.py:184-190 | the two sides share no position, neither repeats one, every pool position is in one of them, and their sizes add up to the pool's |
| Splitter.SplitKeepsRecords | src/datasets/four_env_synthetic_folktables.py:192-201 | indexing any pool array by train and validation positions yields exactly the pool's entries between them |
| Splitter.Select | src/datasets/four_env_synthetic_folktables.py:192-201 | selecting records keeps the three arrays parallel and keeps ids consistent with sex column and label when the pool's are |
| Splitter.SelectRecords | src/datasets/four_env_synthetic_folktables.py:192-201 | the selected (features, label, id) triples are the pool's triples at the chosen positions |
| Splitter.SplitRecords | src/datasets/four_env_synthetic_folktables.py:167-201 | the train and validation splits hold every pool record exactly once between them, with the stratified per-environment counts, each record keeping its id |
| TestRemap.RemapTestEnvs | src/datasets/four_env_synthetic_folktables.py:210-226 | the zero-filled id array receives, at every test record, the environment of that record's sex column and label |
| TestRemap.ReconcileTest | src/datasets/four_env_synthetic_folktables.py:204-245 | a missing sibling test split is an error; otherwise its features and labels are kept unchanged, and every record with a defined pair lands in exactly the environment of that pair |
| Prepare.SplitTotals | src/datasets/four_env_synthetic_folktables.py:167-186 | with environments of sizes 4000, 16000, 16000, 4000, train receives 32000 records and validation 8000 |
| Prepare.SplitPool | src/datasets/four_env_synthetic_folktables.py:167-201 | on the partitioner's pool, train gets 32000 records (int(0.8 * n) of each environment), validation the other 8000, together every pool record once |
| Prepare.Prepare | src/datasets/four_env_synthetic_folktables.py:94-251 | preparation fails with the first short bucket, else when the test split is missing; on success the train, validation and test splits have the sizes, per-environment counts, label agreement and test relabelling above |
| Prepare.ParseEnv | src/datasets/four_env_synthetic_folktables.py:42-47 | the names train, val, test and all_train select their split and every other name is rejected as unknown |
| Prepare.ParseEnvRoundTrip | src/datasets/four_env_synthetic_folktables.py:42-47 | each split is selected by its own name and by no other |

## Left out

- Fetching the census data and converting it to arrays (lines 76-92) is not modelled. The raw `features`, `labels` and `group` arrays are inputs.
- All printing is left out (lines 70, 73, 101-105, 145-160, 206, 230-243, 253-274).
- The check for already-prepared files (lines 69-71) is left out, because it is file-system I/O.
- Saving the splits (lines 247-251) is left out for the same reason; the model returns the three splits instead.
- The sibling test file (lines 204-208) is not read; it is an `Option` argument. It is assumed to be a tuple of parallel arrays whose rows have a sex column.
- Random number generation and seeding are left out. Each draw is a permutation argument, so seed 42 and the global generator state play no part.
- Floating point is not modelled: features are integers, and the conversions to float and long tensors (lines 163-165) are identity.
- `int(0.8 * n)` is modelled as `n * 4 / 5`. The double nearest 0.8 lies slightly above 0.8, so the truncated product equals this floor for every realistic n.
- `torch.unique` (line 168) is modelled as a loop over the ids 0 to 3 that skips absent ones. Pool ids never lie outside that range.
- `__getitem__` and its transforms (lines 49-65) are left out. They only index a loaded tuple and call caller-supplied functions.
- `BaseFolktablesDataset` and its loading helpers are not part of this model. What loading `all_train` does is therefore unknown: line 44 accepts the name, but this preparation never writes an `all_train` file.
- The constructor prepares the data before it checks `env` (line 40 runs before lines 42-47). `ParseEnv` models only the check.
- Splitter.StratifiedSplit: an empty pool makes `torch.cat` (line 185) raise a RuntimeError. This is stated as the precondition that the pool is non-empty, not as an error result. The partitioner's pool always holds 40000 records, so `Prepare` never reaches that case.
- Prepare.Prepare: train and validation ids are proved consistent with each record's sex feature column only when the `group` array equals that column. folktables derives `group` from the same SEX column, which is outside this model. Unconditionally, every label is proved to match its environment's income.
