# Hierarchical clustering, modelled in Dafny

This project models the core of `clustering-hierarchique`, a small library for
agglomerative hierarchical clustering of points given as number arrays. It has two
parts.

- `src/clustering.ts` provides:
  - two point distances, `manhattan` and `euclidian`;
  - three linkages that compare two clusters: the smallest cross distance (single
    link), the largest (complete link) and the mean (average link);
  - `hierarchicalClustering`. It starts with one cluster per point. In each round
    it merges the closest pair of clusters, until one cluster is left, and records
    every intermediate partition.
- `clustering.js` is an older version of the same algorithm. It has its own `zip`
  generator, Manhattan distance, complete link and `clusteringHierarchique`. That
  function first fills a table of the distances between clusters, then scans the
  table for the smallest entry.

## Files

- `types.dfy` holds the shared types:
  - points, clusters and partitions;
  - the `Result` type that stands for the thrown "same dimension" error;
  - the `Option` type that stands for `Infinity` and `NaN`;
  - `Flatten` and the initial singleton partition.
- `distance.dfy` holds `zip`, Manhattan and Euclidean distance, and their metric
  properties.
- `linkage.dfy` has one specification function per linkage, over the
  cross-pair distances in loop order, with lemmas that say what each one computes.
  Each linkage also has a nested-loop method proved equal to its function.
- `merge.dfy` holds the `filter` + `push` merge of one round.
- `engine.dfy` holds the TypeScript main loop:
  - `Scan` is the state of the `i`/`j` search after any prefix of the scan;
  - `Run`/`Clustering` are the whole list of steps;
  - `ClosestClusters` and `HierarchicalClustering` are the loop methods, proved
    equal to those functions.
- `properties.dfy` holds what a whole run guarantees:
  - the number of steps and their sizes;
  - that no step loses or duplicates a point;
  - which pair each round merges;
  - exactly when the run fails.
- `legacy.dfy` holds `clustering.js`. Its distance-table version is proved to
  produce exactly the same steps as the TypeScript function with complete link
  and Manhattan distance (or any distance given).

Two behaviours of the code are worth noting, and the model keeps both:
- complete link starts from `-1`, so a pair with an empty cluster has linkage `-1`;
- an empty list of items produces `[[]]`, one step with no clusters.

## Model

| member | source | states |
|---|---|---|
| Distance.Zip | src/clustering.ts:17 | pairs the coordinates index by index, as long as the shorter point |
| Distance.AbsDiff | src/clustering.ts:18 | the per-axis gap is never negative and is one of the two differences, so it is the absolute difference |
| Distance.Gaps | src/clustering.ts:18 | the Manhattan map step: one absolute gap per coordinate pair, in order |
| Distance.Sum | src/clustering.ts:19 | the `reduce` from 0: a left fold of `+` over the values; its properties are in SumNonNegative, SumZero, SumMonotone and SumTermwise |
| Distance.Squares | src/clustering.ts:35 | the Euclidean map step: one squared gap `(b - a)^2` per coordinate pair, in order |
| Distance.Manhattan | src/clustering.ts:9-20 | fails exactly when the two points differ in dimension; otherwise the distance is non-negative |
| Distance.ManhattanSymmetric | src/clustering.ts:17-19 | the Manhattan distance from a to b equals the one from b to a, error included |
| Distance.ManhattanZeroIffEqual | src/clustering.ts:9-19 | for any two points, the distance is 0 if and only if the points are equal (points of different dimensions give an error, never 0) |
| Distance.ManhattanTriangle | src/clustering.ts:17-19 | the triangle inequality holds for points of one dimension |
| Distance.Euclidian | src/clustering.ts:25-38 | fails exactly when the two points differ in dimension |
| Distance.EuclidianProperties | src/clustering.ts:30-37 | with a square root that maps 0 to 0 and is non-negative: symmetric, non-negative, and 0 from a point to itself |
| Distance.EuclidianFn | src/clustering.ts:25 | the function value `euclidian` agrees with Euclidian on every pair of points |
| Linkage.KeepSmaller | src/clustering.ts:49-51 | one step of the single-link loop: a distance replaces the accumulator when it is smaller or the accumulator is still `Infinity`; its meaning over a whole run is stated by MinOfSpec |
| Linkage.MinOf | src/clustering.ts:44-53 | the single-link accumulator after a run of distances, starting from `Infinity`; stated by MinOfSpec |
| Linkage.MaxOf | src/clustering.ts:62-71 | the complete-link accumulator after a run of distances, starting from -1; stated by MaxOfSpec |
| Linkage.Average | src/clustering.ts:80-90 | `sum / i` over a run of distances, `NaN` when there are none; stated by AvgLinkageSpec and MeanBounds |
| Linkage.MinOfSpec | src/clustering.ts:44-55 | the running minimum from Infinity is Infinity exactly on no values; otherwise it is one of the values and no value is smaller |
| Linkage.MaxOfSpec | src/clustering.ts:62-73 | the running maximum from -1 is at least -1 and at least every value, and it is one of them once some value reaches -1 |
| Linkage.CollectSpec | src/clustering.ts:46-53 | collecting the pair results fails exactly when one of them is an error; otherwise it keeps every value in order |
| Linkage.CrossErrors | src/clustering.ts:46-53 | a linkage loop throws exactly when some cross pair of points cannot be compared |
| Linkage.CollectedCount | src/clustering.ts:46-47 | the loops visit exactly one distance per cross pair, none when a cluster is empty |
| Linkage.MinLinkage | src/clustering.ts:43-56 | the single-link value: the first error of the cross comparisons, or their running minimum; stated by MinLinkageSpec |
| Linkage.MinLinkageSpec | src/clustering.ts:43-56 | single link fails exactly on an incomparable cross pair; it is Infinity exactly when a cluster is empty; otherwise it is a cross distance no cross pair undercuts |
| Linkage.MinDistanceInCluster | src/clustering.ts:43-56 | the nested loop returns the single-link value, error included |
| Linkage.MaxLinkage | src/clustering.ts:61-74 | the complete-link value: the first error of the cross comparisons, or their running maximum from -1; stated by MaxLinkageSpec |
| Linkage.MaxLinkageSpec | src/clustering.ts:61-74 | complete link fails exactly on an incomparable cross pair; it is -1 for an empty cluster; otherwise it is at least -1, at least every cross distance, and a cross distance itself once one reaches -1 |
| Linkage.MaxDistanceInCluster | src/clustering.ts:61-74 | the nested loop returns the complete-link value, error included |
| Linkage.CompleteLink | src/clustering.ts:120 | complete link as a linkage the engine accepts: fails exactly when the maximum fails, otherwise carries the maximum |
| Linkage.AvgLinkage | src/clustering.ts:79-91 | the average-link value: the first error of the cross comparisons, or their mean; stated by AvgLinkageSpec |
| Linkage.AvgLinkageSpec | src/clustering.ts:79-91 | average link fails exactly on an incomparable cross pair; it is NaN (0/0) exactly when a cluster is empty; otherwise it is the sum of the cross distances over their count |
| Linkage.AvgOfSingletons | src/clustering.ts:79-91 | between two one-point clusters the average is the distance between the points |
| Linkage.AvgBetweenMinAndMax | src/clustering.ts:79-91 | for non-empty clusters the average lies between single link and complete link |
| Linkage.AvgDistanceInCluster | src/clustering.ts:79-91 | the nested loop with `sum` and `i` returns the average-link value, error included |
| Types.Singletons | src/clustering.ts:123 | one cluster per item, in item order |
| Types.FlattenSingletons | src/clustering.ts:123 | the first step holds exactly the items, in order |
| Types.FlattenAppend | src/clustering.ts:156 | the points of two partitions side by side are the points of each, concatenated |
| Merging.Without | src/clustering.ts:153 | the clusters other than the two chosen ones, in their order; stated by MergeShape |
| Merging.Merge | src/clustering.ts:153-156 | the new partition: the filtered clusters, then the union of the two chosen ones; stated by MergeShape and MergeKeepsPoints |
| Merging.MergeShape | src/clustering.ts:150-156 | merging i < j keeps the other clusters in order, appends cluster i's points then cluster j's, has one cluster fewer, and keeps every cluster non-empty |
| Merging.MergeKeepsPoints | src/clustering.ts:150-156 | the merge neither loses nor duplicates a point |
| Engine.Consider | src/clustering.ts:144-146 | one step of the scan: a finite linkage strictly below the best so far (or the first finite one) becomes the best, with its pair; `Infinity` and `NaN` never win |
| Engine.Scan | src/clustering.ts:129-148 | any prefix of the scan that has not thrown holds indexes in range, and a recorded distance is the linkage of a valid pair i < j |
| Engine.ScanErrors | src/clustering.ts:132-148 | a scan prefix fails exactly when the linkage fails on a pair i < j it has reached |
| Engine.ScanMinimal | src/clustering.ts:132-148 | the recorded distance is at most every finite linkage reached so far, and its pair was reached |
| Engine.ScanFirst | src/clustering.ts:144-146 | every pair reached before the recorded one has a strictly larger linkage (the strict `<` keeps the first minimum) |
| Engine.ScanErrorSticks | src/clustering.ts:142 | once a linkage throws, every later scan position fails as well |
| Engine.Selection | src/clustering.ts:129-148 | the whole scan of one round, from `[Infinity, 0, 0]`; stated by SelectionSpec |
| Engine.SelectionSpec | src/clustering.ts:129-150 | with two or more non-empty clusters, a round fails exactly when some pair's linkage fails; otherwise it selects the first closest pair in scan order |
| Engine.ClosestClusters | src/clustering.ts:129-148 | the loop with `indexes_ok` computes exactly the scan's selection, error included |
| Engine.MergeStep | src/clustering.ts:150-156 | a successful round leaves one cluster fewer, none of them empty |
| Engine.Run | src/clustering.ts:126-161 | the steps from a partition on: the partition, then one round after another until at most one cluster is left, or the first error; stated by RunChain, RunSucceeds and RunUnfold |
| Engine.Clustering | src/clustering.ts:117-164 | the run from one cluster per item; stated by ClusteringShape, ClusteringRounds and ClusteringFails |
| Engine.RunUnfold | src/clustering.ts:126-161 | the steps from p are p followed by the steps from p with its selected pair merged |
| Engine.RunStep | src/clustering.ts:150-160 | the steps recorded so far followed by the rest of the run are preserved by one more iteration of the loop |
| Engine.HierarchicalClustering | src/clustering.ts:117-164 | the `while` loop returns exactly the specified list of steps, error included |
| Properties.RunChain | src/clustering.ts:124-163 | a successful run starts at the initial partition, goes one round per step, and ends with at most one cluster |
| Properties.ChainSteps | src/clustering.ts:153-160 | along the steps, step k has k clusters fewer than the first step and the same points |
| Properties.ChainLength | src/clustering.ts:126 | a chain that ends at most one cluster has as many steps as the first has clusters (one step for none) and ends with one cluster |
| Properties.ClusteringShape | src/clustering.ts:123-163 | n items give max(n, 1) steps. The first step is the singletons; step k has n - k clusters and exactly the items as points; the last has one cluster; no items give `[[]]` |
| Properties.RoundMerges | src/clustering.ts:129-156 | a round merges the first closest pair of the partition it starts from |
| Properties.ClusteringRounds | src/clustering.ts:129-156 | every round of a successful run merges the first closest pair of the step before it |
| Properties.ClosestPairUnique | src/clustering.ts:144-146 | at most one pair is the first closest pair, so the round's merge is determined |
| Properties.ScanOrderTotal | src/clustering.ts:132-135 | any two distinct pairs i < j are ordered by the scan |
| Properties.ManhattanReports | src/clustering.ts:10-12 | Manhattan distance fails exactly on points of different dimensions |
| Properties.EuclidianReports | src/clustering.ts:26-28 | Euclidean distance fails exactly on points of different dimensions |
| Properties.MinLinkageFits | src/clustering.ts:43-56 | single link never yields Infinity for non-empty clusters, and fails exactly on an incomparable cross pair |
| Properties.CompleteLinkFits | src/clustering.ts:61-74 | complete link never yields Infinity for non-empty clusters, and fails exactly on an incomparable cross pair |
| Properties.AvgLinkageFits | src/clustering.ts:79-91 | average link never yields NaN for non-empty clusters, and fails exactly on an incomparable cross pair |
| Properties.RunSucceeds | src/clustering.ts:117-164 | a run on non-empty clusters whose points all share one dimension never fails |
| Properties.MismatchFails | src/clustering.ts:10-12 | two items of different dimensions make the run throw |
| Properties.SameDimensionSucceeds | src/clustering.ts:117-164 | items of one dimension make the run succeed |
| Properties.ClusteringFails | src/clustering.ts:97-98 | a run throws if and only if two items differ in dimension |
| Properties.ManhattanCompleteFails | clustering.js:44-46 | with Manhattan distance and complete link, the run throws if and only if two items differ in dimension |
| Legacy.ZipGenerator | clustering.js:7-19 | the generator yields, until the shorter point ends, the pair of coordinates at each index |
| Legacy.LegacyManhattan | clustering.js:20-30 | the older Manhattan distance built on that generator equals the current one, error included |
| Legacy.FillDistances | clustering.js:53-68 | filling the table throws exactly when complete link fails on some pair i < j; otherwise the table has a row per cluster holding exactly the later clusters, each with its complete link |
| Legacy.FillRow | clustering.js:55-67 | one row is filled with exactly the later clusters' distances, or a pair of the row throws; earlier rows stay right |
| Legacy.StartRow | clustering.js:55-57 | a fresh empty row starts the filling of row i |
| Legacy.RowFillingAdd | clustering.js:66 | storing the distance to a later cluster extends the row correctly |
| Legacy.RowFillingSkip | clustering.js:59-65 | skipping the row's own index or an earlier row's index extends the row correctly |
| Legacy.TableOfEntries | clustering.js:53-68 | a table with all rows done is the complete distance table, and no pair failed |
| Legacy.TableFails | clustering.js:66 | a failing table entry means the TypeScript round fails as well |
| Legacy.TracksStep | clustering.js:72-79 | one table entry moves the running minimum just as one step of the TypeScript scan does |
| Legacy.ScanTableDone | clustering.js:69-79 | the selected pair of the TypeScript scan is in the table with the selected distance |
| Legacy.ClosestInTable | clustering.js:69-81 | scanning the table by ascending keys with a strict `>` yields the first closest pair i < j, the same pair the TypeScript scan selects |
| Legacy.ClusteringHierarchique | clustering.js:46-90 | the older function returns exactly the steps of the TypeScript function with complete link, error included |

## Left out

- Numbers are exact reals. IEEE rounding, overflow and the ordering of `NaN` are
  not modelled. `Infinity` (empty single link) and `NaN` (empty average link) are
  an `Option` value that never wins a `<` comparison, as in the source.
- Exceptions are modelled as an `Err` result. An error thrown by a distance passes
  through the linkage and the clustering loop unchanged.
- `Math.sqrt` is a parameter of Euclidean distance. Its lemmas assume only that it
  maps 0 to 0 and never returns a negative number.
- Distance.EuclidianProperties: it does not state that Euclidean distance is 0
  only between equal points. The only assumptions on `sqrt` are that it maps 0 to 0
  and is never negative, and they do not imply this: a `sqrt` that is 0 everywhere
  meets them.
- The `python-zip` package is not part of this model. It is modelled as index-wise
  pairing up to the shorter point, which is what the older file's own generator
  does.
- Engine.HierarchicalClustering, Engine.Clustering, Engine.Run, Engine.MergeStep
  (one round), Engine.SelectionSpec, Engine.RunUnfold and Engine.RunStep: these
  require the linkage to give a finite distance for non-empty clusters. All three
  linkages of the library do, with either distance (see the `Fits` lemmas). Without that, no pair may beat the initial `Infinity`, and
  the source then merges the pair `0, 0` (or `1, 1` in the older file). That case
  is not modelled.
- Legacy.ClosestInTable: it requires the table built by FillDistances and at
  least two non-empty clusters, which the loop always provides. Its fallback
  pair `[1, 1]` is therefore never returned.
- Legacy.ClusteringHierarchique: the distance is a parameter. Its default,
  `manhattan`, is covered by Properties.ManhattanCompleteFails.
- `Object.keys` is modelled as ascending integer keys. That is the order
  JavaScript gives to integer-like property names.
- The `maxDistanceInCluster` and `manhattan` of `clustering.js` are the same code
  as in `src/clustering.ts`. The older file's `maxDistanceInCluster` is modelled
  once, as Linkage.MaxDistanceInCluster.
- The demonstration run and its console output at the end of `clustering.js`,
  `src/test.ts`, and the compiled files under `dist/` are not part of this model.
- Default arguments are not modelled. Every call passes its distance and linkage
  explicitly.
- The original points are shared by reference between steps. The model works on
  values, so aliasing is not captured.
