# k-means codebook trainer

A model of the k-means trainer that builds product-quantization codebooks
(`clustering.cpp`). `pq_train` trains `k = 2^pqBits` centroids of dimension
`d` on `nx` training vectors. It runs in four steps:

1. It picks initial centroids, either from randomly chosen training rows or
   at the corners of a hypercube around the training mean.
2. It refuses training sets with fewer than 39 rows per centroid, and
   subsamples those with more than 256 rows per centroid.
3. It runs at most 25 Lloyd iterations. Each one assigns every row to its
   nearest centroid and sums the distances into an objective. It stops when
   the relative improvement of that objective falls below 0.0001. Otherwise
   it recomputes the centroids as cluster means and re-creates every empty
   cluster by splitting a donor cluster.

Modules:

- `Wrappers` (`wrappers.dfy`): `Option`.
- `KMeansSpec` (`kmeans_spec.dfy`): the constants and the mathematical
  values the loops compute. These are sums, histograms, cluster sums and
  means, the mean vector and its largest coordinate, and hypercube corners.
  The module also holds the lemmas about these values.
- `Clustering` (`clustering.dfy`): the routines themselves, as methods over
  arrays.

The source stores a set of `n` vectors as one row-major float buffer. The
model stores it as an `array2<real>` with `n` rows and `d` columns, and
reads a codebook as the sequence of its rows (`Rows`). The contracts of the
methods that drive training tie the arrays they leave to value-level
definitions in `KMeansSpec`:

- `Assignment` and `Objective` for a pass over the training rows;
- `Recomputed` for the counts and cluster means of one recomputation;
- `SplitAll` for the split pass, given the donor each empty cluster took;
- `LloydUpdate` for one whole k-means round;
- `IsRun` for the sequence of codebooks, donors and objectives of the
  iterations.

The lemmas beside these definitions state what the rounds keep: the counts
keep their total, no count is left at zero, a cluster that was not empty
only gives counts away, and the nearest assignment costs no more than any
other assignment.

Two requirements are met only implicitly by the code:

- The default initialisation reads `perm[i]` for every `i < k` from a
  permutation of `nx` entries. It therefore needs `k <= nx`, and `PqTrain`
  requires this for the default initialisation.
- The hypercube initialisation divides by `nx`, so `PqTrain` requires
  `nx >= 1` for it.

## Model

| member | source | states |
|---|---|---|
| KMeansSpec.TrainingRows | clustering.cpp:289-296 | Training fails exactly when there are fewer than 39 rows per centroid. Otherwise it runs on between 39k and 256k rows: all `nx` rows when `nx <= 256k`, else 256k of them. That is always more than `k` rows. |
| KMeansSpec.StopEarly | clustering.cpp:316 | The early-stop test `(prev - obj) / prev < 0.0001` without the division. For positive `prev` it stops iff `obj > prev * 0.9999`. For negative `prev` it stops iff `obj < prev * 0.9999`. For zero `prev` it stops iff `obj > 0`. |
| KMeansSpec.BitsDiffer | clustering.cpp:223 | Two different centroid numbers below `2^nbits` differ in one of the bits `(i >> j) & 1` with `j < nbits`. |
| KMeansSpec.NearestIndex | clustering.cpp:184-198 | The scan that keeps the first strictly smaller distance yields a valid index that is nearest, with every lower index strictly farther. |
| KMeansSpec.NearestIsUnique | clustering.cpp:187-197 | Any index and distance that are nearest in that sense are the scan's index and the minimum distance, so `assign` and `dis` are determined by the codebook. |
| KMeansSpec.ObjectiveFromDistances | clustering.cpp:310-314 | Summing any sequence that holds each row's minimum distance gives the objective of the codebook. |
| KMeansSpec.NearestAssignmentMinimises | clustering.cpp:184-198 | No assignment of the rows to centroids costs less than the nearest assignment. |
| KMeansSpec.DonorExists | clustering.cpp:137-146 | If the counts sum to `n > k` and one count is zero, some count exceeds 1. Such a cluster is the only kind the donor search can pick, because a cluster is picked with probability `(hassign[cj] - 1) / (n - k)`. So the search always has a candidate. |
| KMeansSpec.HistogramTotal | clustering.cpp:85-98 | When every assignment lies in `[0, k)`, the histogram of the first `n` assignments has `k` entries that sum to `n`. |
| KMeansSpec.EmptyClusterSum | clustering.cpp:103-106 | A cluster with no points has a zero coordinate sum, so its centroid stays at the zero vector left by the memset. |
| KMeansSpec.CentroidBalancesCluster | clustering.cpp:103-112 | The recomputed centroid coordinate is the mean of its cluster. The deviations of the cluster's points from it sum to zero. |
| KMeansSpec.MaxAbs | clustering.cpp:213-218 | The running maximum is non-negative and bounds the absolute value of every mean coordinate. It is either 0 or attained by some coordinate. |
| KMeansSpec.CornersDistinct | clustering.cpp:220-227 | Unless the mean vector is zero, the `2^nbits` hypercube corners are pairwise distinct in their first `nbits` coordinates. |
| KMeansSpec.SplitStepFromEntries | clustering.cpp:147-164 | Counts and a codebook that hold the perturbed copy, the perturbed donor and the two halves of the donor's count, with every other entry unchanged, are exactly one `SplitStep` of the old counts and rows. |
| KMeansSpec.SplitStepSymmetric | clustering.cpp:151-160 | After a split the copy and the donor average to the donor's old centroid, coordinate by coordinate. |
| KMeansSpec.SplitStepTotal | clustering.cpp:162-164 | A split removes the re-created cluster's old count from the total and moves nothing else. |
| KMeansSpec.SplitAllExtend | clustering.cpp:136-167 | Visiting one more cluster splits it from its donor exactly when its count is zero at the visit. The donors stay valid iff they were valid and such a donor has a count above 1. |
| KMeansSpec.SplitAllKeepsTotal | clustering.cpp:136-167 | With valid donors the split pass keeps the sum of the counts. |
| KMeansSpec.SplitAllFillsEmpty | clustering.cpp:136-167 | With valid donors every visited cluster ends with a non-zero count. |
| KMeansSpec.SplitAllKeepsLaterZeros | clustering.cpp:136-167 | A cluster the pass has not reached yet is empty exactly when it was empty before the pass, because a donor always keeps half of a count above 1. |
| KMeansSpec.SplitAllNeverGrows | clustering.cpp:136-167 | A cluster that was not empty before the pass ends with at most its old count. If its count did not change, its centroid did not change either. |
| KMeansSpec.SplitAllEntries | clustering.cpp:136-167 | Read off the arrays that hold the final state of the pass: no count is zero, the total is kept, and non-empty clusters give counts away or keep their centroid. |
| KMeansSpec.RunNextPass | clustering.cpp:308-318 | A pass over the current codebook extends a run by that codebook's objective. |
| KMeansSpec.RunNextRound | clustering.cpp:320-332 | A k-means update of the current codebook extends a run by one round. |
| Clustering.CopyRow | clustering.cpp:147-149 | A `memcpy` of one vector: the target row becomes the old source row and every other row is unchanged, including when source and target are the same buffer. |
| Clustering.SubsampleTrainingSet | clustering.cpp:34-51 | Returns a fresh set of exactly `k * 256` rows. Row `i` is row `perm[i]` of the input. |
| Clustering.NearestCentroid | clustering.cpp:185-197 | The chosen index is a valid centroid, and the returned distance is the distance to it. No centroid is strictly nearer, and every lower index is strictly farther, so ties go to the first centroid. |
| Clustering.CalculateDistances | clustering.cpp:175-199 | Each of the first `n` rows gets its nearest centroid in `assign` and that distance in `dis`. Entries past `n` are unchanged. |
| Clustering.AccumulateObjective | clustering.cpp:310-314 | The objective is the sum of the first `n` distances. |
| Clustering.AssignmentPass | clustering.cpp:308-314 | After one pass `assign` holds the nearest-centroid `Assignment`, `dis` the minimum distances, and the result is the `Objective` of the codebook. |
| Clustering.ComputeCentroids | clustering.cpp:62-113 | `hassign[c]` becomes the number of points assigned to `c`, and the counts sum to `n`. Each centroid becomes the mean of its points, or the zero vector when it has none. |
| Clustering.AccumulateClusters | clustering.cpp:71-98 | After the memset and the accumulation loop, each count is the cluster's size and each centroid row is the sum of the cluster's points. |
| Clustering.AddToRow | clustering.cpp:92-97 | Adds one training row to one centroid row and leaves the other centroids unchanged. |
| Clustering.NormaliseCentroids | clustering.cpp:103-112 | Turns cluster sums into cluster means. Clusters with a zero count keep their (zero) sums. |
| Clustering.ScaleRow | clustering.cpp:107-111 | Multiplies one centroid row by `1 / hassign[ci]` and leaves the other rows unchanged. |
| Clustering.SplitCluster | clustering.cpp:147-164 | Re-creates cluster `ci` from donor `cj`: `ci` becomes the donor's old centroid scaled by `CopyFactor`, the donor is scaled by `DonorFactor`, and both counts become half the donor's old count. Nothing else changes. |
| Clustering.PerturbPair | clustering.cpp:151-160 | The symmetric perturbation. The copy's coordinates are scaled by `CopyFactor` and the donor's by `DonorFactor`. Every other row is unchanged. |
| Clustering.HalveCount | clustering.cpp:162-164 | `hassign[ci] = hassign[cj] / 2` and `hassign[cj] -= hassign[ci]`. Both end at half the donor's old count, and the total drops by the old `hassign[ci]`. |
| Clustering.SplitClusters | clustering.cpp:125-170 | There is one donor per cluster, each with a count above 1 when used, and the new counts and centroids are `SplitAll` of the old ones: every cluster empty at its visit becomes a perturbed copy of its donor, and the two share the donor's count evenly. It returns the number of empty clusters. No count is left at zero, the counts still sum to `n`, a non-empty cluster's count never grows, and one whose count did not change keeps its centroid. |
| Clustering.VisitClusters | clustering.cpp:136-167 | The loop over the clusters: after it the counts and centroids are `SplitAll` of the old ones with valid donors, and the split counter is the number of zero counts. |
| Clustering.FillCluster | clustering.cpp:137-165 | One visit: it splits exactly when the cluster's count was zero before the pass, and the state becomes `SplitAll` with one more donor. |
| Clustering.InitHypercube | clustering.cpp:201-228 | Centroid `i` is the hypercube corner around the training mean. Its coordinate `j < nbits` is the mean plus or minus the largest absolute mean coordinate, as bit `j` of `i` is set or clear. Its other coordinates are the mean. |
| Clustering.ColumnSums | clustering.cpp:207-211 | Entry `j` is the sum of coordinate `j` over all training rows. |
| Clustering.ScaleToMean | clustering.cpp:213-218 | The sums become the mean vector, and `maxm` becomes the largest absolute mean coordinate. |
| Clustering.FillCorner | clustering.cpp:220-227 | Writes corner `i` into centroid row `i` and leaves the other rows unchanged. |
| Clustering.InitFromRows | clustering.cpp:276-286 | Centroid `i` is training row `perm[i]`. |
| Clustering.InitCentroids | clustering.cpp:268-287 | The initial codebook is the rows `initPerm` picks (default) or the hypercube corners around the mean. |
| Clustering.SelectTrainingSet | clustering.cpp:289-296 | Succeeds iff there are at least 39 rows per centroid. The training set then has `TrainingRows` rows: the input itself, or the `samplePerm` subsample in a fresh buffer. |
| Clustering.UpdateCentroids | clustering.cpp:320-332 | The new codebook and counts are `SplitAll` of `Recomputed` (the cluster sizes and means of the current assignment) with valid donors. Hence the `k` counts are non-zero and sum to `n`. |
| Clustering.LloydIteration | clustering.cpp:307-333 | The objective is `Objective` of the old codebook and `assign` its `Assignment`. It stops exactly when a previous objective exists and the new one fails the improvement test, and then the codebook is unchanged. Otherwise the new codebook is a `LloydUpdate` of the old one, and the counts it leaves are that update's, non-zero and summing to `n`. |
| Clustering.TrackedIteration | clustering.cpp:307-333 | One iteration extends the run: by its objective, and, unless it stopped, by one k-means round to the new codebook. |
| Clustering.LloydIterations | clustering.cpp:305-333 | The codebooks, donors and objectives form an `IsRun` from the initial to the final codebook: every round is a `LloydUpdate` and every objective is the `Objective` of the codebook its pass assigned to. It runs 1 to 25 passes. All but the last consecutive pair of objectives pass the improvement test, and the loop ends at the 25-iteration cap or at the first pass that fails it. The counts are the last round's, non-zero and summing to `n`. |
| Clustering.TrainCodebook | clustering.cpp:288-333 | Training after initialisation: it fails with the codebook untouched iff there are fewer than 39 rows per centroid. Otherwise it runs `LloydIterations` on the training set `TrainingRows` selects, with all of that method's guarantees. |
| Clustering.PqTrain | clustering.cpp:256-335 | Succeeds iff there are at least 39 rows per centroid. The initial codebook is the chosen rows or the hypercube corners, and it is kept on failure. On success it trains on the rows `TrainingRows` decides, and the codebooks from the initial one to the final one form an `IsRun` of 1 to 25 passes with the stopping rule above. The counts left by the last split are that round's `UpdateCounts`, none of them zero. |

## Left out

- `USE_OMP` parallelism: the loops are modelled sequentially. In the
  parallel version each thread owns a disjoint range of centroids, which
  gives the same result.
- `init_hypercube_pca` and the `TT_HYPERCUBE_PCA` branch of `pq_train`:
  `PCAMatrix` (transform.h) is not part of this model, so `PqTrain` requires
  another training type.
- The global `trainType` is a parameter of `PqTrain`.
- `rand_perm` and `RandomGenerator`: the permutations are inputs assumed to
  be permutations of `0 .. nx-1`.
- The split's donor is any cluster with a count above 1. Every one of them
  can end the random search. Whether the search loop terminates, which
  depends on the generator, is not modelled. The donors chosen are ghost
  results of the methods.
- `hnsw_dist_func`: the distance is an arbitrary function parameter.
- Floating point: coordinates, distances, counts and the objective are
  exact reals. `float`/`double` rounding, NaN and infinities are not
  modelled. `HUGE_VAL` for the first previous objective is `None`, so the
  first pass never stops. `HUGE_VALF` as the starting minimum
  (clustering.cpp:187-188) is replaced by starting from centroid 0 with its
  own distance. The two agree whenever centroid 0's distance is a number or
  `+inf`. They differ when it is NaN and a later distance is a number: the
  source then picks the later centroid, because `ip < HUGE_VALF` holds for it,
  while the model keeps centroid 0.
- Integer widths: `k = 1 << meta->pqBits` (clustering.cpp:179 and 260) shifts
  an `int`, which overflows for `pqBits >= 31`. `Pow2` and the model's sizes
  are unbounded naturals, so that overflow is not modelled.
- `fprintf` logging and the `unique_ptr`/`new` memory management.
- PqTrain: the `nx == k` branch (clustering.cpp:298-302) is dead code. Line
  295 returns before it unless `nx >= 39k`, and lines 289-294 only ever
  lower `nx` to `256k`. So with `k >= 1` the branch sees `nx > k` and never
  runs. `TrainingRows` proves this, and the model has no counterpart.
- PqTrain: no centroid is guaranteed non-empty after training. The split
  (clustering.cpp:136-167) repairs only the estimated counts in `hassign`,
  assuming the donor's points divide evenly (line 162). No assignment pass
  checks the result when the loop ends at the cap, and a pass that stops at
  line 316 may itself leave clusters empty. The model states the non-zero
  counts (`UpdateCounts`) of the last split and nothing about the real
  cluster sizes.
- PqTrain: the objective is not guaranteed to decrease. The perturbation
  (clustering.cpp:151-160) moves both halves of a split away from their
  centroid, and the distance is an arbitrary function for which the cluster
  mean need not be the best centre. Line 316 stops on any pass that fails to
  improve by 0.01%, including one that got worse. The model states the
  objectives only through `IsRun` and the stopping rule.
- UpdateCounts: returns the empty sequence when the donors do not name one
  cluster per centroid. Every caller supplies such donors, so this case is
  never used.
- SplitClusters: requires that the counts sum to `n > k`.
  `ComputeCentroids` establishes this in every iteration, and without it the
  source's donor search would not end.
- InitHypercube: requires at least one training row. With zero rows the
  source divides by zero and produces NaN centroids, which the model does
  not represent.
- The property that the cluster mean minimises the squared deviation is not
  proved. Only the balance property (`CentroidBalancesCluster`) is.
- `pqSubdim`, `pqBits` and the rest of `HnswMetadata` are reduced to the
  matrix dimensions and the `pqBits` parameter. The HNSW index and the PQ
  encoder that use the codebook are not part of this model.
