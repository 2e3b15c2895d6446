# k-means clustering engine, modelled in Dafny

The program clusters 2-D samples with Lloyd's algorithm, then scores the
clustering with a silhouette score. Each sample is an (income, spending score)
pair read from a CSV file. The engine keeps its state as process-wide globals:
- the sample set;
- a running bounding box (`min_x`, `max_x`, `min_y`, `max_y`);
- K means;
- K growable cluster buffers.

Its operations are:
- **Seeding** (`generate_state`): load the samples, then draw every mean uniformly inside the bounding box with `lerpf`.
- **Reassignment** (`recluster_state`): empty the buffers, then append each sample to the buffer of its nearest mean. "Nearest" is the least squared distance, and the lowest index wins a tie.
- **Mean update** (`update_means`): a non-empty cluster's mean becomes the average of its samples. An empty cluster's mean is redrawn inside the box.
- **Silhouette score** (`silhouette_score`): find each sample's cluster by coordinate equality, compute `a` and `b`, and average `(b - a) / max(a, b)` over the samples.

The model has six files:
- `geometry.dfy`: points, squared distance, `lerpf`, and the bounding box with its running min/max fold.
- `assignment.dfy`: the nearest-mean search and the cluster lists one reassignment pass builds, with the partition lemmas.
- `centroids.dfy`: coordinate sums, the centroid, and the mean update rule.
- `silhouette.dfy`: the score as specification functions (`a`, `b`, per-sample value, total) and the lemmas that bound it.
- `engine.dfy`: class `KMeans`. It holds `samples`, `box`, `means: array<Point>` and `clusters: array<seq<Point>>`. Its methods run the program's loops in place, and each method is proved against the functions above.
- `scenario.dfy`: a worked example of one reassignment and one update.

Parameters of the model:
- K is a constructor parameter (K ≥ 1). The program fixes it at 4.
- Coordinates are real numbers.
- The random draws are caller-supplied values: one `Draw` (an x draw and a y draw) per cluster.
- The silhouette's distance is a function parameter. The lemmas require it to be non-negative and zero exactly between equal points (`IsMetric`).

Where the behaviour described for the system and the code differ, the model follows the code:
- The engine's operations do not reject an empty sample set. `main` does, on the first load only: it exits when that load gives no samples (src/main.c:198-203). A later reload with no rows keeps the old, widened box, because the bounds are never reset, and the means are redrawn from it (`Load` folds over the old box; `GenerateState`).
- There is no state check before a mean update.
- An empty other cluster gives the FLT_MAX sentinel, not "no candidate". With every other cluster empty, `b` stays FLT_MAX and the sample scores (FLT_MAX - a) / FLT_MAX, not 0 (`LoneClusterSentinel`).
- `max(a, b) = 0` gives NaN, not 0 (`PerPoint`, modelled by the `Score.NaN` case).
- A sample's cluster is found by coordinate equality, not carried as a label. `ReclusteredScore` proves this lookup agrees with the nearest-mean label on the clusters a reassignment pass builds. The reason is that equal samples always land in the same cluster. This agreement relies on exact equality; raymath's `Vector2Equals` also accepts points within a small relative tolerance, and two such near-equal samples on different sides of a boundary between means would both be found in the lower-index cluster.

## Model

| member | source | states |
|---|---|---|
| Geometry.LerpBounds | src/main.c:38-40 | `lerpf(r, lo, hi)` lies in [lo, hi] when r is in [0, 1] and lo ≤ hi |
| Geometry.DrawIn | src/main.c:86-89 | a mean drawn per axis with `lerpf` lies inside the box when the draws are in [0, 1] and the box is proper |
| Geometry.Extend | src/main.c:66-69 | one step of the running min/max contains the sample and only widens the box |
| Geometry.Fold | src/main.c:57-71 | after the load loop every accepted sample lies inside the box, and the box only widened from where it started |
| Geometry.FoldTight | src/main.c:66-69 | each bound after the fold is its starting value or a coordinate of some sample (the fold is exact, not loose) |
| Geometry.LoadedBox | src/main.c:32 | loading a non-empty list of float samples into the initial (FLT_MAX, -FLT_MAX) box gives a proper box whose every bound is attained by a sample |
| Assignment.Nearest | src/main.c:101-110 | the argmin scan returns an index below K |
| Assignment.NearestIsArgmin | src/main.c:101-110 | the chosen mean has least squared distance among all K means, and every lower index is strictly farther (ties go to the lowest index) |
| Assignment.NearestUnique | src/main.c:106 | any index that is a minimum with every earlier index strictly farther is the one the scan returns |
| Assignment.Labelled | src/main.c:99-114 | a cluster list holds at most as many samples as the input |
| Assignment.MembersAppend | src/main.c:99-114 | each cluster keeps its samples in input order: clustering s + t gives cluster k of s followed by cluster k of t |
| Assignment.MembersSnoc | src/main.c:111-113 | appending one sample adds it to the end of its nearest mean's cluster and to no other cluster |
| Assignment.MembersSound | src/main.c:99-114 | a cluster holds only input samples whose nearest mean is that cluster |
| Assignment.MembersComplete | src/main.c:99-114 | every input sample is in the cluster of its nearest mean |
| Assignment.PartitionUnique | src/main.c:92-115 | one reassignment pass determines the cluster lists: two results of a pass over the same samples and means are equal |
| Assignment.PartitionIsTotal | src/main.c:93-114 | the K cluster counts sum to the number of samples, and each sample is in exactly its nearest mean's cluster |
| Centroids.SumBounds | src/main.c:121-123 | each summed coordinate lies between count copies of the min and count copies of the max of any box holding the cluster |
| Centroids.CentroidInBox | src/main.c:119-125 | the average of a non-empty cluster lies in every box that holds the cluster |
| Centroids.CentroidWithinCluster | src/main.c:119-125 | on each axis the average lies between the cluster's own smallest and largest coordinate |
| Centroids.CentroidBalances | src/main.c:124-125 | the average is the only point about which the cluster's deviations sum to zero |
| Centroids.NewMeanInBox | src/main.c:117-131 | an updated mean, whether averaged or redrawn, lies in the box when the box holds the cluster, is proper and the draws are in [0, 1] |
| Silhouette.FindCluster | src/main.c:145-154 | the lookup returns the lowest cluster holding a point equal to p, or nothing when no cluster holds one |
| Silhouette.NearestOther | src/main.c:170-180 | `b` is at most FLT_MAX and at most every other cluster's mean distance, and is FLT_MAX or one of them |
| Silhouette.PerPointBounds | src/main.c:183 | (b - a) / max(a, b) is a number in [-1, 1] when a, b ≥ 0 and max(a, b) > 0 |
| Silhouette.IntraSumNonNegative | src/main.c:159-166 | the intra-cluster distance sum is never negative |
| Silhouette.DistSumNonNegative | src/main.c:172-177 | the inter-cluster distance sum is never negative |
| Silhouette.IntraAgainstWholeCluster | src/main.c:159-167 | `a` skips exactly the copies of p: its sum equals the sum over the whole cluster, and its count is the cluster size less the copies of p |
| Silhouette.AvgDistBounds | src/main.c:178 | a cluster's mean distance is never negative, and an empty cluster gives FLT_MAX rather than 0 |
| Silhouette.DistSumPositive | src/main.c:172-177 | the distance sum to a non-empty cluster holding no copy of p is positive |
| Silhouette.AvgDistPositive | src/main.c:178 | the mean distance to a cluster holding no copy of p is positive |
| Silhouette.LoneClusterSentinel | src/main.c:143-180 | with every other cluster empty, `b` stays at FLT_MAX |
| Silhouette.NearestOtherBounds | src/main.c:170-180 | `b` is never negative, and positive when no other cluster holds a copy of p |
| Silhouette.UniqueClusterScores | src/main.c:145-184 | a sample found in exactly one cluster scores a number in [-1, 1] (no 0/0) |
| Silhouette.TotalBounds | src/main.c:137-185 | when every sample is skipped or scores in [-1, 1], the total is a number of size at most the sample count |
| Silhouette.ScoreBounds | src/main.c:188 | the score (total / sample count, skipped samples included, 0 for no samples) lies in [-1, 1] under the same condition |
| Silhouette.ReclusteredScore | src/main.c:92-189 | on a reassignment pass's clusters, the lookup finds each sample's nearest-mean cluster, no sample is skipped, and the score is a number in [-1, 1] |
| Engine.KMeans.constructor | src/main.c:26-32 | the engine starts with no samples, the (FLT_MAX, -FLT_MAX) box, K means at the origin and K empty clusters |
| Engine.KMeans.Load | src/main.c:50-71 | the samples become the accepted rows, and the box is the old box folded over them, holding every sample |
| Engine.KMeans.Seed | src/main.c:86-89 | each mean is `lerpf` of its draws between the box's bounds, and lies in the box when the draws are in [0, 1] and the box is proper |
| Engine.KMeans.GenerateState | src/main.c:82-90 | a reload replaces the samples, widens the box over them, and draws each mean with `lerpf` from the widened box; every mean lies in it when the box is proper and the draws are in [0, 1] |
| Engine.KMeans.Recluster | src/main.c:92-115 | samples and means are unchanged, and the clusters are exactly one reassignment pass's lists (nearest mean, lowest index on ties, input order) |
| Engine.KMeans.NearestMean | src/main.c:101-110 | the inner scan returns the index `Nearest` specifies |
| Engine.KMeans.UpdateMeans | src/main.c:117-131 | each mean becomes its cluster's average, or a redraw in the box when the cluster is empty; all means lie in the box when the box holds the clusters, is proper and the draws are in [0, 1] |
| Engine.KMeans.Score | src/main.c:136-189 | the loop computes exactly the silhouette score of the current samples and clusters |
| Engine.KMeans.ClusterOf | src/main.c:145-154 | the nested search with its two breaks returns the lowest cluster holding a point equal to p, or none |
| Engine.KMeans.MeanIntraDistance | src/main.c:158-167 | the accumulator loop computes `a`: the mean distance to the cluster's samples not equal to p, 0 when there are none |
| Engine.KMeans.NearestOtherDistance | src/main.c:169-180 | the loop computes `b`: from FLT_MAX, the least mean distance to any other cluster, with FLT_MAX for an empty one |
| Engine.ReclusterIsIdempotent | src/main.c:92-98 | the first pass's clusters are the partition of the unchanged samples by their nearest mean, and a second pass with unchanged means leaves exactly those clusters |
| Scenario.TwoPairs | src/main.c:92-131 | samples (0,0), (0,1), (10,10), (10,11) with means (0,0) and (10,10) cluster as the two pairs, and the update moves the means to (0, 0.5) and (10, 10.5) |

## Left out

- The raylib window, drawing, keyboard loop and screen projection (`main`, `project_sample_to_screen`): user interface and foreign library calls.
- Reading the CSV file, the header skip and `sscanf` parsing: file I/O. `Load` takes the sequence of accepted rows. A file that fails to open is modelled as no accepted rows.
- The fixed capacity of 601 samples and its unchecked write, `malloc`/`realloc`/`free`, and the leak of the old buffer on reload: memory management. Sequences replace the buffers.
- `rand`, `srand` and `time`: each draw is a caller-supplied real, one `Draw` per cluster. The program instead consumes two `rand()` calls per seeded or redrawn mean, in order.
- Single-precision arithmetic: sums, averages and `lerpf` are exact on reals. Rounding, overflow to infinity and NaN from arithmetic are not modelled, except the NaN of 0/0 in the per-sample score.
- `sqrtf`/`powf` in `euclidean_distance`: the silhouette takes the distance as a parameter, and the lemmas assume only `IsMetric`.
- Geometry.SqDist: its non-negativity is not stated; reassignment only compares squared distances, so no lemma needs it.
- Assignment.NearestIsArgmin: the argmin's start at index -1 with distance FLT_MAX is modelled as "the first mean is always accepted". This differs from the code only when every squared distance is at least FLT_MAX, which overflows in single precision.
- Silhouette.FindCluster: raymath's `Vector2Equals` compares with a small relative tolerance; the model compares coordinates exactly.
- Assignment.PartitionIsTotal: totality is stated as the sum of cluster counts plus per-sample membership, not as a multiset equation over the clusters.
- The bounding box is never reset between reloads (`Load` folds over the old box): the model keeps this behaviour, and `LoadedBox` states the box only for the first load.
- Scenario.TwoPairs: the example's silhouette value is not computed, because the distance is abstract.
