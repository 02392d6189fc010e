# Spectral clustering of tractography fibers: an exact-arithmetic model

This project models the core of a white-matter fiber clustering tool in Dafny.
It covers three parts, with coordinates and matrix entries as exact `real` values:

- the fiber distance engine of `distance.py`;
- the matrix pipeline of `cluster.py`, from the pairwise distance matrix to the truncated random-walk embedding;
- the cluster colour map and the per-fiber attachment of colours and cluster numbers.

Files:

- `sums.dfy` (module `Sums`): sums over sequences, element-wise arithmetic, reversal, and facts about squares.
- `matrices.dfy` (module `Matrices`): matrices as sequences of rows. It holds `np.sum(m, 0)`, `np.diag`, element-wise difference and `np.dot`.
- `distance.dfy` (module `Distance`): the positional mean-squared distance between fibers, its orientation-free minimum, the scalar-profile distance, and the Gaussian kernel.
- `cluster.dfy` (module `Cluster`): the guards of `spectralClustering`, the pairwise matrices, the degree matrix, `L = D - W`, the random-walk Laplacian, the column truncation, `_cluster_to_rgb`, and the loop of `_format_outputVTK` as a method.

Modelling choices:

- A fiber is a sequence of points.
- The fiber container's `getReverseFiber` is assumed to reverse the point order. Its source, `fibers.py`, is not part of this model.
- Foreign numerics become parameters of the functions that use them:
  - `np.exp` is `exp`;
  - `MinMaxScaler().fit_transform` is `minMaxScale`;
  - `np.linalg.eig` is `eig`, which returns the eigenvectors as columns.
- The square root in `_cluster_to_rgb` is replaced by row lengths passed in by the caller. `IsRowLengths` pins each of them down as the positive number whose square is the row's sum of squares.

Degree matrices are usually defined by row sums. The code uses column sums (`np.sum(W, 0)`, cluster.py:181), and the model follows the code. `DegreeOfSymmetric` shows that the two agree when `W` is symmetric.

The results about row sums of `Lrw` assume a symmetric `W`. The model does not establish that the pipeline's `W` is symmetric. The raw distance matrix is symmetric (`PairwiseDistanceMatrixProperties`), but `minMaxScale` is a parameter, and a per-column min-max scaler generally breaks symmetry.

With `no_of_eigvec == 2` the colour table is built from `U` (cluster.py:71-72). `U` has at most two columns, so no colour row has the third component that the attachment loop reads at cluster.py:216. That loop then raises `IndexError` on the first fiber (see "## Findings").

## Model

| member | source | states |
|---|---|---|
| Distance.PointwiseSquaredDiff | distance.py:24-34 | one squared 3-D difference per point index, all non-negative |
| Distance.MeanSquaredDistance | distance.py:37-38 | the sum along the fiber divided by the point count is non-negative |
| Distance.FiberDistanceInternal | distance.py:10-40 | exactly one entry per fiber of the group, each non-negative |
| Distance.MeanSquaredDistanceSelf | distance.py:24-38 | a fiber is at positional distance 0 from itself |
| Distance.MeanSquaredDistanceZeroIff | distance.py:24-38 | the positional distance is 0 exactly when the two fibers are identical |
| Distance.MeanSquaredDistanceSymmetric | distance.py:24-38 | d(F, G) = d(G, F) |
| Distance.MeanSquaredDistanceReverse | distance.py:24-38 | d(reverse F, G) = d(F, reverse G) |
| Distance.MeanSquaredDistanceReverseBoth | distance.py:24-38 | reversing both fibers leaves the distance unchanged |
| Distance.OrientedDistance | distance.py:84-88 | the per-entry `np.minimum`: non-negative, at most both the forward and the reversed distance, and equal to one of them |
| Distance.FiberDistance | distance.py:66-90 | one entry per group fiber; each entry is non-negative, at most both the forward and the reversed distance, and equal to one of them |
| Distance.FiberDistanceEntry | distance.py:84-88 | entry j is the minimum over both orientations of fiber j's distance |
| Distance.OrientedDistanceSymmetric | distance.py:81-88 | the orientation-free distance is symmetric |
| Distance.OrientedDistanceReversal | distance.py:81-88 | reversing either fiber leaves the orientation-free distance unchanged |
| Distance.OrientedDistanceZeroIff | distance.py:81-88 | the orientation-free distance is 0 exactly when the fibers are equal or reverses of each other |
| Distance.FiberDistanceReversalInvariant | distance.py:81-88 | fiberDistance(reverse F, C) = fiberDistance(F, C) |
| Distance.FiberDistanceGroupReversal | distance.py:81-88 | reversing one fiber of the group changes no entry |
| Distance.FiberDistancePairSymmetric | distance.py:81-88 | fiberDistance(F, [G]) = fiberDistance(G, [F]) |
| Distance.FiberDistanceZeroIff | distance.py:81-88 | entry j is 0 exactly where the group holds F or its reversal |
| Distance.ScalarMeanSquared | distance.py:56-62 | the summed squared profile difference over the profile length is non-negative |
| Distance.ScalarDistanceInternal | distance.py:42-64 | one non-negative entry per profile of the group |
| Distance.ScalarDistance | distance.py:92-101 | `scalarDistance` forwards to the internal function unchanged, with no reversal |
| Distance.ScalarDistanceZeroIff | distance.py:56-62 | entry j is 0 exactly when profile j equals the given profile |
| Distance.ScalarDistancePairSymmetric | distance.py:92-101 | the scalar distance between two single profiles is symmetric |
| Distance.ScalarDistanceOrientationSensitive | distance.py:99 | no reversal is applied: a profile and its reversal can be at distance 1 |
| Distance.GausKernelSimilarity | distance.py:103-118 | the similarity matrix has the shape of the distance matrix |
| Distance.GausKernelValues | distance.py:116 | distance 0 gives similarity 1 when exp(0) = 1; a positive exponential gives positive similarities |
| Distance.GausKernelMonotone | distance.py:116 | for sigmasq > 0 and an increasing exponential, a larger distance never gives a larger similarity |
| Distance.GausKernelAtMostOne | distance.py:112-116 | for sigmasq > 0, a monotone exp with exp(0) = 1 and a non-negative distance, the similarity is at most 1 |
| Distance.GausKernelUnitIff | distance.py:112-116 | for sigmasq > 0, a strictly increasing exp with exp(0) = 1 and a non-negative distance, the similarity is 1 exactly when the distance is 0 |
| Cluster.PairwiseDistanceMatrix | cluster.py:98-103 | the distance matrix is N x N |
| Cluster.PairwiseDistanceMatrixProperties | cluster.py:98-103 | entry (i, j) is the orientation-free distance of fibers i and j, so the raw matrix is symmetric, non-negative and zero on its diagonal |
| Cluster.PairwiseSimilarityMatrix | cluster.py:109-129 | the Gaussian kernel with sigma squared keeps the N x N shape of the scaled distance matrix |
| Cluster.PairwiseSimilarityPositive | cluster.py:122-125 | with a positive exponential every similarity is positive |
| Cluster.RawQDistanceMatrix | cluster.py:141-148 | the scalar distance matrix is N x N |
| Cluster.RawQDistanceMatrixProperties | cluster.py:141-148 | the raw scalar distance matrix is symmetric and zero on its diagonal |
| Cluster.PairwiseQDistanceMatrix | cluster.py:150-154 | the matrix is returned unscaled when no entry exceeds 1, and scaled otherwise |
| Cluster.DegreeMatrix | cluster.py:177-183 | D is diagonal, and D[i][i] is the sum of column i of W |
| Cluster.DegreeOfSymmetric | cluster.py:181 | for a symmetric W the degree is also the row sum |
| Cluster.DegreePositive | cluster.py:181 | non-negative similarities with a positive diagonal give positive degrees |
| Cluster.Laplacian | cluster.py:53 | L = D - W keeps the N x N shape |
| Cluster.LaplacianEntries | cluster.py:53 | L[i][j] = -W[i][j] off the diagonal, and L[i][i] = D[i][i] - W[i][i] |
| Cluster.LaplacianColumnsSumToZero | cluster.py:53 | every column of D - W sums to 0 |
| Cluster.LaplacianRowsSumToZero | cluster.py:53 | every row of D - W sums to 0 when W is symmetric |
| Cluster.Reciprocals | cluster.py:56 | each entry of np.divide(1, v) times the entry of v is 1 |
| Cluster.RandomWalkLaplacian | cluster.py:56 | Lrw keeps the N x N shape |
| Cluster.DegreeMatrixColumnSums | cluster.py:56 | np.sum(D, 0) recovers the diagonal of D |
| Cluster.RandomWalkLaplacianRows | cluster.py:56 | Lrw[i][j] = L[i][j] / D[i][i], and row i of Lrw sums to 0 when row i of L does |
| Cluster.RandomWalkRowsSumToZero | cluster.py:53-56 | for a symmetric W every row of Lrw sums to 0 |
| Cluster.SliceStop | cluster.py:64 | a slice stop is clamped to the row width like Python's `0:stop` |
| Cluster.FirstColumns | cluster.py:64 | every row of U is a prefix of the matching eigenvector row, of length min(stop, width) |
| Cluster.SpectralEmbedding | cluster.py:32-64 | the guards reject exactly `no_of_eigvec == 1`, then exactly an empty input; otherwise W, D, L, Lrw and U are built from one another in order |
| Cluster.EarlyExitComputesNothing | cluster.py:32-39 | a guarded exit depends on no fiber geometry, kernel width or collaborator |
| Cluster.PositiveKernelReachesEmbedding | cluster.py:46-64 | past the guards, a positive exponential always reaches the embedding |
| Cluster.EmbeddingLaplacian | cluster.py:50-56 | inside the pipeline, every degree is non-zero, Lrw[i][j] = L[i][j] / D[i][i], and Lrw rows sum to 0 for a symmetric W |
| Cluster.ColourRangeProperties | cluster.py:196 | 127.5 + 127.5c lies in [0, 255] exactly when c lies in [-1, 1]; the map is strictly increasing and has an inverse |
| Cluster.ComponentWithinLength | cluster.py:192-193 | no component of a row exceeds the row's length |
| Cluster.UnitComponent | cluster.py:193 | a component divided by its row's length lies in [-1, 1] |
| Cluster.ClusterToRgb | cluster.py:185-198 | one row per data row, at most 3 entries wide, every entry in [0, 255] |
| Cluster.ClusterToRgbRecoversDirection | cluster.py:189-196 | undoing the colour map and multiplying by the row length gives back the data entry |
| Cluster.ClusterToRgbUsesFirstThreeColumns | cluster.py:189 | data that agree on their first three columns give the same colours |
| Cluster.ColourTableSource | cluster.py:71-74 | the colour table comes from `U` when `no_of_eigvec == 2` and from the centroids otherwise |
| Cluster.TwoEigenvectorsGiveNarrowColours | cluster.py:64-72 | with two eigenvectors every colour row has at most two components |
| Cluster.FormatOutput | cluster.py:214-217 | exactly one colour and one cluster number per fiber, in fiber order: colour fidx is row clusterIdx[fidx] of the table, number fidx is clusterIdx[fidx]; colours stay in [0, 255] when the table does |
| Cluster.NarrowTableBreaksLookup | cluster.py:214-216 | with at least one fiber, a table whose rows have at most two entries fails the loop's lookups |
| Cluster.TwoEigenvectorsBreakLookup | cluster.py:64-216 | with `no_of_eigvec == 2` and at least one fiber, the colour table fails the lookups of the loop as written |
| Cluster.ComponentOrNeutral | cluster.py:216 | a component present in the row is returned unchanged; a missing one is the colour of a zero component |
| Cluster.PaddedColourOf | cluster.py:215-216 | on rows of three or more entries, the same colour the loop as written reads |
| Cluster.FormatOutputPadded | cluster.py:214-217 | one colour and one cluster number per fiber, in order, for any table whose rows the cluster numbers name; the same colours as the loop as written wherever its lookups are in range; colours stay in [0, 255] when the table does |

## Left out

- `np.linalg.eig` (cluster.py:60) is a parameter. Its ordering, complex output and numerics are not modelled; only the truncation at cluster.py:64 is.
- `scipy.cluster.vq.kmeans2` and `centroid_order` (cluster.py:68-69) are randomised and foreign. The centroids enter only as an input to `ColourTableSource`.
- `MinMaxScaler` (cluster.py:105, cluster.py:152) is a parameter. `PreservesShape` is all that is assumed of it.
- `np.exp` (distance.py:116) is a parameter. Only its positivity, `exp(0) = 1` and monotonicity appear, and only as hypotheses of lemmas.
- `np.sqrt` (cluster.py:192) is replaced by row lengths that the caller supplies.
- ClusterToRgb: a zero row gives `0/0` (NaN) in the source. The model requires every colour row to have a positive length.
- `joblib.Parallel` (cluster.py:98, cluster.py:141) is modelled as a sequential map over fiber indices.
- VTK arrays, the `polyData` mutation, the `unsigned char` and `int` casts (cluster.py:203-226), and all `print` output are I/O and not modelled. `FormatOutput` returns the two arrays it fills as sequences of reals and integers.
- `fibers.FiberArray` and `scalars.FiberArrayScalar` loading and resampling (cluster.py:95-96, cluster.py:135-139) are not part of this model. A fiber group is given directly, with 20 points per fiber in the pipeline.
- `_pairwiseQSimilarity_matrix` (cluster.py:156-175) only composes `PairwiseQDistanceMatrix` with `GausKernelSimilarity`. It is not restated.
- PairwiseSimilarityMatrix: requires `sigma != 0`. The source divides by zero there.
- SpectralEmbedding: a zero degree gives the outcome `ZeroDegree`. In the source, `np.divide(1, 0)` makes row i of `Lrw` hold infinities, and NaN at `L[i][i] = 0` (cluster.py:56). `np.linalg.eig` then rejects the non-finite matrix (cluster.py:60).
- SpectralEmbedding: stops at `U`. Clustering, colour selection and attachment are modelled as separate members.
- PairwiseQDistanceMatrix: requires at least one fiber. On the empty matrix, `np.max` raises at cluster.py:151.
- FormatOutput: requires three colour components for every looked-up row. The source raises `IndexError` at cluster.py:216 when the table comes from `U` with `no_of_eigvec == 2`. `TwoEigenvectorsBreakLookup` shows this case, and `FormatOutputPadded` is the total version.
- ScalarDistanceInternal: requires profiles of at least one point, as the source divides by the profile length.

## Findings

| source | as written | input that shows it | evidently intended | confidence | as-written member | corrected member |
|---|---|---|---|---|---|---|
| cluster.py:64-72, cluster.py:214-216 | with `no_of_eigvec == 2` the colour table is `_cluster_to_rgb(U)`, at most two columns wide, and the loop reads `colour[clusterIdx[fidx], 2]` | any input with at least one fiber and `no_of_eigvec == 2` | every fiber gets a colour; a component the table lacks takes the neutral value 127.5, the colour of a zero component | medium, not executed | Cluster.TwoEigenvectorsBreakLookup | Cluster.FormatOutputPadded |
