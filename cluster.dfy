/** The clustering pipeline of cluster.py, up to the spectral embedding:
    the input guards of `spectralClustering`, the pairwise distance and
    similarity matrices, the degree matrix, the unnormalised and the
    random-walk Laplacian, and the truncation to the first eigenvectors;
    then the cluster colour map of `_cluster_to_rgb` and the per-fiber
    attachment loop of `_format_outputVTK`. */
module Cluster {
  import opened Sums
  import opened Matrices
  import opened Distance

  /** Every fiber is resampled to this many points before clustering. */
  const PtsPerFiber: nat := 20

  // ---------------------------------------------------------------------
  // Pairwise matrices

  /** `_pairwiseDistance_matrix` before normalisation: row `fidx` holds
      `fiberDistance` from fiber `fidx` to every fiber. */
  function PairwiseDistanceMatrix(fiberArray: FiberArray): (r: Matrix)
    requires WellFormed(fiberArray)
    ensures IsSquare(r) && |r| == |fiberArray.fibers|
  {
    seq(|fiberArray.fibers|, fidx requires 0 <= fidx < |fiberArray.fibers| =>
      FiberDistance(fiberArray.fibers[fidx], fiberArray))
  }

  /** The raw distance matrix is symmetric, non-negative, zero on its
      diagonal, and entry `(i, j)` is the orientation-free distance
      between fibers `i` and `j`. */
  lemma PairwiseDistanceMatrixProperties(fiberArray: FiberArray)
    requires WellFormed(fiberArray)
    ensures var m := PairwiseDistanceMatrix(fiberArray);
      Symmetric(m) &&
      (forall i :: 0 <= i < |m| ==> m[i][i] == 0.0) &&
      (forall i, j :: 0 <= i < |m| && 0 <= j < |m| ==>
         m[i][j] >= 0.0 &&
         m[i][j] == OrientedDistance(fiberArray.fibers[i], fiberArray.fibers[j], fiberArray.ptsPerFiber))
  {
    var m := PairwiseDistanceMatrix(fiberArray);
    var fibers, pts := fiberArray.fibers, fiberArray.ptsPerFiber;
    forall i, j | 0 <= i < |m| && 0 <= j < |m|
      ensures m[i][j] == OrientedDistance(fibers[i], fibers[j], pts) == m[j][i]
    {
      FiberDistanceEntry(fibers[i], fiberArray, j);
      FiberDistanceEntry(fibers[j], fiberArray, i);
      OrientedDistanceSymmetric(fibers[i], fibers[j], pts);
    }
    forall i | 0 <= i < |m|
      ensures m[i][i] == 0.0
    {
      OrientedDistanceZeroIff(fibers[i], fibers[i], pts);
    }
  }

  /** The min-max scaler keeps the shape of a square matrix. */
  ghost predicate PreservesShape(scale: Matrix -> Matrix)
  {
    forall m: Matrix :: IsSquare(m) ==> IsSquare(scale(m)) && |scale(m)| == |m|
  }

  /** `_pairwiseSimilarity_matrix`: the Gaussian kernel with `sigma` squared
      applied to the min-max scaled distance matrix. The scaler and the
      exponential are parameters. */
  function PairwiseSimilarityMatrix(fiberArray: FiberArray, sigma: real,
                                    minMaxScale: Matrix -> Matrix, exp: real -> real): (r: Matrix)
    requires WellFormed(fiberArray) && sigma != 0.0 && PreservesShape(minMaxScale)
    ensures IsSquare(r) && |r| == |fiberArray.fibers|
  {
    var distances := minMaxScale(PairwiseDistanceMatrix(fiberArray));
    SquareNonZero(sigma);
    GausKernelSimilarity(distances, Square(sigma), exp)
  }

  /** With a positive exponential every similarity is positive. */
  lemma PairwiseSimilarityPositive(fiberArray: FiberArray, sigma: real,
                                   minMaxScale: Matrix -> Matrix, exp: real -> real)
    requires WellFormed(fiberArray) && sigma != 0.0 && PreservesShape(minMaxScale)
    requires forall x :: exp(x) > 0.0
    ensures var w := PairwiseSimilarityMatrix(fiberArray, sigma, minMaxScale, exp);
      forall i, j :: 0 <= i < |w| && 0 <= j < |w| ==> w[i][j] > 0.0
  {
  }

  /** The scalar distance matrix before any normalisation. */
  function RawQDistanceMatrix(profiles: Matrix, pts: nat): (r: Matrix)
    requires pts >= 1 && IsMatrix(profiles, |profiles|, pts)
    ensures IsSquare(r) && |r| == |profiles|
  {
    seq(|profiles|, fidx requires 0 <= fidx < |profiles| => ScalarDistance(profiles[fidx], profiles))
  }

  /** The raw scalar distance matrix is symmetric and zero on its diagonal. */
  lemma RawQDistanceMatrixProperties(profiles: Matrix, pts: nat)
    requires pts >= 1 && IsMatrix(profiles, |profiles|, pts)
    ensures var q := RawQDistanceMatrix(profiles, pts);
      Symmetric(q) && forall i :: 0 <= i < |q| ==> q[i][i] == 0.0
  {
    var q := RawQDistanceMatrix(profiles, pts);
    forall i, j | 0 <= i < |q| && 0 <= j < |q|
      ensures q[i][j] == q[j][i]
    {
      ScalarDistancePairSymmetric(profiles[i], profiles[j]);
      assert ScalarDistance(profiles[i], [profiles[j]])[0] == q[i][j];
      assert ScalarDistance(profiles[j], [profiles[i]])[0] == q[j][i];
    }
    forall i | 0 <= i < |q|
      ensures q[i][i] == 0.0
    {
      ScalarDistanceZeroIff(profiles[i], profiles, i);
    }
  }

  /** `_pairwiseQDistance_matrix`: the scalar distance matrix, min-max scaled
      only when some entry exceeds 1. */
  function PairwiseQDistanceMatrix(profiles: Matrix, pts: nat, minMaxScale: Matrix -> Matrix): (r: Matrix)
    requires |profiles| >= 1 && pts >= 1 && IsMatrix(profiles, |profiles|, pts)
    ensures var raw := RawQDistanceMatrix(profiles, pts);
      ((forall i, j :: 0 <= i < |raw| && 0 <= j < |raw| ==> raw[i][j] <= 1.0) ==> r == raw) &&
      ((exists i, j :: 0 <= i < |raw| && 0 <= j < |raw| && raw[i][j] > 1.0) ==> r == minMaxScale(raw))
  {
    var qDistances := RawQDistanceMatrix(profiles, pts);
    if exists i, j | 0 <= i < |qDistances| && 0 <= j < |qDistances| :: qDistances[i][j] > 1.0 then
      minMaxScale(qDistances)
    else
      qDistances
  }

  // ---------------------------------------------------------------------
  // Degree matrix and Laplacians

  /** `_degreeMatrix`: the diagonal matrix of the column sums of `w`. */
  function DegreeMatrix(w: Matrix): (d: Matrix)
    requires IsSquare(w)
    ensures IsSquare(d) && |d| == |w|
    ensures forall i, j :: 0 <= i < |w| && 0 <= j < |w| && i != j ==> d[i][j] == 0.0
    ensures forall i :: 0 <= i < |w| ==> d[i][i] == Sum(Column(w, i))
  {
    Diag(ColumnSums(w, |w|))
  }

  /** For a symmetric `w` the column sums are the row sums. */
  lemma DegreeOfSymmetric(w: Matrix)
    requires IsSquare(w) && Symmetric(w)
    ensures forall i :: 0 <= i < |w| ==> DegreeMatrix(w)[i][i] == Sum(w[i])
  {
    forall i | 0 <= i < |w|
      ensures Column(w, i) == w[i]
    {
    }
  }

  /** Non-negative similarities with a positive diagonal give positive degrees. */
  lemma DegreePositive(w: Matrix)
    requires IsSquare(w)
    requires forall i, j :: 0 <= i < |w| && 0 <= j < |w| ==> w[i][j] >= 0.0
    requires forall i :: 0 <= i < |w| ==> w[i][i] > 0.0
    ensures forall i :: 0 <= i < |w| ==> DegreeMatrix(w)[i][i] > 0.0
  {
    forall i | 0 <= i < |w|
      ensures Sum(Column(w, i)) > 0.0
    {
      SumAtLeastEntry(Column(w, i), i);
    }
  }

  /** `L = D - W` */
  function Laplacian(d: Matrix, w: Matrix): (l: Matrix)
    requires IsSquare(d) && IsSquare(w) && |d| == |w|
    ensures IsSquare(l) && |l| == |w|
  {
    Difference(d, w)
  }

  /** Off the diagonal `L` is `-W`; on it, the degree minus the self-similarity. */
  lemma LaplacianEntries(w: Matrix)
    requires IsSquare(w)
    ensures var l := Laplacian(DegreeMatrix(w), w);
      forall i, j :: 0 <= i < |w| && 0 <= j < |w| ==>
        l[i][j] == if i == j then Sum(Column(w, i)) - w[i][i] else -w[i][j]
  {
  }

  /** Every column of `D - W` sums to zero, for any `W`. */
  lemma LaplacianColumnsSumToZero(w: Matrix)
    requires IsSquare(w)
    ensures var l := Laplacian(DegreeMatrix(w), w);
      forall j :: 0 <= j < |w| ==> Sum(Column(l, j)) == 0.0
  {
    var d := DegreeMatrix(w);
    forall j | 0 <= j < |w|
      ensures Sum(Column(Laplacian(d, w), j)) == 0.0
    {
      ColumnOfDifference(d, w, |w|, j);
      SumMinus(Column(d, j), Column(w, j));
      DiagColumnSums(ColumnSums(w, |w|));
      assert Sum(Column(d, j)) == ColumnSums(d, |w|)[j];
    }
  }

  /** Every row of `D - W` sums to zero when `W` is symmetric. */
  lemma LaplacianRowsSumToZero(w: Matrix)
    requires IsSquare(w) && Symmetric(w)
    ensures var l := Laplacian(DegreeMatrix(w), w);
      forall i :: 0 <= i < |w| ==> Sum(l[i]) == 0.0
  {
    var d := DegreeMatrix(w);
    DegreeOfSymmetric(w);
    forall i | 0 <= i < |w|
      ensures Sum(Laplacian(d, w)[i]) == 0.0
    {
      SumMinus(d[i], w[i]);
      DiagRowSum(ColumnSums(w, |w|), i);
    }
  }

  /** `np.divide(1, v)` */
  function Reciprocals(v: seq<real>): (r: seq<real>)
    requires forall i :: 0 <= i < |v| ==> v[i] != 0.0
    ensures |r| == |v| && forall i :: 0 <= i < |v| ==> r[i] * v[i] == 1.0
  {
    seq(|v|, i requires 0 <= i < |v| => 1.0 / v[i])
  }

  /** No column of `d` sums to zero. */
  predicate NonZeroDegrees(d: Matrix)
    requires IsSquare(d)
  {
    forall j :: 0 <= j < |d| ==> ColumnSums(d, |d|)[j] != 0.0
  }

  /** `Lrw = np.dot(np.diag(np.divide(1, np.sum(D, 0))), L)` */
  function RandomWalkLaplacian(d: Matrix, l: Matrix): (lrw: Matrix)
    requires IsSquare(d) && IsSquare(l) && |d| == |l| && NonZeroDegrees(d)
    ensures IsSquare(lrw) && |lrw| == |l|
  {
    Dot(Diag(Reciprocals(ColumnSums(d, |d|))), l, |l|)
  }

  /** The column sums of the degree matrix are the degrees themselves. */
  lemma DegreeMatrixColumnSums(w: Matrix)
    requires IsSquare(w)
    ensures ColumnSums(DegreeMatrix(w), |w|) == ColumnSums(w, |w|)
    ensures forall i :: 0 <= i < |w| ==> ColumnSums(DegreeMatrix(w), |w|)[i] == DegreeMatrix(w)[i][i]
    ensures NonZeroDegrees(DegreeMatrix(w)) <==> forall i :: 0 <= i < |w| ==> DegreeMatrix(w)[i][i] != 0.0
  {
    DiagColumnSums(ColumnSums(w, |w|));
  }

  /** Row `i` of the random-walk Laplacian is row `i` of `L` divided by the
      degree of fiber `i` (the column sums of `D` give back its diagonal);
      it sums to zero whenever that row of `L` does. */
  lemma RandomWalkLaplacianRows(w: Matrix)
    requires IsSquare(w) && NonZeroDegrees(DegreeMatrix(w))
    ensures forall i :: 0 <= i < |w| ==> DegreeMatrix(w)[i][i] != 0.0
    ensures var d := DegreeMatrix(w);
      var l := Laplacian(d, w);
      var lrw := RandomWalkLaplacian(d, l);
      (forall i, j :: 0 <= i < |w| && 0 <= j < |w| ==> lrw[i][j] == l[i][j] / d[i][i]) &&
      (forall i :: 0 <= i < |w| && Sum(l[i]) == 0.0 ==> Sum(lrw[i]) == 0.0)
  {
    var d := DegreeMatrix(w);
    var l := Laplacian(d, w);
    var degrees := ColumnSums(w, |w|);
    DegreeMatrixColumnSums(w);
    var inv := Reciprocals(degrees);
    DotDiagScalesRows(inv, l, |l|);
    var lrw := RandomWalkLaplacian(d, l);
    forall i, j | 0 <= i < |w| && 0 <= j < |w|
      ensures lrw[i][j] == l[i][j] / d[i][i]
    {
      assert lrw[i] == Scale(inv[i], l[i]);
    }
    forall i | 0 <= i < |w| && Sum(l[i]) == 0.0
      ensures Sum(lrw[i]) == 0.0
    {
      SumScale(inv[i], l[i]);
    }
  }

  /** For a symmetric similarity matrix every row of the random-walk
      Laplacian sums to zero. */
  lemma RandomWalkRowsSumToZero(w: Matrix)
    requires IsSquare(w) && Symmetric(w) && NonZeroDegrees(DegreeMatrix(w))
    ensures var d := DegreeMatrix(w);
      var lrw := RandomWalkLaplacian(d, Laplacian(d, w));
      forall i :: 0 <= i < |w| ==> Sum(lrw[i]) == 0.0
  {
    LaplacianRowsSumToZero(w);
    RandomWalkLaplacianRows(w);
  }

  // ---------------------------------------------------------------------
  // Column truncation

  /** Where Python's slice `0:stop` ends in a row of `width` entries. */
  function SliceStop(stop: int, width: nat): (r: nat)
    ensures r <= width
    ensures 0 <= stop ==> r == if stop < width then stop else width
    ensures stop < 0 ==> r == if width + stop < 0 then 0 else width + stop
  {
    if stop < 0 then (if width + stop < 0 then 0 else width + stop)
    else if stop < width then stop
    else width
  }

  /** `m[:, 0:stop]`: the leading columns of every row. */
  function FirstColumns(m: Matrix, stop: int): (r: Matrix)
    ensures |r| == |m|
    ensures forall i :: 0 <= i < |m| ==> |r[i]| <= |m[i]| && r[i] == m[i][..|r[i]|]
    ensures 0 <= stop ==> forall i :: 0 <= i < |m| ==> |r[i]| == if stop < |m[i]| then stop else |m[i]|
  {
    seq(|m|, i requires 0 <= i < |m| => m[i][..SliceStop(stop, |m[i]|)])
  }

  // ---------------------------------------------------------------------
  // The pipeline up to the spectral embedding

  datatype Embedding = Embedding(w: Matrix, d: Matrix, l: Matrix, lrw: Matrix, u: Matrix)

  datatype Outcome =
    | SingleEigenvector          // rejected: `no_of_eigvec == 1`
    | NoFibers                   // rejected: the input has no fibers
    | ZeroDegree                 // a degree of zero: `1 / 0` for the random-walk scaling
    | Embedded(embedding: Embedding)

  /** What the matrix stages need of their inputs: fibers resampled to
      `PtsPerFiber` points, a non-zero kernel width and a shape-keeping scaler. */
  ghost predicate Admissible(fiberArray: FiberArray, sigma: real, minMaxScale: Matrix -> Matrix)
  {
    WellFormed(fiberArray) && fiberArray.ptsPerFiber == PtsPerFiber &&
    sigma != 0.0 && PreservesShape(minMaxScale)
  }

  /** `spectralClustering` up to the embedding `U`. The eigen-decomposition
      is the parameter `eig`, which returns the eigenvectors as columns.
      The guards read nothing but `no_of_eigvec` and the fiber count, so
      the other inputs are constrained only past them. */
  function SpectralEmbedding(fiberArray: FiberArray, noOfEigvec: int, sigma: real,
                             minMaxScale: Matrix -> Matrix, exp: real -> real,
                             eig: Matrix -> Matrix): (r: Outcome)
    requires noOfEigvec != 1 && |fiberArray.fibers| > 0 ==> Admissible(fiberArray, sigma, minMaxScale)
    ensures r == SingleEigenvector <==> noOfEigvec == 1
    ensures r == NoFibers <==> noOfEigvec != 1 && |fiberArray.fibers| == 0
    ensures r.Embedded? ==>
      var e := r.embedding;
      e.w == PairwiseSimilarityMatrix(fiberArray, sigma, minMaxScale, exp) &&
      e.d == DegreeMatrix(e.w) && NonZeroDegrees(e.d) &&
      e.l == Laplacian(e.d, e.w) &&
      e.lrw == RandomWalkLaplacian(e.d, e.l) &&
      e.u == FirstColumns(eig(e.lrw), noOfEigvec)
  {
    if noOfEigvec == 1 then
      SingleEigenvector
    else if |fiberArray.fibers| == 0 then
      NoFibers
    else
      var w := PairwiseSimilarityMatrix(fiberArray, sigma, minMaxScale, exp);
      var d := DegreeMatrix(w);
      var l := Laplacian(d, w);
      if NonZeroDegrees(d) then
        var lrw := RandomWalkLaplacian(d, l);
        Embedded(Embedding(w, d, l, lrw, FirstColumns(eig(lrw), noOfEigvec)))
      else
        ZeroDegree
  }

  /** The guards return before any matrix is built: the outcome does not
      depend on the fibers' geometry, the kernel width or any collaborator. */
  lemma EarlyExitComputesNothing(a: FiberArray, b: FiberArray, noOfEigvec: int,
                                 sigmaA: real, sigmaB: real,
                                 scaleA: Matrix -> Matrix, scaleB: Matrix -> Matrix,
                                 expA: real -> real, expB: real -> real,
                                 eigA: Matrix -> Matrix, eigB: Matrix -> Matrix)
    requires noOfEigvec == 1 || (|a.fibers| == 0 && |b.fibers| == 0)
    ensures SpectralEmbedding(a, noOfEigvec, sigmaA, scaleA, expA, eigA)
         == SpectralEmbedding(b, noOfEigvec, sigmaB, scaleB, expB, eigB)
    ensures !SpectralEmbedding(a, noOfEigvec, sigmaA, scaleA, expA, eigA).Embedded?
  {
  }

  /** With a positive exponential (as `np.exp` is) no degree is zero, so a
      configuration that passes the guards always reaches the embedding. */
  lemma PositiveKernelReachesEmbedding(fiberArray: FiberArray, noOfEigvec: int, sigma: real,
                                       minMaxScale: Matrix -> Matrix, exp: real -> real,
                                       eig: Matrix -> Matrix)
    requires WellFormed(fiberArray) && fiberArray.ptsPerFiber == PtsPerFiber
    requires sigma != 0.0 && PreservesShape(minMaxScale)
    requires forall x :: exp(x) > 0.0
    requires noOfEigvec != 1 && |fiberArray.fibers| > 0
    ensures SpectralEmbedding(fiberArray, noOfEigvec, sigma, minMaxScale, exp, eig).Embedded?
  {
    var w := PairwiseSimilarityMatrix(fiberArray, sigma, minMaxScale, exp);
    PairwiseSimilarityPositive(fiberArray, sigma, minMaxScale, exp);
    DegreePositive(w);
    DegreeMatrixColumnSums(w);
  }

  /** In the embedding, the random-walk Laplacian is `L` with row `i` divided
      by degree `i`, and its rows sum to zero when `W` is symmetric. */
  lemma EmbeddingLaplacian(fiberArray: FiberArray, noOfEigvec: int, sigma: real,
                           minMaxScale: Matrix -> Matrix, exp: real -> real,
                           eig: Matrix -> Matrix)
    requires WellFormed(fiberArray) && fiberArray.ptsPerFiber == PtsPerFiber
    requires sigma != 0.0 && PreservesShape(minMaxScale)
    requires SpectralEmbedding(fiberArray, noOfEigvec, sigma, minMaxScale, exp, eig).Embedded?
    ensures var e := SpectralEmbedding(fiberArray, noOfEigvec, sigma, minMaxScale, exp, eig).embedding;
      var n := |fiberArray.fibers|;
      IsMatrix(e.lrw, n, n) &&
      (forall i :: 0 <= i < n ==> e.d[i][i] != 0.0 && ColumnSums(e.d, n)[i] == e.d[i][i]) &&
      (forall i, j :: 0 <= i < n && 0 <= j < n ==> e.lrw[i][j] == e.l[i][j] / e.d[i][i]) &&
      (Symmetric(e.w) ==> forall i :: 0 <= i < n ==> Sum(e.lrw[i]) == 0.0)
  {
    var e := SpectralEmbedding(fiberArray, noOfEigvec, sigma, minMaxScale, exp, eig).embedding;
    DegreeMatrixColumnSums(e.w);
    RandomWalkLaplacianRows(e.w);
    if Symmetric(e.w) {
      RandomWalkRowsSumToZero(e.w);
    }
  }

  // ---------------------------------------------------------------------
  // Cluster colours

  /** `127.5 + c * 127.5`: maps `[-1, 1]` onto `[0, 255]`. */
  function ColourRange(c: real): real
  {
    127.5 + c * 127.5
  }

  /** The inverse of the colour map. */
  function ColourRangeInverse(v: real): real
  {
    (v - 127.5) / 127.5
  }

  /** The colour map sends exactly `[-1, 1]` into `[0, 255]`, strictly
      increasingly, and the inverse undoes it. */
  lemma ColourRangeProperties(c: real, c': real, v: real)
    ensures -1.0 <= c <= 1.0 <==> 0.0 <= ColourRange(c) <= 255.0
    ensures c < c' ==> ColourRange(c) < ColourRange(c')
    ensures ColourRangeInverse(ColourRange(c)) == c && ColourRange(ColourRangeInverse(v)) == v
  {
  }

  function SumOfSquares(row: seq<real>): real
  {
    Sum(seq(|row|, j requires 0 <= j < |row| => Square(row[j])))
  }

  /** `colourLen[i]` is the Euclidean length of row `i` of `colour`, which
      is not the zero row (`np.sqrt(np.sum(np.power(colour, 2), 1))`). */
  predicate IsRowLengths(colour: Matrix, colourLen: seq<real>)
  {
    |colourLen| == |colour| &&
    forall i :: 0 <= i < |colour| ==> colourLen[i] > 0.0 && Square(colourLen[i]) == SumOfSquares(colour[i])
  }

  /** No component of a vector exceeds its length. */
  lemma ComponentWithinLength(row: seq<real>, len: real, j: int)
    requires len > 0.0 && Square(len) == SumOfSquares(row) && 0 <= j < |row|
    ensures -len <= row[j] <= len
  {
    var squares := seq(|row|, k requires 0 <= k < |row| => Square(row[k]));
    forall k | 0 <= k < |row| ensures squares[k] >= 0.0 {
      SquareNonNegative(row[k]);
    }
    SumAtLeastEntry(squares, j);
    SquareBound(row[j], len);
  }

  /** Component `j` of `row` divided by the row's length. */
  function UnitComponent(row: seq<real>, len: real, j: int): (r: real)
    requires len > 0.0 && Square(len) == SumOfSquares(row) && 0 <= j < |row|
    ensures -1.0 <= r <= 1.0
  {
    ComponentWithinLength(row, len, j);
    row[j] / len
  }

  /** `_cluster_to_rgb`: the first three columns, scaled to unit length per
      row, mapped from `[-1, 1]` to `[0, 255]`. The row lengths are given,
      since reals have no exact square root. */
  function ClusterToRgb(data: Matrix, colourLen: seq<real>): (r: Matrix)
    requires IsRowLengths(FirstColumns(data, 3), colourLen)
    ensures |r| == |data|
    ensures forall i :: 0 <= i < |r| ==> |r[i]| == if |data[i]| < 3 then |data[i]| else 3
    ensures forall i, j :: 0 <= i < |r| && 0 <= j < |r[i]| ==> 0.0 <= r[i][j] <= 255.0
  {
    var colour := FirstColumns(data, 3);
    seq(|colour|, i requires 0 <= i < |colour| =>
      seq(|colour[i]|, j requires 0 <= j < |colour[i]| =>
        ColourRange(UnitComponent(colour[i], colourLen[i], j))))
  }

  /** Each colour component gives back the matching component of the
      unit-length direction it was made from. */
  lemma ClusterToRgbRecoversDirection(data: Matrix, colourLen: seq<real>, i: int, j: int)
    requires IsRowLengths(FirstColumns(data, 3), colourLen)
    requires 0 <= i < |data| && 0 <= j < |data[i]| && j < 3
    ensures ColourRangeInverse(ClusterToRgb(data, colourLen)[i][j]) * colourLen[i] == data[i][j]
  {
    var c := data[i][j] / colourLen[i];
    assert FirstColumns(data, 3)[i][j] == data[i][j];
    assert ClusterToRgb(data, colourLen)[i][j] == ColourRange(c);
    ColourRangeProperties(c, c, 0.0);
  }

  /** Only the first three columns of the data reach the colours. */
  lemma ClusterToRgbUsesFirstThreeColumns(a: Matrix, b: Matrix, colourLen: seq<real>)
    requires FirstColumns(a, 3) == FirstColumns(b, 3)
    requires IsRowLengths(FirstColumns(a, 3), colourLen)
    ensures ClusterToRgb(a, colourLen) == ClusterToRgb(b, colourLen)
  {
  }

  /** The colour table is built from `U` when `no_of_eigvec == 2`, and from
      the centroids otherwise. */
  function ColourTableSource(noOfEigvec: int, u: Matrix, centroids: Matrix): (r: Matrix)
    ensures noOfEigvec == 2 ==> r == u
    ensures noOfEigvec != 2 ==> r == centroids
  {
    if noOfEigvec == 2 then u else centroids
  }

  /** With `no_of_eigvec == 2` the colour table comes from `U`, whose rows
      have at most two entries, so no colour row has a third component. */
  lemma TwoEigenvectorsGiveNarrowColours(fiberArray: FiberArray, sigma: real,
                                         minMaxScale: Matrix -> Matrix, exp: real -> real,
                                         eig: Matrix -> Matrix, centroids: Matrix, colourLen: seq<real>)
    requires WellFormed(fiberArray) && fiberArray.ptsPerFiber == PtsPerFiber
    requires sigma != 0.0 && PreservesShape(minMaxScale)
    requires SpectralEmbedding(fiberArray, 2, sigma, minMaxScale, exp, eig).Embedded?
    requires var u := SpectralEmbedding(fiberArray, 2, sigma, minMaxScale, exp, eig).embedding.u;
      IsRowLengths(FirstColumns(ColourTableSource(2, u, centroids), 3), colourLen)
    ensures var u := SpectralEmbedding(fiberArray, 2, sigma, minMaxScale, exp, eig).embedding.u;
      var colour := ClusterToRgb(ColourTableSource(2, u, centroids), colourLen);
      forall k :: 0 <= k < |colour| ==> |colour[k]| <= 2
  {
  }

  // ---------------------------------------------------------------------
  // Attaching the result to the fibers

  datatype Rgb = Rgb(red: real, green: real, blue: real)

  /** The first three components of a colour-table row. */
  function ColourOf(row: seq<real>): Rgb
    requires |row| >= 3
  {
    Rgb(row[0], row[1], row[2])
  }

  predicate InByteRange(colour: Matrix)
  {
    forall k, c :: 0 <= k < |colour| && 0 <= c < |colour[k]| ==> 0.0 <= colour[k][c] <= 255.0
  }

  /** Every lookup `colour[clusterIdx[fidx], c]` of the loop, for `c` in
      0, 1, 2, is in range: where this fails, the source raises `IndexError`. */
  predicate LookupsInRange(numberOfLines: nat, clusterIdx: seq<nat>, colour: Matrix)
  {
    numberOfLines <= |clusterIdx| &&
    forall fidx :: 0 <= fidx < numberOfLines ==>
      clusterIdx[fidx] < |colour| && |colour[clusterIdx[fidx]]| >= 3
  }

  /** The loop of `_format_outputVTK` as written: for every fiber, in order,
      append the colour of its cluster and its cluster number. */
  method FormatOutput(numberOfLines: nat, clusterIdx: seq<nat>, colour: Matrix)
    returns (dataColour: seq<Rgb>, clusterNumber: seq<int>)
    requires LookupsInRange(numberOfLines, clusterIdx, colour)
    ensures |dataColour| == numberOfLines && |clusterNumber| == numberOfLines
    ensures forall fidx :: 0 <= fidx < numberOfLines ==>
      dataColour[fidx] == ColourOf(colour[clusterIdx[fidx]]) && clusterNumber[fidx] == clusterIdx[fidx]
    ensures InByteRange(colour) ==> forall fidx :: 0 <= fidx < numberOfLines ==>
      var c := dataColour[fidx];
      0.0 <= c.red <= 255.0 && 0.0 <= c.green <= 255.0 && 0.0 <= c.blue <= 255.0
  {
    dataColour, clusterNumber := [], [];
    var fidx := 0;
    while fidx < numberOfLines
      invariant 0 <= fidx <= numberOfLines
      invariant |dataColour| == fidx && |clusterNumber| == fidx
      invariant forall k :: 0 <= k < fidx ==>
        dataColour[k] == ColourOf(colour[clusterIdx[k]]) && clusterNumber[k] == clusterIdx[k]
    {
      var row := colour[clusterIdx[fidx]];
      dataColour := dataColour + [Rgb(row[0], row[1], row[2])];
      clusterNumber := clusterNumber + [clusterIdx[fidx]];
      fidx := fidx + 1;
    }
  }

  /** A colour table without a third column fails the first lookup. */
  lemma NarrowTableBreaksLookup(numberOfLines: nat, clusterIdx: seq<nat>, colour: Matrix)
    requires numberOfLines >= 1
    requires forall k :: 0 <= k < |colour| ==> |colour[k]| <= 2
    ensures !LookupsInRange(numberOfLines, clusterIdx, colour)
  {
    if numberOfLines <= |clusterIdx| && clusterIdx[0] < |colour| {
      assert |colour[clusterIdx[0]]| <= 2;
    }
  }

  /** With `no_of_eigvec == 2` the loop as written fails on the first fiber:
      the colour table made from `U` has no third component to look up. */
  lemma TwoEigenvectorsBreakLookup(fiberArray: FiberArray, sigma: real,
                                   minMaxScale: Matrix -> Matrix, exp: real -> real,
                                   eig: Matrix -> Matrix, centroids: Matrix, colourLen: seq<real>,
                                   numberOfLines: nat, clusterIdx: seq<nat>)
    requires WellFormed(fiberArray) && fiberArray.ptsPerFiber == PtsPerFiber
    requires sigma != 0.0 && PreservesShape(minMaxScale)
    requires SpectralEmbedding(fiberArray, 2, sigma, minMaxScale, exp, eig).Embedded?
    requires var u := SpectralEmbedding(fiberArray, 2, sigma, minMaxScale, exp, eig).embedding.u;
      IsRowLengths(FirstColumns(ColourTableSource(2, u, centroids), 3), colourLen)
    requires numberOfLines >= 1
    ensures var u := SpectralEmbedding(fiberArray, 2, sigma, minMaxScale, exp, eig).embedding.u;
      !LookupsInRange(numberOfLines, clusterIdx, ClusterToRgb(ColourTableSource(2, u, centroids), colourLen))
  {
    var u := SpectralEmbedding(fiberArray, 2, sigma, minMaxScale, exp, eig).embedding.u;
    TwoEigenvectorsGiveNarrowColours(fiberArray, sigma, minMaxScale, exp, eig, centroids, colourLen);
    NarrowTableBreaksLookup(numberOfLines, clusterIdx, ClusterToRgb(ColourTableSource(2, u, centroids), colourLen));
  }

  /** The neutral colour value: the image of a zero component. */
  const Neutral: real := 127.5

  /** Component `c` of a colour-table row, or the neutral value when the
      row is too narrow to have one. */
  function ComponentOrNeutral(row: seq<real>, c: nat): (r: real)
    ensures c < |row| ==> r == row[c]
    ensures |row| <= c ==> r == ColourRange(0.0)
  {
    if c < |row| then row[c] else Neutral
  }

  /** The first three components of a row of any width, the missing ones
      neutral. */
  function PaddedColourOf(row: seq<real>): (r: Rgb)
    ensures |row| >= 3 ==> r == ColourOf(row)
  {
    Rgb(ComponentOrNeutral(row, 0), ComponentOrNeutral(row, 1), ComponentOrNeutral(row, 2))
  }

  /** The attachment loop with the lookup made total: it needs only that
      every cluster number names a row of the table. On tables of three or
      more columns it produces what the loop as written produces; on the
      two-column table of `no_of_eigvec == 2` it still gives every fiber a
      colour in `[0, 255]`. */
  method FormatOutputPadded(numberOfLines: nat, clusterIdx: seq<nat>, colour: Matrix)
    returns (dataColour: seq<Rgb>, clusterNumber: seq<int>)
    requires numberOfLines <= |clusterIdx|
    requires forall fidx :: 0 <= fidx < numberOfLines ==> clusterIdx[fidx] < |colour|
    ensures |dataColour| == numberOfLines && |clusterNumber| == numberOfLines
    ensures forall fidx :: 0 <= fidx < numberOfLines ==>
      dataColour[fidx] == PaddedColourOf(colour[clusterIdx[fidx]]) && clusterNumber[fidx] == clusterIdx[fidx]
    ensures LookupsInRange(numberOfLines, clusterIdx, colour) ==> forall fidx :: 0 <= fidx < numberOfLines ==>
      dataColour[fidx] == ColourOf(colour[clusterIdx[fidx]])
    ensures InByteRange(colour) ==> forall fidx :: 0 <= fidx < numberOfLines ==>
      var c := dataColour[fidx];
      0.0 <= c.red <= 255.0 && 0.0 <= c.green <= 255.0 && 0.0 <= c.blue <= 255.0
  {
    dataColour, clusterNumber := [], [];
    var fidx := 0;
    while fidx < numberOfLines
      invariant 0 <= fidx <= numberOfLines
      invariant |dataColour| == fidx && |clusterNumber| == fidx
      invariant forall k :: 0 <= k < fidx ==>
        dataColour[k] == PaddedColourOf(colour[clusterIdx[k]]) && clusterNumber[k] == clusterIdx[k]
    {
      var row := colour[clusterIdx[fidx]];
      dataColour := dataColour + [PaddedColourOf(row)];
      clusterNumber := clusterNumber + [clusterIdx[fidx]];
      fidx := fidx + 1;
    }
  }
}
