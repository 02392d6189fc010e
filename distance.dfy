/** The fiber distance engine of distance.py: positional mean-squared
    distance between one fiber and every fiber of a group, taken as the
    smaller of the two orientations of the single fiber; the same measure
    over per-point scalar profiles; and the Gaussian similarity kernel. */
module Distance {
  import opened Sums
  import opened Matrices

  datatype Point = Point(x: real, y: real, z: real)

  /** A fiber is its ordered sequence of resampled points. */
  type Fiber = seq<Point>

  /** A group of fibers that all carry `ptsPerFiber` points. */
  datatype FiberArray = FiberArray(fibers: seq<Fiber>, ptsPerFiber: nat)

  predicate WellFormed(group: FiberArray)
  {
    group.ptsPerFiber >= 1 &&
    forall j :: 0 <= j < |group.fibers| ==> |group.fibers[j]| == group.ptsPerFiber
  }

  /** The same fiber traversed from its other end. The fiber container's
      `getReverseFiber` is taken to reverse the point order. */
  function ReverseFiber(fiber: Fiber): Fiber
  {
    Reverse(fiber)
  }

  /** The per-point squared Euclidean difference `dx_sq + dy_sq + dz_sq`,
      where each `d` is `other` minus `fiber` at the same point index. */
  function PointwiseSquaredDiff(fiber: Fiber, other: Fiber): (r: seq<real>)
    requires |fiber| == |other|
    ensures |r| == |fiber| && AllNonNegative(r)
  {
    seq(|fiber|, p requires 0 <= p < |fiber| =>
      var dx, dy, dz := other[p].x - fiber[p].x, other[p].y - fiber[p].y, other[p].z - fiber[p].z;
      SquareNonNegative(dx); SquareNonNegative(dy); SquareNonNegative(dz);
      Square(dx) + Square(dy) + Square(dz))
  }

  /** The squared differences summed along the fiber, divided by the
      number of points per fiber. */
  function MeanSquaredDistance(fiber: Fiber, other: Fiber, pts: nat): (r: real)
    requires |fiber| == |other| && pts >= 1
    ensures r >= 0.0
  {
    SumNonNegative(PointwiseSquaredDiff(fiber, other));
    Sum(PointwiseSquaredDiff(fiber, other)) / pts as real
  }

  /** `_fiberDistance_internal`: one mean-squared distance per fiber of the group. */
  function FiberDistanceInternal(fiber: Fiber, group: FiberArray): (r: seq<real>)
    requires WellFormed(group) && |fiber| == group.ptsPerFiber
    ensures |r| == |group.fibers|
    ensures forall j :: 0 <= j < |r| ==> r[j] >= 0.0
  {
    seq(|group.fibers|, j requires 0 <= j < |group.fibers| =>
      MeanSquaredDistance(fiber, group.fibers[j], group.ptsPerFiber))
  }

  /** The orientation-free distance between two fibers: the smaller of the
      distances from `fiber` and from its reversal to `other`. */
  function OrientedDistance(fiber: Fiber, other: Fiber, pts: nat): (r: real)
    requires |fiber| == |other| && pts >= 1
    ensures var forward := MeanSquaredDistance(fiber, other, pts);
      var backward := MeanSquaredDistance(ReverseFiber(fiber), other, pts);
      0.0 <= r && r <= forward && r <= backward && (r == forward || r == backward)
  {
    Min(MeanSquaredDistance(fiber, other, pts), MeanSquaredDistance(ReverseFiber(fiber), other, pts))
  }

  /** `fiberDistance`: the element-wise minimum of the distances of the
      fiber and of its reversed copy to every fiber of the group. */
  function FiberDistance(fiber: Fiber, group: FiberArray): (r: seq<real>)
    requires WellFormed(group) && |fiber| == group.ptsPerFiber
    ensures |r| == |group.fibers|
    ensures forall j :: 0 <= j < |r| ==>
      var forward := FiberDistanceInternal(fiber, group)[j];
      var backward := FiberDistanceInternal(ReverseFiber(fiber), group)[j];
      0.0 <= r[j] && r[j] <= forward && r[j] <= backward && (r[j] == forward || r[j] == backward)
  {
    var distance1 := FiberDistanceInternal(fiber, group);
    var distance2 := FiberDistanceInternal(ReverseFiber(fiber), group);
    seq(|group.fibers|, j requires 0 <= j < |group.fibers| => Min(distance1[j], distance2[j]))
  }

  // ---------------------------------------------------------------------
  // Properties of the positional distance

  /** A fiber is at distance zero from itself. */
  lemma MeanSquaredDistanceSelf(fiber: Fiber, pts: nat)
    requires pts >= 1
    ensures MeanSquaredDistance(fiber, fiber, pts) == 0.0
  {
    var diffs := PointwiseSquaredDiff(fiber, fiber);
    forall p | 0 <= p < |diffs| ensures diffs[p] == 0.0 {
      assert Square(fiber[p].x - fiber[p].x) == Square(0.0) == 0.0;
      assert Square(fiber[p].y - fiber[p].y) == Square(0.0);
      assert Square(fiber[p].z - fiber[p].z) == Square(0.0);
    }
    SumZeroIff(diffs);
  }

  /** The positional distance is zero exactly for identical fibers. */
  lemma MeanSquaredDistanceZeroIff(fiber: Fiber, other: Fiber, pts: nat)
    requires |fiber| == |other| && pts >= 1
    ensures MeanSquaredDistance(fiber, other, pts) == 0.0 <==> fiber == other
  {
    var diffs := PointwiseSquaredDiff(fiber, other);
    SumZeroIff(diffs);
    if MeanSquaredDistance(fiber, other, pts) == 0.0 {
      assert Sum(diffs) == 0.0;
      forall p | 0 <= p < |fiber|
        ensures fiber[p] == other[p]
      {
        var dx, dy, dz := other[p].x - fiber[p].x, other[p].y - fiber[p].y, other[p].z - fiber[p].z;
        SquareNonNegative(dx); SquareNonNegative(dy); SquareNonNegative(dz);
        assert diffs[p] == Square(dx) + Square(dy) + Square(dz) == 0.0;
        SquareZero(dx); SquareZero(dy); SquareZero(dz);
      }
    } else if fiber == other {
      MeanSquaredDistanceSelf(fiber, pts);
    }
  }

  /** The positional distance does not depend on which fiber is subtracted. */
  lemma MeanSquaredDistanceSymmetric(fiber: Fiber, other: Fiber, pts: nat)
    requires |fiber| == |other| && pts >= 1
    ensures MeanSquaredDistance(fiber, other, pts) == MeanSquaredDistance(other, fiber, pts)
  {
    forall p | 0 <= p < |fiber|
      ensures PointwiseSquaredDiff(fiber, other)[p] == PointwiseSquaredDiff(other, fiber)[p]
    {
      var dx, dy, dz := other[p].x - fiber[p].x, other[p].y - fiber[p].y, other[p].z - fiber[p].z;
      assert Square(dx) == Square(-dx) && Square(dy) == Square(-dy) && Square(dz) == Square(-dz);
    }
    assert PointwiseSquaredDiff(fiber, other) == PointwiseSquaredDiff(other, fiber);
  }

  /** Reversing the first fiber is the same as reversing the second. */
  lemma MeanSquaredDistanceReverse(fiber: Fiber, other: Fiber, pts: nat)
    requires |fiber| == |other| && pts >= 1
    ensures MeanSquaredDistance(ReverseFiber(fiber), other, pts)
         == MeanSquaredDistance(fiber, ReverseFiber(other), pts)
  {
    var a := PointwiseSquaredDiff(ReverseFiber(fiber), other);
    var b := PointwiseSquaredDiff(fiber, ReverseFiber(other));
    assert a == Reverse(b);
    SumReverse(b);
  }

  /** Reversing both fibers leaves the positional distance unchanged. */
  lemma MeanSquaredDistanceReverseBoth(fiber: Fiber, other: Fiber, pts: nat)
    requires |fiber| == |other| && pts >= 1
    ensures MeanSquaredDistance(ReverseFiber(fiber), ReverseFiber(other), pts)
         == MeanSquaredDistance(fiber, other, pts)
  {
    MeanSquaredDistanceReverse(fiber, ReverseFiber(other), pts);
    ReverseInvolution(other);
  }

  // ---------------------------------------------------------------------
  // Properties of the orientation-free distance

  /** Entry `j` of `fiberDistance` is the orientation-free distance to fiber `j`. */
  lemma FiberDistanceEntry(fiber: Fiber, group: FiberArray, j: int)
    requires WellFormed(group) && |fiber| == group.ptsPerFiber && 0 <= j < |group.fibers|
    ensures FiberDistance(fiber, group)[j] == OrientedDistance(fiber, group.fibers[j], group.ptsPerFiber)
  {
  }

  /** The orientation-free distance is symmetric. */
  lemma OrientedDistanceSymmetric(fiber: Fiber, other: Fiber, pts: nat)
    requires |fiber| == |other| && pts >= 1
    ensures OrientedDistance(fiber, other, pts) == OrientedDistance(other, fiber, pts)
  {
    MeanSquaredDistanceSymmetric(fiber, other, pts);
    MeanSquaredDistanceReverse(other, fiber, pts);
    MeanSquaredDistanceSymmetric(fiber, ReverseFiber(other), pts);
    MeanSquaredDistanceSymmetric(ReverseFiber(fiber), other, pts);
    MeanSquaredDistanceReverse(fiber, other, pts);
  }

  /** Reversing either fiber leaves the orientation-free distance unchanged. */
  lemma OrientedDistanceReversal(fiber: Fiber, other: Fiber, pts: nat)
    requires |fiber| == |other| && pts >= 1
    ensures OrientedDistance(ReverseFiber(fiber), other, pts) == OrientedDistance(fiber, other, pts)
    ensures OrientedDistance(fiber, ReverseFiber(other), pts) == OrientedDistance(fiber, other, pts)
  {
    ReverseInvolution(fiber);
    ReverseInvolution(other);
    MeanSquaredDistanceReverse(fiber, other, pts);
    MeanSquaredDistanceReverseBoth(fiber, other, pts);
  }

  /** The orientation-free distance vanishes exactly when the two fibers are
      the same curve, recorded in the same or in the opposite order. */
  lemma OrientedDistanceZeroIff(fiber: Fiber, other: Fiber, pts: nat)
    requires |fiber| == |other| && pts >= 1
    ensures OrientedDistance(fiber, other, pts) == 0.0 <==> other == fiber || other == ReverseFiber(fiber)
  {
    MeanSquaredDistanceZeroIff(fiber, other, pts);
    MeanSquaredDistanceZeroIff(ReverseFiber(fiber), other, pts);
  }

  /** `fiberDistance` is unchanged when the single fiber is reversed. */
  lemma FiberDistanceReversalInvariant(fiber: Fiber, group: FiberArray)
    requires WellFormed(group) && |fiber| == group.ptsPerFiber
    ensures FiberDistance(ReverseFiber(fiber), group) == FiberDistance(fiber, group)
  {
    forall j | 0 <= j < |group.fibers|
      ensures FiberDistance(ReverseFiber(fiber), group)[j] == FiberDistance(fiber, group)[j]
    {
      OrientedDistanceReversal(fiber, group.fibers[j], group.ptsPerFiber);
    }
  }

  /** `fiberDistance` is unchanged when a group member is reversed. */
  lemma FiberDistanceGroupReversal(fiber: Fiber, group: FiberArray, j: int)
    requires WellFormed(group) && |fiber| == group.ptsPerFiber && 0 <= j < |group.fibers|
    ensures WellFormed(group.(fibers := group.fibers[j := ReverseFiber(group.fibers[j])]))
    ensures FiberDistance(fiber, group.(fibers := group.fibers[j := ReverseFiber(group.fibers[j])]))
         == FiberDistance(fiber, group)
  {
    var flipped := group.(fibers := group.fibers[j := ReverseFiber(group.fibers[j])]);
    forall k | 0 <= k < |group.fibers|
      ensures FiberDistance(fiber, flipped)[k] == FiberDistance(fiber, group)[k]
    {
      if k == j {
        OrientedDistanceReversal(fiber, group.fibers[j], group.ptsPerFiber);
      }
    }
  }

  /** For two single fibers, `fiberDistance(F, [G]) == fiberDistance(G, [F])`. */
  lemma FiberDistancePairSymmetric(fiber: Fiber, other: Fiber, pts: nat)
    requires |fiber| == |other| == pts && pts >= 1
    ensures FiberDistance(fiber, FiberArray([other], pts)) == FiberDistance(other, FiberArray([fiber], pts))
  {
    OrientedDistanceSymmetric(fiber, other, pts);
  }

  /** `fiberDistance` is zero at every index where the group holds the
      fiber itself or its reversal, and only there. */
  lemma FiberDistanceZeroIff(fiber: Fiber, group: FiberArray, j: int)
    requires WellFormed(group) && |fiber| == group.ptsPerFiber && 0 <= j < |group.fibers|
    ensures FiberDistance(fiber, group)[j] == 0.0
        <==> group.fibers[j] == fiber || group.fibers[j] == ReverseFiber(fiber)
  {
    OrientedDistanceZeroIff(fiber, group.fibers[j], group.ptsPerFiber);
  }

  // ---------------------------------------------------------------------
  // Scalar profiles

  /** The squared differences of two scalar profiles, summed along the
      fiber and divided by the profile length. */
  function ScalarMeanSquared(fiberScalar: seq<real>, other: seq<real>): (r: real)
    requires |fiberScalar| == |other| >= 1
    ensures r >= 0.0
  {
    var squares := seq(|fiberScalar|, p requires 0 <= p < |fiberScalar| =>
      SquareNonNegative(other[p] - fiberScalar[p]); Square(other[p] - fiberScalar[p]));
    SumNonNegative(squares);
    Sum(squares) / |fiberScalar| as real
  }

  /** `_scalarDistance_internal`: one mean-squared difference per profile. */
  function ScalarDistanceInternal(fiberScalar: seq<real>, fiberScalarArray: Matrix): (r: seq<real>)
    requires |fiberScalar| >= 1 && IsMatrix(fiberScalarArray, |fiberScalarArray|, |fiberScalar|)
    ensures |r| == |fiberScalarArray|
    ensures forall j :: 0 <= j < |r| ==> r[j] >= 0.0
  {
    seq(|fiberScalarArray|, j requires 0 <= j < |fiberScalarArray| =>
      ScalarMeanSquared(fiberScalar, fiberScalarArray[j]))
  }

  /** `scalarDistance` forwards to the internal function: no reversal. */
  function ScalarDistance(fiberScalar: seq<real>, fiberScalarArray: Matrix): (r: seq<real>)
    requires |fiberScalar| >= 1 && IsMatrix(fiberScalarArray, |fiberScalarArray|, |fiberScalar|)
    ensures r == ScalarDistanceInternal(fiberScalar, fiberScalarArray)
  {
    ScalarDistanceInternal(fiberScalar, fiberScalarArray)
  }

  /** Entry `j` of `scalarDistance` is zero exactly when profile `j` equals the given one. */
  lemma ScalarDistanceZeroIff(fiberScalar: seq<real>, fiberScalarArray: Matrix, j: int)
    requires |fiberScalar| >= 1 && IsMatrix(fiberScalarArray, |fiberScalarArray|, |fiberScalar|)
    requires 0 <= j < |fiberScalarArray|
    ensures ScalarDistance(fiberScalar, fiberScalarArray)[j] == 0.0 <==> fiberScalarArray[j] == fiberScalar
  {
    var other := fiberScalarArray[j];
    var squares := seq(|fiberScalar|, p requires 0 <= p < |fiberScalar| => Square(other[p] - fiberScalar[p]));
    forall p | 0 <= p < |fiberScalar| ensures squares[p] >= 0.0 && (squares[p] == 0.0 <==> other[p] == fiberScalar[p]) {
      SquareNonNegative(other[p] - fiberScalar[p]);
      if squares[p] == 0.0 {
        SquareZero(other[p] - fiberScalar[p]);
      }
    }
    SumZeroIff(squares);
    assert ScalarMeanSquared(fiberScalar, other) == Sum(squares) / |fiberScalar| as real;
  }

  /** The scalar distance between two single profiles is symmetric. */
  lemma ScalarDistancePairSymmetric(a: seq<real>, b: seq<real>)
    requires |a| == |b| >= 1
    ensures ScalarDistance(a, [b]) == ScalarDistance(b, [a])
  {
    var ab := seq(|a|, p requires 0 <= p < |a| => Square(b[p] - a[p]));
    var ba := seq(|a|, p requires 0 <= p < |a| => Square(a[p] - b[p]));
    forall p | 0 <= p < |a| ensures ab[p] == ba[p] {
      assert Square(b[p] - a[p]) == Square(-(a[p] - b[p]));
    }
    assert ab == ba;
    assert ScalarMeanSquared(a, b) == Sum(ab) / |a| as real;
    assert ScalarMeanSquared(b, a) == Sum(ba) / |a| as real;
  }

  /** Unlike `fiberDistance`, `scalarDistance` sees the order of the points:
      a profile and its reversal are at a positive distance. */
  lemma ScalarDistanceOrientationSensitive()
    ensures ScalarDistance([0.0, 1.0], [[1.0, 0.0]]) == [1.0]
    ensures ScalarDistance([0.0, 1.0], [Reverse([1.0, 0.0])]) == [0.0]
  {
    assert Reverse([1.0, 0.0]) == [0.0, 1.0];
    ScalarDistanceZeroIff([0.0, 1.0], [[0.0, 1.0]], 0);
    var squares := seq(2, p requires 0 <= p < 2 => Square([1.0, 0.0][p] - [0.0, 1.0][p]));
    assert squares == [1.0, 1.0];
    assert [1.0, 1.0][1..] == [1.0];
    assert Sum([1.0]) == 1.0 + Sum([]);
    assert Sum(squares) == 2.0;
    assert ScalarMeanSquared([0.0, 1.0], [1.0, 0.0]) == 1.0;
  }

  // ---------------------------------------------------------------------
  // Gaussian similarity kernel

  /** `gausKernel_similarity`: `exp(-d / (2 sigmasq))` entry by entry. The
      exponential is a parameter: reals have no exact `exp`. */
  function GausKernelSimilarity(distances: Matrix, sigmasq: real, exp: real -> real): (r: Matrix)
    requires sigmasq != 0.0
    ensures |r| == |distances| && forall i :: 0 <= i < |r| ==> |r[i]| == |distances[i]|
  {
    seq(|distances|, i requires 0 <= i < |distances| =>
      seq(|distances[i]|, j requires 0 <= j < |distances[i]| => exp(-distances[i][j] / (2.0 * sigmasq))))
  }

  /** A zero distance becomes a unit similarity when `exp(0) == 1`, and a
      positive exponential gives positive similarities. */
  lemma GausKernelValues(distances: Matrix, sigmasq: real, exp: real -> real, i: int, j: int)
    requires sigmasq != 0.0 && 0 <= i < |distances| && 0 <= j < |distances[i]|
    ensures exp(0.0) == 1.0 && distances[i][j] == 0.0 ==> GausKernelSimilarity(distances, sigmasq, exp)[i][j] == 1.0
    ensures (forall x :: exp(x) > 0.0) ==> GausKernelSimilarity(distances, sigmasq, exp)[i][j] > 0.0
  {
  }

  /** With a positive width and an increasing exponential, a larger distance
      never gives a larger similarity. */
  lemma GausKernelMonotone(distances: Matrix, sigmasq: real, exp: real -> real, i: int, j: int, k: int, l: int)
    requires sigmasq > 0.0
    requires forall x, y :: x <= y ==> exp(x) <= exp(y)
    requires 0 <= i < |distances| && 0 <= j < |distances[i]|
    requires 0 <= k < |distances| && 0 <= l < |distances[k]|
    requires distances[i][j] <= distances[k][l]
    ensures GausKernelSimilarity(distances, sigmasq, exp)[k][l] <= GausKernelSimilarity(distances, sigmasq, exp)[i][j]
  {
    var s := 2.0 * sigmasq;
    assert -distances[k][l] / s <= -distances[i][j] / s by {
      assert -distances[k][l] / s == -(distances[k][l] / s);
      assert -distances[i][j] / s == -(distances[i][j] / s);
      assert distances[i][j] / s <= distances[k][l] / s;
    }
  }

  /** With a positive width, a monotone exponential and `exp(0) == 1`, a
      non-negative distance never gives a similarity above 1. */
  lemma GausKernelAtMostOne(distances: Matrix, sigmasq: real, exp: real -> real, i: int, j: int)
    requires sigmasq > 0.0 && exp(0.0) == 1.0
    requires forall x, y :: x <= y ==> exp(x) <= exp(y)
    requires 0 <= i < |distances| && 0 <= j < |distances[i]| && distances[i][j] >= 0.0
    ensures GausKernelSimilarity(distances, sigmasq, exp)[i][j] <= 1.0
  {
    assert -distances[i][j] / (2.0 * sigmasq) <= 0.0 by {
      assert distances[i][j] / (2.0 * sigmasq) >= 0.0;
    }
  }

  /** With a strictly increasing exponential and `exp(0) == 1`, similarity 1
      is reached exactly at distance 0 (identical fibers). */
  lemma GausKernelUnitIff(distances: Matrix, sigmasq: real, exp: real -> real, i: int, j: int)
    requires sigmasq > 0.0 && exp(0.0) == 1.0
    requires forall x, y :: x < y ==> exp(x) < exp(y)
    requires 0 <= i < |distances| && 0 <= j < |distances[i]| && distances[i][j] >= 0.0
    ensures GausKernelSimilarity(distances, sigmasq, exp)[i][j] == 1.0 <==> distances[i][j] == 0.0
  {
    var d := distances[i][j];
    if d > 0.0 {
      assert -d / (2.0 * sigmasq) < 0.0 by {
        assert d / (2.0 * sigmasq) > 0.0;
      }
    }
  }
}
