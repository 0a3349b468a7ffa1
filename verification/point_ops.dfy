/**
 * Point-cloud helpers of geo_operations.py for one batch element:
 * `normalize_point_batch` (centre on the centroid, scale by the furthest
 * distance) and `pointUniformLaplacian` with given neighbour indices
 * (each point minus the mean of its neighbours).
 */
module PointOps {
  import opened Vectors
  import opened Wrappers
  import opened Sparse
  import opened GatherScatter

  // ---------------------------------------------------------------------
  // normalize_point_batch
  // ---------------------------------------------------------------------

  /** `torch.mean(pc, dim=point_axis)`: the coordinate-wise mean. */
  function Centroid(pc: seq<Vector>, dim: nat): (c: Vector)
    requires IsCloud(pc, dim) && |pc| > 0
    ensures |c| == dim
  {
    seq(dim, d requires 0 <= d < dim => Sum(Column(pc, d)) / |pc| as real)
  }

  /** Every point minus c. */
  function Centre(pc: seq<Vector>, c: Vector): (r: seq<Vector>)
    requires IsCloud(pc, |c|)
    ensures |r| == |pc| && IsCloud(r, |c|)
  {
    seq(|pc|, i requires 0 <= i < |pc| => Sub(pc[i], c))
  }

  /** The largest squared norm of a non-empty cloud. */
  function MaxSqrNorm(pts: seq<Vector>): real
    requires |pts| > 0
  {
    if |pts| == 1 then SqrNorm(pts[0])
    else
      var m := MaxSqrNorm(pts[..|pts| - 1]);
      var last := SqrNorm(pts[|pts| - 1]);
      if last > m then last else m
  }

  /** MaxSqrNorm bounds every point and is attained by one. */
  lemma {:induction false} MaxSqrNormIsMax(pts: seq<Vector>) returns (j: nat)
    requires |pts| > 0
    ensures forall i :: 0 <= i < |pts| ==> SqrNorm(pts[i]) <= MaxSqrNorm(pts)
    ensures j < |pts| && SqrNorm(pts[j]) == MaxSqrNorm(pts)
  {
    if |pts| == 1 {
      j := 0;
    } else {
      var p := pts[..|pts| - 1];
      var j' := MaxSqrNormIsMax(p);
      assert forall i :: 0 <= i < |p| ==> p[i] == pts[i];
      j := if SqrNorm(pts[|pts| - 1]) > MaxSqrNorm(p) then |pts| - 1 else j';
    }
  }

  /** fd is `max(sqrt(sum(pc ** 2)))` of the centred cloud: the square root
      is taken as given, so fd is the non-negative real whose square is the
      largest squared norm. */
  predicate IsFurthestDistance(fd: real, centred: seq<Vector>)
  {
    |centred| > 0 && fd >= 0.0 && fd * fd == MaxSqrNorm(centred)
  }

  /** Every point multiplied by k. */
  function ScaleCloud(k: real, pts: seq<Vector>): (r: seq<Vector>)
    ensures |r| == |pts| && forall i :: 0 <= i < |pts| ==> |r[i]| == |pts[i]|
  {
    seq(|pts|, i requires 0 <= i < |pts| => Scale(k, pts[i]))
  }

  datatype NormalizeError = EmptyCloud | ZeroScale

  datatype Normalized = Normalized(pc: seq<Vector>, centroid: Vector, furthest: real)

  /** `normalize_point_batch`: the centred cloud divided by fd, with the
      centroid and fd returned for undoing it. The mean of an empty cloud and
      a division by fd = 0 (all points equal) produce NaN in the source; here
      they are errors. */
  function NormalizePointBatch(pc: seq<Vector>, dim: nat, fd: real): (r: Result<Normalized, NormalizeError>)
    requires IsCloud(pc, dim)
    requires |pc| > 0 ==> IsFurthestDistance(fd, Centre(pc, Centroid(pc, dim)))
    ensures r == Failure(EmptyCloud) <==> |pc| == 0
    ensures r == Failure(ZeroScale) <==> |pc| > 0 && fd == 0.0
    ensures r.Success? ==>
      && |r.value.pc| == |pc| && IsCloud(r.value.pc, dim)
      && r.value.centroid == Centroid(pc, dim)
      && r.value.furthest == fd && fd > 0.0
  {
    if |pc| == 0 then Failure(EmptyCloud)
    else if fd == 0.0 then Failure(ZeroScale)
    else
      var c := Centroid(pc, dim);
      var centred := Centre(pc, c);
      Success(Normalized(ScaleCloud(1.0 / fd, centred), c, fd))
  }

  lemma {:induction false} CentreColumn(pc: seq<Vector>, c: Vector, d: nat)
    requires IsCloud(pc, |c|) && d < |c|
    ensures Column(Centre(pc, c), d) == Sub(Column(pc, d), Const(|pc|, c[d]))
  {
  }

  lemma {:induction false} MeanTimesCount(s: real, n: nat)
    requires n > 0
    ensures s - n as real * (s / n as real) == 0.0
  {
  }

  /** The centred cloud has zero mean in every coordinate. */
  lemma {:induction false} CentredMeanZero(pc: seq<Vector>, dim: nat)
    requires IsCloud(pc, dim) && |pc| > 0
    ensures forall d :: 0 <= d < dim ==> Sum(Column(Centre(pc, Centroid(pc, dim)), d)) == 0.0
  {
    var c := Centroid(pc, dim);
    forall d | 0 <= d < dim
      ensures Sum(Column(Centre(pc, c), d)) == 0.0
    {
      CentreColumn(pc, c, d);
      SumOfSub(Column(pc, d), Const(|pc|, c[d]));
      SumOfConst(|pc|, c[d]);
      MeanTimesCount(Sum(Column(pc, d)), |pc|);
    }
  }

  lemma {:induction false} ScaleBack(x: real, fd: real)
    requires fd != 0.0
    ensures ((1.0 / fd) * x) * fd == x
  {
  }

  /** Dividing the centred cloud by fd, multiplying back and adding the
      centre recovers every coordinate. */
  lemma {:induction false} CentredRoundTrip(pc: seq<Vector>, n: Normalized, i: nat, d: nat)
    requires IsCloud(pc, |n.centroid|) && n.furthest != 0.0 && i < |pc| && d < |n.centroid|
    requires n.pc == ScaleCloud(1.0 / n.furthest, Centre(pc, n.centroid))
    ensures n.pc[i][d] * n.furthest + n.centroid[d] == pc[i][d]
  {
    var x := pc[i][d] - n.centroid[d];
    assert Centre(pc, n.centroid)[i][d] == x;
    assert n.pc[i][d] == (1.0 / n.furthest) * x;
    ScaleBack(x, n.furthest);
  }

  /** Undoing the normalisation, `pc · fd + centroid`, gives back every
      coordinate of the input. */
  lemma {:induction false} NormalizeRoundTrip(pc: seq<Vector>, dim: nat, fd: real, i: nat, d: nat)
    requires IsCloud(pc, dim)
    requires |pc| > 0 ==> IsFurthestDistance(fd, Centre(pc, Centroid(pc, dim)))
    requires NormalizePointBatch(pc, dim, fd).Success? && i < |pc| && d < dim
    ensures var n := NormalizePointBatch(pc, dim, fd).value;
      n.pc[i][d] * n.furthest + n.centroid[d] == pc[i][d]
  {
    var n := NormalizePointBatch(pc, dim, fd).value;
    assert n == Normalized(ScaleCloud(1.0 / fd, Centre(pc, Centroid(pc, dim))), Centroid(pc, dim), fd);
    CentredRoundTrip(pc, n, i, d);
  }

  /** x ≤ m and k ≥ 0 give k·x ≤ k·m. */
  lemma {:induction false} ScaleMonotone(k: real, x: real, m: real)
    requires k >= 0.0 && x <= m
    ensures k * x <= k * m
  {
  }

  /** A vector no longer than fd, divided by fd, lies in the unit ball. */
  lemma {:induction false} ScaledIntoUnitBall(p: Vector, fd: real)
    requires fd > 0.0 && SqrNorm(p) <= fd * fd
    ensures SqrNorm(Scale(1.0 / fd, p)) <= 1.0
  {
    var k := 1.0 / fd;
    SqrNormOfScale(k, p);
    ScaleMonotone(k * k, SqrNorm(p), fd * fd);
    assert k * fd == 1.0;
    assert k * k * (fd * fd) == (k * fd) * (k * fd);
  }

  /** No point is further from the origin than the furthest distance. */
  lemma {:induction false} WithinFurthest(pts: seq<Vector>, fd: real, i: nat)
    requires |pts| > 0 && fd * fd == MaxSqrNorm(pts) && i < |pts|
    ensures SqrNorm(pts[i]) <= fd * fd
  {
    var _ := MaxSqrNormIsMax(pts);
  }

  /** Dividing by the furthest distance puts every point in the unit ball. */
  lemma {:induction false} ScaleCloudUnitBall(pts: seq<Vector>, fd: real, i: nat)
    requires |pts| > 0 && fd > 0.0 && fd * fd == MaxSqrNorm(pts) && i < |pts|
    ensures SqrNorm(ScaleCloud(1.0 / fd, pts)[i]) <= 1.0
  {
    WithinFurthest(pts, fd, i);
    ScaledIntoUnitBall(pts[i], fd);
  }

  /** Every normalised point lies in the closed unit ball. */
  lemma {:induction false} NormalizedInUnitBall(pc: seq<Vector>, dim: nat, fd: real)
    requires IsCloud(pc, dim)
    requires |pc| > 0 ==> IsFurthestDistance(fd, Centre(pc, Centroid(pc, dim)))
    requires NormalizePointBatch(pc, dim, fd).Success?
    ensures var n := NormalizePointBatch(pc, dim, fd).value;
      forall i :: 0 <= i < |pc| ==> SqrNorm(n.pc[i]) <= 1.0
  {
    var centred := Centre(pc, Centroid(pc, dim));
    assert NormalizePointBatch(pc, dim, fd).value.pc == ScaleCloud(1.0 / fd, centred);
    var n := NormalizePointBatch(pc, dim, fd).value;
    forall i | 0 <= i < |pc|
      ensures SqrNorm(n.pc[i]) <= 1.0
    {
      ScaleCloudUnitBall(centred, fd, i);
    }
  }

  // ---------------------------------------------------------------------
  // pointUniformLaplacian (with knn_idx given)
  // ---------------------------------------------------------------------

  datatype LaplacianError = NoNeighbours | NeighbourOutOfRange

  /** (N, K) neighbour indices, one row of K per point. */
  predicate IsNeighbourTable(knn: seq<seq<int>>, n: nat, k: nat)
  {
    |knn| == n && forall i :: 0 <= i < n ==> |knn[i]| == k
  }

  predicate NeighboursInRange(knn: seq<seq<int>>, n: nat)
  {
    forall i :: 0 <= i < |knn| ==> InRange(knn[i], n)
  }

  /** Mean of coordinate d over the neighbours of point i. */
  function NeighbourMean(points: seq<Vector>, dim: nat, idx: seq<int>, d: nat): real
    requires IsCloud(points, dim) && d < dim && InRange(idx, |points|) && |idx| > 0
  {
    Sum(Gather(Column(points, d), idx)) / |idx| as real
  }

  /** `lap = points − sum(group_points) / K`, where group_points gathers the K
      neighbours of every point. K = 0 divides by zero and an index outside
      [0, N) makes `torch.gather` raise; both are errors here. */
  function PointUniformLaplacian(points: seq<Vector>, dim: nat, knn: seq<seq<int>>, k: nat)
    : (r: Result<seq<Vector>, LaplacianError>)
    requires IsCloud(points, dim) && IsNeighbourTable(knn, |points|, k)
    ensures r.Failure? <==> (k == 0 && |points| > 0) || !NeighboursInRange(knn, |points|)
    ensures r.Success? ==> |r.value| == |points| && IsCloud(r.value, dim)
  {
    if !NeighboursInRange(knn, |points|) then Failure(NeighbourOutOfRange)
    else if k == 0 && |points| > 0 then Failure(NoNeighbours)
    else
      Success(seq(|points|, i requires 0 <= i < |points| =>
        seq(dim, d requires 0 <= d < dim => points[i][d] - NeighbourMean(points, dim, knn[i], d))))
  }

  /** Coordinate d of the vectors from each neighbour of point i to point i. */
  function Differences(points: seq<Vector>, dim: nat, i: nat, idx: seq<int>, d: nat): (r: seq<real>)
    requires IsCloud(points, dim) && i < |points| && d < dim && InRange(idx, |points|)
    ensures |r| == |idx|
  {
    seq(|idx|, t requires 0 <= t < |idx| => points[i][d] - points[idx[t]][d])
  }

  /** lap = p − s/k and sd = k·p − s give lap = sd/k. */
  lemma {:induction false} MeanOfDifference(p: real, s: real, k: real, lap: real, sd: real)
    requires k > 0.0 && lap == p - s / k && sd == k * p - s
    ensures lap == sd / k
  {
  }

  /** The Laplacian of point i is the mean of the difference vectors from its
      neighbours to it. */
  lemma {:induction false} PointLaplacianIsMeanDifference(points: seq<Vector>, dim: nat, knn: seq<seq<int>>, k: nat, i: nat, d: nat)
    requires IsCloud(points, dim) && IsNeighbourTable(knn, |points|, k)
    requires PointUniformLaplacian(points, dim, knn, k).Success? && i < |points| && d < dim
    ensures PointUniformLaplacian(points, dim, knn, k).value[i][d] == Sum(Differences(points, dim, i, knn[i], d)) / k as real
  {
    var g := Gather(Column(points, d), knn[i]);
    var p := points[i][d];
    var lap := PointUniformLaplacian(points, dim, knn, k).value[i][d];
    var sd := Sum(Differences(points, dim, i, knn[i], d));
    assert lap == p - Sum(g) / k as real;
    assert sd == k as real * p - Sum(g) by {
      assert Differences(points, dim, i, knn[i], d) == Sub(Const(k, p), g);
      SumOfSub(Const(k, p), g);
      SumOfConst(k, p);
    }
    MeanOfDifference(p, Sum(g), k as real, lap, sd);
  }

  /** The Laplacian of a cloud does not change when the cloud is translated. */
  lemma {:induction false} PointLaplacianTranslationInvariant(points: seq<Vector>, t: Vector, knn: seq<seq<int>>, k: nat)
    requires IsCloud(points, |t|) && IsNeighbourTable(knn, |points|, k)
    ensures PointUniformLaplacian(Translate(points, t), |t|, knn, k) == PointUniformLaplacian(points, |t|, knn, k)
  {
    var dim := |t|;
    var moved := Translate(points, t);
    var a := PointUniformLaplacian(moved, dim, knn, k);
    var b := PointUniformLaplacian(points, dim, knn, k);
    if a.Success? {
      forall i, d | 0 <= i < |points| && 0 <= d < dim
        ensures a.value[i][d] == b.value[i][d]
      {
        assert Differences(moved, dim, i, knn[i], d) == Differences(points, dim, i, knn[i], d);
        PointLaplacianIsMeanDifference(moved, dim, knn, k, i, d);
        PointLaplacianIsMeanDifference(points, dim, knn, k, i, d);
      }
      assert forall i :: 0 <= i < |points| ==> a.value[i] == b.value[i];
      assert a.value == b.value;
    }
  }

  /** Every point of a cloud of identical points has Laplacian zero. */
  lemma {:induction false} PointLaplacianOfConstantCloud(points: seq<Vector>, dim: nat, knn: seq<seq<int>>, k: nat)
    requires IsCloud(points, dim) && IsNeighbourTable(knn, |points|, k)
    requires forall i :: 0 <= i < |points| ==> points[i] == points[0]
    requires PointUniformLaplacian(points, dim, knn, k).Success?
    ensures forall i :: 0 <= i < |points| ==> PointUniformLaplacian(points, dim, knn, k).value[i] == Const(dim, 0.0)
  {
    var lap := PointUniformLaplacian(points, dim, knn, k).value;
    forall i, d | 0 <= i < |points| && 0 <= d < dim
      ensures lap[i][d] == 0.0
    {
      assert Differences(points, dim, i, knn[i], d) == Const(k, 0.0);
      SumOfConst(k, 0.0);
      PointLaplacianIsMeanDifference(points, dim, knn, k, i, d);
    }
  }
}
