/**
 * Dense k-nearest-neighbour grouping (operations.py `group_knn` and
 * `__batch_distance_matrix_general`): a squared-distance matrix per batch
 * element, an optional penalty that hides repeated coordinates, and a
 * selection of the k smallest entries of every row.
 */
module Knn {
  import opened Vectors
  import opened Wrappers

  /** `__batch_distance_matrix_general` on one batch element:
      D[i][j] = |a_i|² − 2 a_i·b_j + |b_j|². */
  function DistanceMatrix(a: seq<Vector>, b: seq<Vector>, dim: nat): (d: seq<Vector>)
    requires IsCloud(a, dim) && IsCloud(b, dim)
    ensures |d| == |a| && forall i :: 0 <= i < |d| ==> |d[i]| == |b|
  {
    seq(|a|, i requires 0 <= i < |a| =>
      seq(|b|, j requires 0 <= j < |b| => SqrNorm(a[i]) - 2.0 * Dot(a[i], b[j]) + SqrNorm(b[j])))
  }

  /** Over the reals every entry of the distance matrix is the squared
      Euclidean distance of its two points, hence never negative. */
  lemma {:induction false} DistanceMatrixIsSquaredDistance(a: seq<Vector>, b: seq<Vector>, dim: nat)
    requires IsCloud(a, dim) && IsCloud(b, dim)
    ensures forall i, j :: 0 <= i < |a| && 0 <= j < |b| ==>
      DistanceMatrix(a, b, dim)[i][j] == SqrNorm(Sub(a[i], b[j])) &&
      DistanceMatrix(a, b, dim)[i][j] >= 0.0
  {
    forall i, j | 0 <= i < |a| && 0 <= j < |b|
      ensures DistanceMatrix(a, b, dim)[i][j] == SqrNorm(Sub(a[i], b[j]))
    {
      SqrDistanceExpansion(a[i], b[j]);
    }
  }

  // ---------------------------------------------------------------------
  // Unique mode
  // ---------------------------------------------------------------------

  /** No earlier point has the same coordinates as point j. */
  predicate FirstOccurrence(pts: seq<Vector>, j: int)
    requires 0 <= j < |pts|
  {
    forall i :: 0 <= i < j ==> pts[i] != pts[j]
  }

  /** `indices_duplicated`: 0 at the index `np.unique(return_index=True)`
      keeps for each distinct coordinate tuple (its lowest index), 1 elsewhere. */
  function DuplicateMask(pts: seq<Vector>): (mask: seq<real>)
    ensures |mask| == |pts|
  {
    seq(|pts|, j requires 0 <= j < |pts| => if FirstOccurrence(pts, j) then 0.0 else 1.0)
  }

  /** Every point has an unmarked representative with the same coordinates,
      at an index no larger than its own and lower than any other copy. */
  lemma {:induction false} RepresentativeExists(pts: seq<Vector>, j: int) returns (i: int)
    requires 0 <= j < |pts|
    ensures 0 <= i <= j && pts[i] == pts[j] && DuplicateMask(pts)[i] == 0.0
    ensures forall i' :: 0 <= i' < i ==> pts[i'] != pts[j]
    decreases j
  {
    if FirstOccurrence(pts, j) {
      i := j;
    } else {
      var i' :| 0 <= i' < j && pts[i'] == pts[j];
      i := RepresentativeExists(pts, i');
    }
  }

  /** Two unmarked indices never share coordinates; with
      `RepresentativeExists` the mask keeps exactly one index per distinct
      coordinate tuple. */
  lemma {:induction false} DuplicateMaskKeepsOnePerTuple(pts: seq<Vector>)
    ensures forall i, i' ::
      (0 <= i < |pts| && 0 <= i' < |pts| && pts[i] == pts[i'] &&
       DuplicateMask(pts)[i] == 0.0 && DuplicateMask(pts)[i'] == 0.0) ==> i == i'
  {
    forall i, i' | 0 <= i < |pts| && 0 <= i' < |pts| && pts[i] == pts[i'] &&
                   DuplicateMask(pts)[i] == 0.0 && DuplicateMask(pts)[i'] == 0.0
      ensures i == i'
    {
      assert FirstOccurrence(pts, i) && FirstOccurrence(pts, i');
    }
  }

  /** `D += torch.max(D) * indices_duplicated` on one row. */
  function Penalise(row: seq<real>, mask: seq<real>, maxD: real): (r: seq<real>)
    requires |row| == |mask|
    ensures |r| == |row|
  {
    seq(|row|, j requires 0 <= j < |row| => row[j] + maxD * mask[j])
  }

  /** Unmarked entries keep their distance; marked ones gain the penalty. */
  lemma {:induction false} PenaliseEffect(row: seq<real>, pts: seq<Vector>, maxD: real)
    requires |row| == |pts|
    ensures forall j :: 0 <= j < |row| ==>
      Penalise(row, DuplicateMask(pts), maxD)[j] ==
        if FirstOccurrence(pts, j) then row[j] else row[j] + maxD
  {
  }

  // ---------------------------------------------------------------------
  // Top-k selection
  // ---------------------------------------------------------------------

  /** `torch.topk(-row, k, sorted=True)` as a specification: k distinct
      in-range indices, returned distances equal to the row's entries there,
      in non-decreasing order, none larger than any entry left out. */
  predicate IsKSmallest(row: seq<real>, k: nat, idx: seq<int>, dist: seq<real>)
  {
    && |idx| == k && |dist| == k
    && (forall t :: 0 <= t < k ==> 0 <= idx[t] < |row| && dist[t] == row[idx[t]])
    && (forall t, u :: 0 <= t < u < k ==> idx[t] != idx[u])
    && (forall t, u :: 0 <= t <= u < k ==> dist[t] <= dist[u])
    && (forall t, j :: 0 <= t < k && 0 <= j < |row| && j !in idx ==> dist[t] <= row[j])
  }

  /** Selection of the k smallest entries of a row, smallest first; among
      equal entries the lower index is taken first. */
  method TopK(row: seq<real>, k: nat) returns (idx: seq<int>, dist: seq<real>)
    requires k <= |row|
    ensures IsKSmallest(row, k, idx, dist)
  {
    var n := |row|;
    idx, dist := [], [];
    var rest := seq(n, j => j);
    forall j | 0 <= j < n
      ensures j in rest
    {
      assert rest[j] == j;
    }
    while |idx| < k
      invariant |idx| == |dist| <= k
      invariant |idx| + |rest| == n
      invariant forall q :: 0 <= q < |rest| ==> 0 <= rest[q] < n
      invariant forall q, q' :: 0 <= q < q' < |rest| ==> rest[q] < rest[q']
      invariant forall j :: 0 <= j < n ==> (j in idx <==> j !in rest)
      invariant forall t :: 0 <= t < |idx| ==> 0 <= idx[t] < n && dist[t] == row[idx[t]]
      invariant forall t, u :: 0 <= t < u < |idx| ==> idx[t] != idx[u]
      invariant forall t, u :: 0 <= t <= u < |dist| ==> dist[t] <= dist[u]
      invariant forall t, q :: 0 <= t < |dist| && 0 <= q < |rest| ==> dist[t] <= row[rest[q]]
      decreases k - |idx|
    {
      var best := 0;
      var q := 1;
      while q < |rest|
        invariant 0 <= best < |rest| && 1 <= q <= |rest|
        invariant forall q' :: 0 <= q' < q ==> row[rest[best]] <= row[rest[q']]
      {
        if row[rest[q]] < row[rest[best]] {
          best := q;
        }
        q := q + 1;
      }
      var j := rest[best];
      assert j !in idx;
      idx, dist := idx + [j], dist + [row[j]];
      rest := rest[..best] + rest[best + 1..];
    }
  }

  // ---------------------------------------------------------------------
  // group_knn
  // ---------------------------------------------------------------------

  datatype KnnError = TooFewPoints | EmptyDistanceMatrix

  /** Neighbours (B, M, k, dim), their indices (B, M, k) and distances (B, M, k). */
  datatype KnnOutput = KnnOutput(neighbors: seq<seq<seq<Vector>>>,
                                 indices: seq<seq<seq<int>>>,
                                 distances: seq<seq<seq<real>>>)

  /** Query and point tensors of a batch: B elements of m queries and n points. */
  predicate IsBatch(query: seq<seq<Vector>>, points: seq<seq<Vector>>, m: nat, n: nat, dim: nat)
  {
    && |query| == |points|
    && (forall b :: 0 <= b < |query| ==> |query[b]| == m && IsCloud(query[b], dim))
    && (forall b :: 0 <= b < |points| ==> |points[b]| == n && IsCloud(points[b], dim))
  }

  /** The distance matrices of all batch elements. */
  function BatchDistances(query: seq<seq<Vector>>, points: seq<seq<Vector>>, m: nat, n: nat, dim: nat)
    : (d: seq<seq<Vector>>)
    requires IsBatch(query, points, m, n, dim)
    ensures |d| == |query|
    ensures forall b :: 0 <= b < |d| ==> |d[b]| == m && forall i :: 0 <= i < m ==> |d[b][i]| == n
  {
    seq(|query|, b requires 0 <= b < |query| => DistanceMatrix(query[b], points[b], dim))
  }

  /** The matrix top-k runs on: the distances, with the duplicate penalty
      max(D) (taken over the whole batch) added in unique mode. */
  function SearchMatrix(query: seq<seq<Vector>>, points: seq<seq<Vector>>, m: nat, n: nat, dim: nat, unique: bool)
    : (s: seq<seq<Vector>>)
    requires IsBatch(query, points, m, n, dim)
    requires unique ==> |query| > 0 && m > 0 && n > 0
    ensures |s| == |query|
    ensures forall b :: 0 <= b < |s| ==> |s[b]| == m && forall i :: 0 <= i < m ==> |s[b][i]| == n
  {
    var d := BatchDistances(query, points, m, n, dim);
    if !unique then d
    else
      var all := Flatten(Flatten(d));
      assert d[0][0][0] in all by {
        var row, e := d[0][0], d[0][0][0];
        assert row in d[0] && e in row;
        FlattenMembers(d);
        assert row in Flatten(d);
        FlattenMembers(Flatten(d));
      }
      var maxD := MaxOf(all);
      seq(|d|, b requires 0 <= b < |d| =>
        var mask := DuplicateMask(points[b]);
        seq(m, i requires 0 <= i < m => Penalise(d[b][i], mask, maxD)))
  }

  /** `group_knn` (channel-last layout). It refuses k > N; in unique mode an
      empty distance tensor has no maximum. Otherwise every (batch, query) row
      of the search matrix gets its k smallest entries, and the neighbours are
      the points at the selected indices. */
  method GroupKnn(k: nat, query: seq<seq<Vector>>, points: seq<seq<Vector>>, m: nat, n: nat, dim: nat, unique: bool)
    returns (r: Result<KnnOutput, KnnError>)
    requires IsBatch(query, points, m, n, dim)
    ensures r.Failure? <==> k > n || (unique && (|query| == 0 || m == 0 || n == 0))
    ensures r.Success? ==>
      var s := SearchMatrix(query, points, m, n, dim, unique);
      var o := r.value;
      && |o.indices| == |o.distances| == |o.neighbors| == |query|
      && forall b :: 0 <= b < |query| ==>
        && |o.indices[b]| == |o.distances[b]| == |o.neighbors[b]| == m
        && forall i :: 0 <= i < m ==>
          && IsKSmallest(s[b][i], k, o.indices[b][i], o.distances[b][i])
          && |o.neighbors[b][i]| == k
          && forall t :: 0 <= t < k ==> o.neighbors[b][i][t] == points[b][o.indices[b][i][t]]
  {
    if k > n {
      return Failure(TooFewPoints);
    }
    if unique && (|query| == 0 || m == 0 || n == 0) {
      return Failure(EmptyDistanceMatrix);
    }
    var s := SearchMatrix(query, points, m, n, dim, unique);
    var nbs: seq<seq<seq<Vector>>> := [];
    var ids: seq<seq<seq<int>>> := [];
    var dss: seq<seq<seq<real>>> := [];
    var b := 0;
    while b < |query|
      invariant 0 <= b <= |query|
      invariant |ids| == |dss| == |nbs| == b
      invariant forall b' :: 0 <= b' < b ==>
        && |ids[b']| == |dss[b']| == |nbs[b']| == m
        && forall i :: 0 <= i < m ==>
          && IsKSmallest(s[b'][i], k, ids[b'][i], dss[b'][i])
          && |nbs[b'][i]| == k
          && forall t :: 0 <= t < k ==> nbs[b'][i][t] == points[b'][ids[b'][i][t]]
    {
      var rowIds: seq<seq<int>> := [];
      var rowDs: seq<seq<real>> := [];
      var rowNbs: seq<seq<Vector>> := [];
      var i := 0;
      while i < m
        invariant 0 <= i <= m
        invariant |rowIds| == |rowDs| == |rowNbs| == i
        invariant forall i' :: 0 <= i' < i ==>
          && IsKSmallest(s[b][i'], k, rowIds[i'], rowDs[i'])
          && |rowNbs[i']| == k
          && forall t :: 0 <= t < k ==> rowNbs[i'][t] == points[b][rowIds[i'][t]]
      {
        var sel, ds := TopK(s[b][i], k);
        var nb := seq(k, t requires 0 <= t < k => points[b][sel[t]]);
        rowIds, rowDs, rowNbs := rowIds + [sel], rowDs + [ds], rowNbs + [nb];
        i := i + 1;
      }
      ids, dss, nbs := ids + [rowIds], dss + [rowDs], nbs + [rowNbs];
      b := b + 1;
    }
    return Success(KnnOutput(nbs, ids, dss));
  }
}
