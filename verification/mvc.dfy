/**
 * The discrete stages of mean value coordinates (geo_operations.py
 * `mean_value_coordinates_3D` for triangle meshes and
 * `mean_value_coordinates` for planar polygons), for one query point.
 * Angles, sines, norms and the per-face weights they give are real inputs;
 * what is modelled is the clamping, the ordered mask overrides, the
 * face-to-vertex accumulation and the guarded normalisation.
 */
module Mvc {
  import opened Vectors
  import opened Wrappers
  import opened GatherScatter

  const PI: real := 3.1415927

  function Abs(x: real): real
  {
    if x < 0.0 then -x else x
  }

  // ---------------------------------------------------------------------
  // Clamping
  // ---------------------------------------------------------------------

  /** The two `torch.where` steps that pull x >= bound down to bound − eps
      and then x <= −bound up to −(bound − eps), written as the source's
      value arithmetic (`x − (x − (bound − eps))`). */
  function Clamp(x: real, bound: real, eps: real): (r: real)
    requires 0.0 < eps < bound
    ensures -bound < r < bound
  {
    var y := if x >= bound then x - (x - (bound - eps)) else x;
    if y <= -bound then y - (y + (bound - eps)) else y
  }

  /** `li` is clamped into (−2, 2) so that asin(li / 2) is finite. */
  function ClampEdge(li: real): real
  {
    Clamp(li, 2.0, 0.00002)
  }

  /** `ci` is clamped into (−1, 1) so that sqrt(1 − ci²) has a finite gradient. */
  function ClampCosine(ci: real): real
  {
    Clamp(ci, 1.0, 0.00001)
  }

  /** The clamp maps x >= bound to bound − eps and x <= −bound to −(bound − eps),
      and leaves every value strictly inside (−bound, bound) unchanged. */
  lemma {:induction false} ClampCases(x: real, bound: real, eps: real)
    requires 0.0 < eps < bound
    ensures x >= bound ==> Clamp(x, bound, eps) == bound - eps
    ensures x <= -bound ==> Clamp(x, bound, eps) == -(bound - eps)
    ensures -bound < x < bound ==> Clamp(x, bound, eps) == x
  {
  }

  /** Clamping twice is clamping once. */
  lemma {:induction false} ClampIdempotent(x: real, bound: real, eps: real)
    requires 0.0 < eps < bound
    ensures Clamp(Clamp(x, bound, eps), bound, eps) == Clamp(x, bound, eps)
  {
    ClampCases(Clamp(x, bound, eps), bound, eps);
  }

  // ---------------------------------------------------------------------
  // Normalisation and the vertex override (shared by 2D and 3D)
  // ---------------------------------------------------------------------

  /** Vertex j coincides with the query point (`dj < 1e-8`, `ri < 1e-8`). */
  predicate Near(d: real)
  {
    d < 0.00000001
  }

  predicate AnyNear(d: seq<real>)
  {
    exists j :: 0 <= j < |d| && Near(d[j])
  }

  /** When the query point sits on a vertex, the row becomes the indicator of
      the coincident vertices; otherwise it is left alone. */
  function VertexOverride(w: seq<real>, d: seq<real>): (r: seq<real>)
    requires |w| == |d|
    ensures |r| == |w|
    ensures AnyNear(d) ==> forall j :: 0 <= j < |r| ==> r[j] == if Near(d[j]) then 1.0 else 0.0
    ensures !AnyNear(d) ==> r == w
  {
    var zeroed := if AnyNear(d) then Const(|w|, 0.0) else w;
    seq(|w|, j requires 0 <= j < |w| => if Near(d[j]) then 1.0 else zeroed[j])
  }

  /** r is w divided by s, entry by entry: r[j]·s = w[j]. */
  predicate Proportional(r: seq<real>, w: seq<real>, s: real)
  {
    |r| == |w| && forall j :: 0 <= j < |r| ==> r[j] * s == w[j]
  }

  /** `w / where(sum == 0, 1, sum)`: a row with non-zero sum is scaled to sum
      to 1, a row with zero sum is returned unchanged. */
  function NormalizeRow(w: seq<real>): (r: seq<real>)
    ensures |r| == |w|
    ensures Sum(w) == 0.0 ==> r == w
    ensures Sum(w) != 0.0 ==> Sum(r) == 1.0 && Proportional(r, w, Sum(w))
  {
    var s := if Sum(w) == 0.0 then 1.0 else Sum(w);
    var r := Scale(1.0 / s, w);
    assert forall j :: 0 <= j < |w| ==> r[j] * s == w[j] by {
      forall j | 0 <= j < |w|
        ensures r[j] * s == w[j]
      {
        DivideAsScale(w[j], s);
      }
    }
    SumOfScale(1.0 / s, w);
    r
  }

  lemma {:induction false} DivideAsScale(x: real, s: real)
    requires s != 0.0
    ensures ((1.0 / s) * x) * s == x
    ensures x / s == (1.0 / s) * x
  {
  }

  lemma {:induction false} SumAtLeastEntry(s: seq<real>, j: int)
    requires 0 <= j < |s| && forall i :: 0 <= i < |s| ==> s[i] >= 0.0
    ensures Sum(s) >= s[j]
  {
    var p := s[..|s| - 1];
    assert forall i :: 0 <= i < |p| ==> p[i] == s[i];
    if j < |s| - 1 {
      SumAtLeastEntry(p, j);
    } else if |p| > 0 {
      SumAtLeastEntry(p, 0);
    }
  }

  /** On a vertex the coordinates are the normalised indicator: zero away from
      the coincident vertices, summing to one. */
  lemma {:induction false} NearVertexCoordinates(w: seq<real>, d: seq<real>)
    requires |w| == |d| && AnyNear(d)
    ensures var phi := NormalizeRow(VertexOverride(w, d));
      && Sum(phi) == 1.0
      && forall j :: 0 <= j < |phi| && !Near(d[j]) ==> phi[j] == 0.0
  {
    var v := VertexOverride(w, d);
    var j :| 0 <= j < |d| && Near(d[j]);
    SumAtLeastEntry(v, j);
    var phi := NormalizeRow(v);
    forall i | 0 <= i < |phi| && !Near(d[i])
      ensures phi[i] == 0.0
    {
      assert phi[i] * Sum(v) == 0.0;
    }
  }

  // ---------------------------------------------------------------------
  // mean_value_coordinates_3D
  // ---------------------------------------------------------------------

  /** Per-face quantities for one query point, computed upstream by the trig:
      the three weights wi, the three signs-times-sines si, the half angle sum
      h, and the in-plane weights sin(θi)·d(i−1)·d(i+1) used when the point
      lies on the face. */
  datatype FaceTerms = FaceTerms(w: seq<real>, s: seq<real>, h: real, insideW: seq<real>)

  predicate IsFaceTerms(t: FaceTerms)
  {
    |t.w| == 3 && |t.s| == 3 && |t.insideW| == 3
  }

  /** Some |si| <= 1e-5: the point is coplanar with the face but outside it. */
  predicate Coplanar(t: FaceTerms)
    requires IsFaceTerms(t)
  {
    Abs(t.s[0]) <= 0.00001 || Abs(t.s[1]) <= 0.00001 || Abs(t.s[2]) <= 0.00001
  }

  /** π − h < 1e-4: the point lies on the face. */
  predicate Inside(t: FaceTerms)
  {
    PI - t.h < 0.0001
  }

  predicate AnyInside(ts: seq<FaceTerms>)
  {
    exists f :: 0 <= f < |ts| && Inside(ts[f])
  }

  /** The three ordered overrides of the face weights: coplanar faces are
      zeroed, then every face is zeroed if the point lies on any face, then
      the faces containing the point take their in-plane weights. */
  function FaceWeights(ts: seq<FaceTerms>): (r: seq<seq<real>>)
    requires forall f :: 0 <= f < |ts| ==> IsFaceTerms(ts[f])
    ensures |r| == |ts| && forall f :: 0 <= f < |r| ==> |r[f]| == 3
    ensures forall f, k :: 0 <= f < |ts| && 0 <= k < 3 && IsFaceTerms(ts[f]) ==>
      r[f][k] == if Inside(ts[f]) then ts[f].insideW[k]
                 else if AnyInside(ts) || Coplanar(ts[f]) then 0.0
                 else ts[f].w[k]
  {
    var coplanarMasked := seq(|ts|, f requires 0 <= f < |ts| =>
      if Coplanar(ts[f]) then Const(3, 0.0) else ts[f].w);
    assert forall f :: 0 <= f < |ts| ==> |coplanarMasked[f]| == 3 && |ts[f].insideW| == 3 by {
      forall f | 0 <= f < |ts| ensures |coplanarMasked[f]| == 3 && |ts[f].insideW| == 3 {
        assert IsFaceTerms(ts[f]);
      }
    }
    var insideMasked := if AnyInside(ts) then seq(|ts|, _ => Const(3, 0.0)) else coplanarMasked;
    seq(|ts|, f requires 0 <= f < |ts| =>
      if Inside(ts[f]) then ts[f].insideW else insideMasked[f])
  }

  /** Face → vertex accumulation with the output width fixed to the number of
      vertices n: vertex j receives the weights of every corner at j. Face
      indices outside [0, n) are refused by `scatter_add_`. */
  function VertexWeights(fw: seq<seq<real>>, faces: seq<seq<int>>, n: nat): (r: Result<seq<real>, ScatterError>)
    requires |fw| == |faces| && forall f :: 0 <= f < |faces| ==> |fw[f]| == |faces[f]| == 3
    ensures r.Success? <==> InRange(Flatten(faces), n)
    ensures r.Success? ==>
      && |r.value| == n
      && |Flatten(fw)| == |Flatten(faces)|
      && forall j :: 0 <= j < n ==> r.value[j] == ContributionsTo(Flatten(fw), Flatten(faces), j)
  {
    FlattenSameLength(fw, faces);
    ScatterAddChecked(Flatten(fw), Flatten(faces), Some(n), 0.0)
  }

  /** The accumulation as written: `scatter_add` without `out_size`, whose
      width is the largest face index plus one rather than the vertex count. */
  function VertexWeightsAsWritten(fw: seq<seq<real>>, faces: seq<seq<int>>): (r: Result<seq<real>, ScatterError>)
    requires |fw| == |faces| && forall f :: 0 <= f < |faces| ==> |fw[f]| == |faces[f]| == 3
    ensures r.Success? ==> |Flatten(faces)| > 0 && |r.value| == MaxIndex(Flatten(faces)) + 1
  {
    FlattenSameLength(fw, faces);
    ScatterAddChecked(Flatten(fw), Flatten(faces), None, 0.0)
  }

  /** A mesh whose last vertex no face uses: faces [[0, 1, 2]] over 4 vertices.
      As written the accumulated row has 3 entries, one fewer than the 4
      vertex distances it is combined with next; with the width fixed it has 4. */
  lemma {:induction false} VertexWeightsWidthCounterexample()
    ensures var fw, faces := [[1.0, 1.0, 1.0]], [[0, 1, 2]];
      && VertexWeightsAsWritten(fw, faces).Success?
      && |VertexWeightsAsWritten(fw, faces).value| == 3
      && VertexWeights(fw, faces, 4).Success?
      && |VertexWeights(fw, faces, 4).value| == 4
  {
    var faces := [[0, 1, 2]];
    assert Flatten(faces) == [0, 1, 2] by {
      assert faces[..0] == [];
    }
    assert MaxIndex([0, 1, 2]) == 2 by {
      assert [0, 1, 2][..2] == [0, 1];
      assert [0, 1][..1] == [0];
    }
  }

  /** `mean_value_coordinates_3D` for one query point: face overrides,
      accumulation onto the n = |d| vertices, vertex override, normalisation.
      On a vertex the coordinates are its indicator; otherwise a row whose
      weights have non-zero sum is a partition of unity. */
  function MeanValueCoordinates3D(ts: seq<FaceTerms>, faces: seq<seq<int>>, d: seq<real>)
    : (r: Result<seq<real>, ScatterError>)
    requires |faces| == |ts|
    requires forall f :: 0 <= f < |ts| ==> IsFaceTerms(ts[f]) && |faces[f]| == 3
    ensures r.Success? <==> InRange(Flatten(faces), |d|)
    ensures r.Success? ==> |r.value| == |d|
    ensures r.Success? && AnyNear(d) ==>
      Sum(r.value) == 1.0 && forall j :: 0 <= j < |d| && !Near(d[j]) ==> r.value[j] == 0.0
  {
    var fw := FaceWeights(ts);
    var wj :- VertexWeights(fw, faces, |d|);
    var v := VertexOverride(wj, d);
    if AnyNear(d) then
      NearVertexCoordinates(wj, d);
      Success(NormalizeRow(v))
    else
      Success(NormalizeRow(v))
  }

  /** Away from the vertices the 3D coordinates are the accumulated face
      weights divided by their total, whenever that total is non-zero. */
  lemma {:induction false} MeanValueCoordinates3DPartition(ts: seq<FaceTerms>, faces: seq<seq<int>>, d: seq<real>)
    requires |faces| == |ts|
    requires forall f :: 0 <= f < |ts| ==> IsFaceTerms(ts[f]) && |faces[f]| == 3
    requires InRange(Flatten(faces), |d|) && !AnyNear(d)
    ensures var wj := VertexWeights(FaceWeights(ts), faces, |d|).value;
      var phi := MeanValueCoordinates3D(ts, faces, d).value;
      && (Sum(wj) != 0.0 ==> Sum(phi) == 1.0 && forall j :: 0 <= j < |d| ==> phi[j] * Sum(wj) == wj[j])
      && (Sum(wj) == 0.0 ==> phi == wj)
  {
    var wj := VertexWeights(FaceWeights(ts), faces, |d|).value;
    assert VertexOverride(wj, d) == wj;
    assert MeanValueCoordinates3D(ts, faces, d).value == NormalizeRow(wj);
  }

  // ---------------------------------------------------------------------
  // mean_value_coordinates (2D polygons)
  // ---------------------------------------------------------------------

  /** The cyclic successor and predecessor of polygon vertex i
      (`cat([x[1:], x[:1]])` and `cat([x[-1:], x[:-1]])`). */
  function Next(i: nat, m: nat): nat
    requires i < m
  {
    if i + 1 == m then 0 else i + 1
  }

  function Prev(i: nat, m: nat): nat
    requires i < m
  {
    if i == 0 then m - 1 else i - 1
  }

  function AsVector(v: Vec2): Vector
  {
    [v.x, v.y]
  }

  /** One query point against an M-gon: s[i] = polygon[i] − point, r[i] = |s[i]|,
      dL[i] = |polygon[i] − polygon[i+1]| (norms taken as given, never negative). */
  datatype PolygonTerms = PolygonTerms(s: seq<Vec2>, r: seq<real>, dL: seq<real>)

  predicate IsPolygonTerms(p: PolygonTerms)
  {
    && |p.r| == |p.s| && |p.dL| == |p.s|
    && (forall i :: 0 <= i < |p.s| ==> p.r[i] >= 0.0 && p.dL[i] >= 0.0)
  }

  /** Ai = cross(s_i, s_{i+1}) / 2 */
  function AreaTerm(p: PolygonTerms, i: nat): real
    requires IsPolygonTerms(p) && i < |p.s|
  {
    Cross2D(p.s[i], p.s[Next(i, |p.s|)]) / 2.0
  }

  /** Di = s_i · s_{i+1} */
  function DotTerm(p: PolygonTerms, i: nat): real
    requires IsPolygonTerms(p) && i < |p.s|
  {
    Dot(AsVector(p.s[i]), AsVector(p.s[Next(i, |p.s|)]))
  }

  /** tan(αi / 2) = (r_{i+1} r_i − Di) / Ai, taken as 0 when |Ai| <= 1e-5. */
  function TanHalf(p: PolygonTerms, i: nat): real
    requires IsPolygonTerms(p) && i < |p.s|
  {
    var a := AreaTerm(p, i);
    if Abs(a) > 0.00001 then (p.r[Next(i, |p.s|)] * p.r[i] - DotTerm(p, i)) / (a + 0.0000000001) else 0.0
  }

  /** The point lies on edge (i, i+1): |Ai| <= 1e-5 and Di < 0. */
  predicate OnEdge(p: PolygonTerms, i: nat)
    requires IsPolygonTerms(p) && i < |p.s|
  {
    Abs(AreaTerm(p, i)) <= 0.00001 && DotTerm(p, i) < 0.0
  }

  /** The `mask` of the source: which edges the point lies on. */
  function EdgeMask(p: PolygonTerms): (mask: seq<bool>)
    requires IsPolygonTerms(p)
    ensures |mask| == |p.s| && forall i :: 0 <= i < |p.s| ==> (mask[i] <==> OnEdge(p, i))
  {
    seq(|p.s|, i requires 0 <= i < |p.s| => OnEdge(p, i))
  }

  /** The query point (the origin of the s_i) is the point at parameter t of
      the segment from a to b: (1 − t)·a + t·b = 0. */
  predicate Between(a: Vec2, b: Vec2, t: real)
  {
    (1.0 - t) * a.x + t * b.x == 0.0 && (1.0 - t) * a.y + t * b.y == 0.0
  }

  lemma {:induction false} DotTermPlanar(p: PolygonTerms, i: nat)
    requires IsPolygonTerms(p) && i < |p.s|
    ensures var a, b := p.s[i], p.s[Next(i, |p.s|)];
      DotTerm(p, i) == a.x * b.x + a.y * b.y
  {
    var a, b := AsVector(p.s[i]), AsVector(p.s[Next(i, |p.s|)]);
    assert a[..1][..0] == [] && b[..1][..0] == [];
    assert Dot(a[..1], b[..1]) == a[0] * b[0];
    assert Dot(a, b) == Dot(a[..1], b[..1]) + a[1] * b[1];
  }

  lemma {:induction false} SumOfSquaresPositive(x: real, y: real)
    requires x != 0.0 || y != 0.0
    ensures x * x + y * y > 0.0
  {
    assert x * x >= 0.0 && y * y >= 0.0;
    assert x * x > 0.0 || y * y > 0.0;
  }

  lemma {:induction false} NegativeFactor(a: real, e: real)
    requires e > 0.0 && a * e < 0.0
    ensures a < 0.0
  {
  }

  /** A point strictly inside a non-degenerate segment a–b sees its ends in
      opposite directions: zero cross product, negative dot product. */
  lemma {:induction false} InsideSegmentSigns(ux: real, uy: real, vx: real, vy: real, t: real)
    requires 0.0 < t < 1.0 && (ux != vx || uy != vy)
    requires (1.0 - t) * ux + t * vx == 0.0 && (1.0 - t) * uy + t * vy == 0.0
    ensures ux * vy - uy * vx == 0.0 && ux * vx + uy * vy < 0.0
  {
    assert t * vx == -(1.0 - t) * ux && t * vy == -(1.0 - t) * uy;
    assert ux != 0.0 || uy != 0.0;
    var n, s := ux * ux + uy * uy, 1.0 - t;
    SumOfSquaresPositive(ux, uy);
    assert t * (ux * vy - uy * vx) == ux * (t * vy) - uy * (t * vx);
    assert ux * (t * vy) - uy * (t * vx) == ux * (-s * uy) - uy * (-s * ux);
    assert t * (ux * vy - uy * vx) == 0.0;
    assert t * (ux * vx + uy * vy) == ux * (t * vx) + uy * (t * vy);
    assert ux * (t * vx) + uy * (t * vy) == ux * (-s * ux) + uy * (-s * uy);
    assert t * (ux * vx + uy * vy) == -(s * n);
    assert s * n > 0.0;
  }

  /** Conversely, ends seen in opposite directions put the point strictly
      inside the segment, at t = a·a / (a·a − a·b). */
  lemma {:induction false} OppositeEndsBetween(ux: real, uy: real, vx: real, vy: real) returns (t: real)
    requires ux * vy - uy * vx == 0.0 && ux * vx + uy * vy < 0.0
    ensures 0.0 < t < 1.0
    ensures (1.0 - t) * ux + t * vx == 0.0 && (1.0 - t) * uy + t * vy == 0.0
  {
    var n, d := ux * ux + uy * uy, ux * vx + uy * vy;
    assert ux != 0.0 || uy != 0.0;
    SumOfSquaresPositive(ux, uy);
    var e := n - d;
    assert e > n;
    t := n / e;
    assert t * e == n;
    assert (t - 1.0) * e == n - e;
    NegativeFactor(t - 1.0, e);

    assert (1.0 - t) * e == -d;
    assert -d * ux + n * vx == uy * (uy * vx - ux * vy);
    assert -d * uy + n * vy == ux * (ux * vy - uy * vx);
    assert ((1.0 - t) * ux + t * vx) * e == (1.0 - t) * e * ux + t * e * vx;
    assert ((1.0 - t) * uy + t * vy) * e == (1.0 - t) * e * uy + t * e * vy;
  }

  /** An exactly collinear edge (Ai = 0) with Di < 0 is one the point lies
      strictly inside, at some parameter t in (0, 1), and the mask flags it. */
  lemma {:induction false} ExactEdgeOnSegment(p: PolygonTerms, i: nat) returns (t: real)
    requires IsPolygonTerms(p) && i < |p.s|
    requires AreaTerm(p, i) == 0.0 && DotTerm(p, i) < 0.0
    ensures EdgeMask(p)[i]
    ensures 0.0 < t < 1.0 && Between(p.s[i], p.s[Next(i, |p.s|)], t)
  {
    var a, b := p.s[i], p.s[Next(i, |p.s|)];
    DotTermPlanar(p, i);
    t := OppositeEndsBetween(a.x, a.y, b.x, b.y);
  }

  /** A point strictly inside a non-degenerate edge makes Ai = 0 and Di < 0,
      so the mask flags that edge. */
  lemma {:induction false} SegmentPointOnEdge(p: PolygonTerms, i: nat, t: real)
    requires IsPolygonTerms(p) && i < |p.s|
    requires p.s[i] != p.s[Next(i, |p.s|)]
    requires 0.0 < t < 1.0 && Between(p.s[i], p.s[Next(i, |p.s|)], t)
    ensures AreaTerm(p, i) == 0.0 && DotTerm(p, i) < 0.0
    ensures EdgeMask(p)[i]
  {
    var a, b := p.s[i], p.s[Next(i, |p.s|)];
    DotTermPlanar(p, i);
    InsideSegmentSigns(a.x, a.y, b.x, b.y, t);
  }

  /** wi = (tan(α_{i−1}/2) + tan(αi/2)) / ri */
  function RawWeights(p: PolygonTerms): (w: seq<real>)
    requires IsPolygonTerms(p)
    ensures |w| == |p.s|
  {
    var m := |p.s|;
    seq(m, i requires 0 <= i < m => (TanHalf(p, Prev(i, m)) + TanHalf(p, i)) / (p.r[i] + 0.0000000001))
  }

  /** The boundary overrides for a given edge mask: a point on an edge zeroes
      its row, the edge's first vertex gets 1 − ri/dL, and the vertex after
      each such edge (`mask_plus`) gets one minus the sum of the row so far.
      The contract gives the unflagged and the zeroed vertices; the values
      on a single flagged edge, and that they sum to one, are
      `SingleEdgeWeights`. */
  function ApplyEdgeMask(mask: seq<bool>, r: seq<real>, dL: seq<real>, w: seq<real>): (o: seq<real>)
    requires |r| == |mask| && |dL| == |mask| && |w| == |mask|
    requires forall i :: 0 <= i < |mask| ==> dL[i] >= 0.0
    ensures |o| == |w|
    ensures true !in mask ==> o == w
    ensures true in mask ==> forall i :: 0 <= i < |mask| && !mask[i] && !mask[Prev(i, |mask|)] ==> o[i] == 0.0
  {
    var m := |mask|;
    var zeroed := if true in mask then Const(m, 0.0) else w;
    var onEdge := seq(m, i requires 0 <= i < m =>
      if mask[i] then 1.0 - r[i] / (dL[i] + 0.0000000001) else zeroed[i]);
    var total := Sum(onEdge);
    seq(m, i requires 0 <= i < m => if mask[Prev(i, m)] then 1.0 - total else onEdge[i])
  }

  /** A mask with a single edge i (of at least two) leaves exactly two
      non-zero weights, v = 1 − ri/dL at i and 1 − v at i + 1. */
  lemma {:induction false} SingleEdgeWeights(mask: seq<bool>, r: seq<real>, dL: seq<real>, w: seq<real>, i: nat)
    requires |r| == |mask| && |dL| == |mask| && |w| == |mask|
    requires forall k :: 0 <= k < |mask| ==> dL[k] >= 0.0
    requires 2 <= |mask| && i < |mask| && forall k :: 0 <= k < |mask| ==> (mask[k] <==> k == i)
    ensures var o := ApplyEdgeMask(mask, r, dL, w);
      var v := 1.0 - r[i] / (dL[i] + 0.0000000001);
      && o[i] == v
      && o[Next(i, |mask|)] == 1.0 - v
      && forall k :: 0 <= k < |mask| && k != i && k != Next(i, |mask|) ==> o[k] == 0.0
  {
    var m := |mask|;
    var v := 1.0 - r[i] / (dL[i] + 0.0000000001);
    assert mask[i];
    var onEdge := seq(m, k requires 0 <= k < m =>
      if mask[k] then 1.0 - r[k] / (dL[k] + 0.0000000001) else Const(m, 0.0)[k]);
    assert onEdge == Const(m, 0.0)[i := 0.0 + v];
    SumOfConst(m, 0.0);
    SumAddAt(Const(m, 0.0), i, v);
    assert Sum(onEdge) == v;
    assert Prev(Next(i, m), m) == i;
    assert Prev(i, m) != i;
  }

  /** The edge overrides applied to the point's own mask. */
  function EdgeOverride(p: PolygonTerms, w: seq<real>): (r: seq<real>)
    requires IsPolygonTerms(p) && |w| == |p.s|
    ensures |r| == |w|
  {
    ApplyEdgeMask(EdgeMask(p), p.r, p.dL, w)
  }

  /** The weights just before normalisation. */
  function PolygonWeights(p: PolygonTerms): (w: seq<real>)
    requires IsPolygonTerms(p)
    ensures |w| == |p.s|
  {
    VertexOverride(EdgeOverride(p, RawWeights(p)), p.r)
  }

  /** `mean_value_coordinates` for one query point, with the normalisation
      the code evidently intends (divide by the row sum, or by 1 when it is 0). */
  function MeanValueCoordinates2D(p: PolygonTerms): (phi: seq<real>)
    requires IsPolygonTerms(p)
    ensures |phi| == |p.s|
    ensures Sum(PolygonWeights(p)) != 0.0 ==>
      Sum(phi) == 1.0 && Proportional(phi, PolygonWeights(p), Sum(PolygonWeights(p)))
    ensures Sum(PolygonWeights(p)) == 0.0 ==> phi == PolygonWeights(p)
  {
    NormalizeRow(PolygonWeights(p))
  }

  /** The single non-zero pair of a row: value v at i and 1 − v at j. */
  lemma {:induction false} SumOfPair(m: nat, i: nat, j: nat, v: real, r: seq<real>)
    requires i < m && j < m && i != j && |r| == m
    requires r[i] == v && r[j] == 1.0 - v
    requires forall k :: 0 <= k < m && k != i && k != j ==> r[k] == 0.0
    ensures Sum(r) == 1.0
  {
    var z := Const(m, 0.0);
    var z1 := z[i := z[i] + v];
    SumOfConst(m, 0.0);
    SumAddAt(z, i, v);
    SumAddAt(z1, j, 1.0 - v);
    assert r == z1[j := z1[j] + (1.0 - v)];
  }

  /** A point on exactly one edge (i, i+1) of a polygon with at least two
      vertices, and on no vertex, gets the linear interpolation along that
      edge: weights 1 − ri/dL at i and its complement at i+1, summing to 1. */
  lemma {:induction false} OnEdgePartition(p: PolygonTerms, i: nat)
    requires IsPolygonTerms(p) && 2 <= |p.s| && i < |p.s|
    requires OnEdge(p, i) && forall k :: 0 <= k < |p.s| && k != i ==> !OnEdge(p, k)
    requires !AnyNear(p.r)
    ensures var w := PolygonWeights(p);
      var v := 1.0 - p.r[i] / (p.dL[i] + 0.0000000001);
      && w[i] == v
      && w[Next(i, |p.s|)] == 1.0 - v
      && Sum(w) == 1.0
      && MeanValueCoordinates2D(p) == w
  {
    var m := |p.s|;
    var mask := EdgeMask(p);
    var v := 1.0 - p.r[i] / (p.dL[i] + 0.0000000001);
    SingleEdgeWeights(mask, p.r, p.dL, RawWeights(p), i);
    var w := PolygonWeights(p);
    assert w == ApplyEdgeMask(mask, p.r, p.dL, RawWeights(p));
    SumOfPair(m, i, Next(i, m), v, w);
    var phi := MeanValueCoordinates2D(p);
    assert phi == w by {
      forall j | 0 <= j < m
        ensures phi[j] == w[j]
      {
        assert phi[j] * 1.0 == w[j];
      }
    }
  }

  // ---------------------------------------------------------------------
  // The normalisation as written
  // ---------------------------------------------------------------------

  /** The normalisation as written (line 515): once any point of the batch has
      a zero row sum, the divisor becomes `where(sumW == 0, 1, w)`, i.e. w
      itself, entry by entry, for every row with a non-zero sum. None marks an
      entry computed as 0/0. */
  function NormalizeRowAsWritten(w: seq<real>, batchHasZeroSum: bool): (phi: seq<Option<real>>)
    requires !batchHasZeroSum ==> Sum(w) != 0.0
    ensures |phi| == |w|
    ensures !batchHasZeroSum ==> forall j :: 0 <= j < |w| ==> phi[j] == Some(NormalizeRow(w)[j])
  {
    var s := Sum(w);
    assert !batchHasZeroSum ==> forall j :: 0 <= j < |w| ==> w[j] / s == NormalizeRow(w)[j] by {
      if !batchHasZeroSum {
        forall j | 0 <= j < |w|
          ensures w[j] / s == NormalizeRow(w)[j]
        {
          DivideAsScale(w[j], s);
        }
      }
    }
    seq(|w|, j requires 0 <= j < |w| =>
      if !batchHasZeroSum then Some(w[j] / s)
      else if s == 0.0 then Some(w[j] / 1.0)
      else if w[j] == 0.0 then None
      else Some(w[j] / w[j]))
  }

  /** Weights [1, 3] in a batch that also holds a zero-sum point: as written the
      row becomes [1, 1], which sums to 2; the intended row is [1/4, 3/4]. */
  lemma {:induction false} NormalizeAsWrittenCounterexample()
    ensures NormalizeRowAsWritten([1.0, 3.0], true) == [Some(1.0), Some(1.0)]
    ensures NormalizeRow([1.0, 3.0]) == [0.25, 0.75]
  {
    assert [1.0, 3.0][..1] == [1.0];
    assert Sum([1.0, 3.0]) == 4.0;
  }
}
