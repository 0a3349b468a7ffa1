/**
 * Mesh Laplacians of a batch of meshes (geo_operations.py `UniformLaplacian`,
 * `CotLaplacian`, `_CotLaplacianBatchLx`). The meshes are stacked into one
 * block matrix by offsetting the face indices of mesh b by b·nv; the matrix
 * is built once and cached by the first `forward`.
 */
module Laplacian {
  import opened Vectors
  import opened Wrappers
  import opened Sparse

  /** B meshes of faces; faces[b][f][k] is a vertex index local to mesh b. */
  type Faces = seq<seq<seq<int>>>

  /** Every face has deg corners (one face tensor of shape B × F × deg). */
  predicate IsFaces(faces: Faces, deg: nat)
  {
    forall b, f :: 0 <= b < |faces| && 0 <= f < |faces[b]| ==> |faces[b][f]| == deg
  }

  /** Row i of the stacked matrix belongs to mesh b. */
  predicate InBlock(i: int, b: int, nv: nat)
  {
    b * nv <= i < b * nv + nv
  }

  /** No entry of the stacked matrix joins a row of one mesh to a column of another. */
  ghost predicate NoCrossMeshEntries(l: Matrix, nv: nat)
  {
    forall i, j, b :: 0 <= i < |l| && 0 <= j < |l[i]| && InBlock(i, b, nv) && !InBlock(j, b, nv) ==>
      l[i][j] == 0.0
  }

  /** Every index, once offset by its mesh, addresses a row of the stacked
      matrix (the size check of the sparse constructors). */
  predicate OffsetInRange(faces: Faces, nv: nat)
  {
    forall b, f, k :: 0 <= b < |faces| && 0 <= f < |faces[b]| && 0 <= k < |faces[b][f]| ==>
      0 <= faces[b][f][k] + b * nv < |faces| * nv
  }

  /** Every index is a vertex of its own mesh. */
  predicate LocalFaces(faces: Faces, nv: nat)
  {
    forall b, f, k :: 0 <= b < |faces| && 0 <= f < |faces[b]| && 0 <= k < |faces[b][f]| ==>
      0 <= faces[b][f][k] < nv
  }

  /** Local indices, once offset by their mesh, address the stacked matrix. */
  lemma {:induction false} LocalFacesInRange(faces: Faces, nv: nat)
    requires LocalFaces(faces, nv)
    ensures OffsetInRange(faces, nv)
  {
    forall b, f, k | 0 <= b < |faces| && 0 <= f < |faces[b]| && 0 <= k < |faces[b][f]|
      ensures 0 <= faces[b][f][k] + b * nv < |faces| * nv
    {
      MulMonotone(0, b, nv);
      MulMonotone(b + 1, |faces|, nv);
    }
  }

  /** Triplets per mesh, per face, per corner, stacked in that order. */
  function Stack(per: seq<seq<seq<Triplet>>>): seq<Triplet>
  {
    Flatten(seq(|per|, b requires 0 <= b < |per| => Flatten(per[b])))
  }

  /** Every stacked triplet comes from some mesh, face and corner. */
  lemma {:induction false} StackOrigin(per: seq<seq<seq<Triplet>>>, q: int) returns (b: int, f: int, k: int)
    requires 0 <= q < |Stack(per)|
    ensures 0 <= b < |per| && 0 <= f < |per[b]| && 0 <= k < |per[b][f]|
    ensures Stack(per)[q] == per[b][f][k]
  {
    var outer := seq(|per|, b requires 0 <= b < |per| => Flatten(per[b]));
    var t := Stack(per)[q];
    FlattenMembers(outer);
    assert t in Flatten(outer);
    b :| 0 <= b < |outer| && t in outer[b];
    FlattenMembers(per[b]);
    f :| 0 <= f < |per[b]| && t in per[b][f];
    k :| 0 <= k < |per[b][f]| && per[b][f][k] == t;
  }

  /** Triplets of nf faces per mesh and k per face: the triplet of mesh b,
      face f, corner c sits at position b·(nf·k) + (f·k + c), so each
      appears exactly once. */
  lemma {:induction false} StackAt(per: seq<seq<seq<Triplet>>>, nf: nat, k: nat, b: int, f: int, c: int)
    requires forall b :: 0 <= b < |per| ==> |per[b]| == nf && forall f :: 0 <= f < nf ==> |per[b][f]| == k
    requires 0 <= b < |per| && 0 <= f < nf && 0 <= c < k
    ensures |Stack(per)| == |per| * (nf * k)
    ensures var q := b * (nf * k) + (f * k + c);
      q < |Stack(per)| && Stack(per)[q] == per[b][f][c]
  {
    var outer := seq(|per|, b requires 0 <= b < |per| => Flatten(per[b]));
    assert forall b' :: 0 <= b' < |outer| ==> |outer[b']| == nf * k by {
      forall b' | 0 <= b' < |outer|
        ensures |outer[b']| == nf * k
      {
        FlattenUniformLength(per[b'], k);
      }
    }
    FlattenUniformAt(per[b], k, f, c);
    FlattenUniformAt(outer, nf * k, b, f * k + c);
  }

  /** A row lies in one mesh only. */
  lemma {:induction false} BlockUnique(i: int, b: int, b': int, nv: nat)
    requires InBlock(i, b, nv) && InBlock(i, b', nv)
    ensures b == b'
  {
    if b < b' {
      MulMonotone(b + 1, b', nv);
    } else if b' < b {
      MulMonotone(b' + 1, b, nv);
    }
  }

  /** Two rows of mesh b lie in exactly the same meshes. */
  lemma {:induction false} SameBlock(i: int, j: int, b: int, nv: nat)
    requires InBlock(i, b, nv) && InBlock(j, b, nv)
    ensures forall b' :: InBlock(i, b', nv) <==> InBlock(j, b', nv)
  {
    forall b' | InBlock(i, b', nv) || InBlock(j, b', nv)
      ensures InBlock(i, b', nv) && InBlock(j, b', nv)
    {
      if InBlock(i, b', nv) {
        BlockUnique(i, b, b', nv);
      } else {
        BlockUnique(j, b, b', nv);
      }
    }
  }

  /** Every triplet joins two rows of the same mesh. */
  ghost predicate BlockLocal(ts: seq<Triplet>, nv: nat)
  {
    forall q, b :: 0 <= q < |ts| ==> (InBlock(ts[q].row, b, nv) <==> InBlock(ts[q].col, b, nv))
  }

  /** `L.t() + L` of the assembled triplets. */
  function Symmetrized(ts: seq<Triplet>, n: nat): (l: Matrix)
    requires TripletsIn(ts, n)
    ensures IsMatrix(l, n, n)
  {
    var a := Assemble(ts, n);
    MatAdd(Transpose(a, n), a)
  }

  /** The entries of the symmetrised matrix, cell by cell. */
  lemma {:induction false} SymmetrizedEntries(ts: seq<Triplet>, n: nat)
    requires TripletsIn(ts, n)
    ensures Symmetric(Symmetrized(ts, n))
    ensures forall i, j :: 0 <= i < n && 0 <= j < n ==>
      Symmetrized(ts, n)[i][j] == EntrySum(ts, j, i) + EntrySum(ts, i, j)
  {
    SymmetrizeIsSymmetric(Assemble(ts, n), n);
    AssembleEntries(ts, n);
  }

  /** Block-local triplets never address a cell joining two meshes. */
  lemma {:induction false} EntrySumOutsideBlock(ts: seq<Triplet>, i: int, j: int, b: int, nv: nat)
    requires BlockLocal(ts, nv) && InBlock(i, b, nv) && !InBlock(j, b, nv)
    ensures EntrySum(ts, i, j) == 0.0 && EntrySum(ts, j, i) == 0.0
  {
    if |ts| > 0 {
      var p := ts[..|ts| - 1];
      assert forall q :: 0 <= q < |p| ==> p[q] == ts[q];
      EntrySumOutsideBlock(p, i, j, b, nv);
      var t := ts[|ts| - 1];
      assert InBlock(t.row, b, nv) <==> InBlock(t.col, b, nv);
    }
  }

  /** Block-local triplets give a symmetrised matrix with no entry coupling two meshes. */
  lemma {:induction false} SymmetrizedBlockDiagonal(ts: seq<Triplet>, n: nat, nv: nat)
    requires TripletsIn(ts, n) && BlockLocal(ts, nv)
    ensures forall i, j, b :: 0 <= i < n && 0 <= j < n && InBlock(i, b, nv) && !InBlock(j, b, nv) ==>
      Symmetrized(ts, n)[i][j] == 0.0
  {
    SymmetrizedEntries(ts, n);
    forall i, j, b | 0 <= i < n && 0 <= j < n && InBlock(i, b, nv) && !InBlock(j, b, nv)
      ensures Symmetrized(ts, n)[i][j] == 0.0
    {
      EntrySumOutsideBlock(ts, i, j, b, nv);
    }
  }

  datatype LaplacianError = IndexOutOfRange | ShapeMismatch | FacesRequired

  // ---------------------------------------------------------------------
  // UniformLaplacian
  // ---------------------------------------------------------------------

  /** The cyclic edges (f[k], f[(k+1) % deg]) of one face, each with weight −1,
      offset into the stacked matrix. */
  function FaceEdges(face: seq<int>, off: int): (ts: seq<Triplet>)
    ensures |ts| == |face|
  {
    seq(|face|, k requires 0 <= k < |face| =>
      Triplet(face[k] + off, face[(k + 1) % |face|] + off, -1.0))
  }

  function UniformTriplets(faces: Faces, nv: nat): seq<Triplet>
  {
    Stack(seq(|faces|, b requires 0 <= b < |faces| =>
      seq(|faces[b]|, f requires 0 <= f < |faces[b]| => FaceEdges(faces[b][f], b * nv))))
  }

  /** Each uniform triplet is the edge leaving corner k of face f of mesh b. */
  lemma {:induction false} UniformTripletOrigin(faces: Faces, nv: nat, q: int) returns (b: int, f: int, k: int)
    requires 0 <= q < |UniformTriplets(faces, nv)|
    ensures 0 <= b < |faces| && 0 <= f < |faces[b]| && 0 <= k < |faces[b][f]|
    ensures var face := faces[b][f];
      UniformTriplets(faces, nv)[q] == Triplet(face[k] + b * nv, face[(k + 1) % |face|] + b * nv, -1.0)
  {
    b, f, k := StackOrigin(seq(|faces|, b requires 0 <= b < |faces| =>
      seq(|faces[b]|, f requires 0 <= f < |faces[b]| => FaceEdges(faces[b][f], b * nv))), q);
  }

  /** Conversely, with F faces per mesh the edge leaving corner k of face f
      of mesh b is the triplet at position b·(F·deg) + (f·deg + k), and there are
      B·F·deg triplets: every edge of every face is placed exactly once. */
  lemma {:induction false} UniformTripletAt(faces: Faces, nv: nat, nf: nat, deg: nat, b: int, f: int, k: int)
    requires IsFaces(faces, deg) && forall b :: 0 <= b < |faces| ==> |faces[b]| == nf
    requires 0 <= b < |faces| && 0 <= f < nf && 0 <= k < deg
    ensures |UniformTriplets(faces, nv)| == |faces| * (nf * deg)
    ensures var q, face := b * (nf * deg) + (f * deg + k), faces[b][f];
      q < |UniformTriplets(faces, nv)| &&
      UniformTriplets(faces, nv)[q] == Triplet(face[k] + b * nv, face[(k + 1) % deg] + b * nv, -1.0)
  {
    StackAt(seq(|faces|, b requires 0 <= b < |faces| =>
      seq(|faces[b]|, f requires 0 <= f < |faces[b]| => FaceEdges(faces[b][f], b * nv))), nf, deg, b, f, k);
  }

  /** The facts about one uniform triplet. */
  lemma {:induction false} UniformTripletFact(faces: Faces, nv: nat, q: int)
    requires 0 <= q < |UniformTriplets(faces, nv)|
    ensures var t := UniformTriplets(faces, nv)[q];
      && (OffsetInRange(faces, nv) ==> 0 <= t.row < |faces| * nv && 0 <= t.col < |faces| * nv)
      && (LocalFaces(faces, nv) ==> forall b' :: InBlock(t.row, b', nv) <==> InBlock(t.col, b', nv))
      && t.val == -1.0
  {
    var b, f, k := UniformTripletOrigin(faces, nv, q);
    var face := faces[b][f];
    var k' := (k + 1) % |face|;
    var t := UniformTriplets(faces, nv)[q];
    assert t.row == face[k] + b * nv && t.col == face[k'] + b * nv;
    if LocalFaces(faces, nv) {
      assert 0 <= face[k] < nv && 0 <= face[k'] < nv;
      SameBlock(t.row, t.col, b, nv);
    }
    if OffsetInRange(faces, nv) {
      assert 0 <= face[k] + b * nv < |faces| * nv;
      assert 0 <= face[k'] + b * nv < |faces| * nv;
    }
  }

  /** Offset indices in range make every uniform triplet address the stacked
      matrix; local indices make every triplet stay within its mesh. All
      weights are −1. */
  lemma {:induction false} UniformTripletFacts(faces: Faces, nv: nat)
    ensures OffsetInRange(faces, nv) ==> TripletsIn(UniformTriplets(faces, nv), |faces| * nv)
    ensures LocalFaces(faces, nv) ==> BlockLocal(UniformTriplets(faces, nv), nv)
    ensures forall q :: 0 <= q < |UniformTriplets(faces, nv)| ==> UniformTriplets(faces, nv)[q].val == -1.0
  {
    forall q | 0 <= q < |UniformTriplets(faces, nv)| {
      UniformTripletFact(faces, nv, q);
    }
  }

  /** The cached state of a `UniformLaplacian`: the matrix L and its diagonal Lii. */
  datatype UniformCache = UniformCache(l: Matrix, lii: Vector)

  /** `Lii = -rowsum(L)` placed on the diagonal: `L + diag(Lii)`. */
  function DegreeCompletion(l1: Matrix): (c: UniformCache)
    requires IsMatrix(l1, |l1|, |l1|)
    ensures IsMatrix(c.l, |l1|, |l1|) && |c.lii| == |l1|
  {
    var lii := seq(|l1|, i requires 0 <= i < |l1| => -Sum(l1[i]));
    UniformCache(MatAdd(l1, Diag(lii)), lii)
  }

  /** What every uniform Laplacian satisfies: L is square and symmetric with
      zero row sums, and the diagonal Lii it divides by is never negative. */
  predicate ValidUniform(c: UniformCache)
  {
    && Symmetric(c.l) && ZeroRowSums(c.l) && |c.lii| == |c.l|
    && forall i :: 0 <= i < |c.lii| ==> c.lii[i] >= 0.0
  }

  /** Completing a symmetric matrix of non-positive weights gives a valid
      uniform Laplacian whose off-diagonal entries are those weights. */
  lemma {:induction false} DegreeCompletionValid(l1: Matrix)
    requires Symmetric(l1)
    requires forall i, j :: 0 <= i < |l1| && 0 <= j < |l1| ==> l1[i][j] <= 0.0
    ensures ValidUniform(DegreeCompletion(l1))
  {
    var c := DegreeCompletion(l1);
    AddDiagRowSums(l1, c.lii);
    forall i | 0 <= i < |l1|
      ensures c.lii[i] >= 0.0
    {
      SumNonPositive(l1[i]);
    }
  }

  /** The completion only touches the diagonal. */
  lemma {:induction false} DegreeCompletionOffDiagonal(l1: Matrix)
    requires IsMatrix(l1, |l1|, |l1|)
    ensures forall i, j :: 0 <= i < |l1| && 0 <= j < |l1| && i != j ==> DegreeCompletion(l1).l[i][j] == l1[i][j]
  {
  }

  /** The assembled weights of non-positive triplets are non-positive. */
  lemma {:induction false} SymmetrizedNonPositive(ts: seq<Triplet>, n: nat)
    requires TripletsIn(ts, n)
    requires forall q :: 0 <= q < |ts| ==> ts[q].val <= 0.0
    ensures forall i, j :: 0 <= i < n && 0 <= j < n ==> Symmetrized(ts, n)[i][j] <= 0.0
  {
    SymmetrizedEntries(ts, n);
    forall i, j | 0 <= i < n && 0 <= j < n
      ensures Symmetrized(ts, n)[i][j] <= 0.0
    {
      EntrySumNonPositive(ts, i, j);
      EntrySumNonPositive(ts, j, i);
    }
  }

  /** `computeLaplacian`: L = A + Aᵀ from the −1 edge triplets, then
      Lii = −(row sums) is added on the diagonal. */
  function UniformMatrix(faces: Faces, nv: nat): (c: UniformCache)
    requires OffsetInRange(faces, nv)
    ensures |c.l| == |faces| * nv
  {
    UniformTripletFacts(faces, nv);
    DegreeCompletion(Symmetrized(UniformTriplets(faces, nv), |faces| * nv))
  }

  /** L is symmetric with zero row sums, and Lii ≥ 0 because every
      off-diagonal weight is −1 or a sum of them. */
  lemma {:induction false} UniformMatrixValid(faces: Faces, nv: nat)
    requires OffsetInRange(faces, nv)
    ensures ValidUniform(UniformMatrix(faces, nv))
  {
    var n := |faces| * nv;
    var ts := UniformTriplets(faces, nv);
    UniformTripletFacts(faces, nv);
    SymmetrizedEntries(ts, n);
    SymmetrizedNonPositive(ts, n);
    DegreeCompletionValid(Symmetrized(ts, n));
  }

  /** With local face indices no entry of L couples two meshes. */
  lemma {:induction false} UniformBlockDiagonal(faces: Faces, nv: nat)
    requires OffsetInRange(faces, nv) && LocalFaces(faces, nv)
    ensures NoCrossMeshEntries(UniformMatrix(faces, nv).l, nv)
  {
    var n := |faces| * nv;
    var ts := UniformTriplets(faces, nv);
    UniformTripletFacts(faces, nv);
    SymmetrizedBlockDiagonal(ts, n, nv);
    DegreeCompletionOffDiagonal(Symmetrized(ts, n));
  }

  /** Vertex positions of the batch stacked row by row (`verts.reshape(-1, D)`):
      B·nv rows of dim coordinates. */
  lemma {:induction false} StackedRows(verts: seq<Matrix>, nv: nat, dim: nat)
    requires forall b :: 0 <= b < |verts| ==> IsMatrix(verts[b], nv, dim)
    ensures IsMatrix(Flatten(verts), |verts| * nv, dim)
  {
    if |verts| > 0 {
      var p := verts[..|verts| - 1];
      StackedRows(p, nv, dim);
      assert |Flatten(verts)| == |p| * nv + nv;
      forall i | 0 <= i < |Flatten(verts)|
        ensures |Flatten(verts)[i]| == dim
      {
        if i < |p| * nv {
          assert Flatten(verts)[i] == Flatten(p)[i];
        } else {
          assert Flatten(verts)[i] == verts[|verts| - 1][i - |p| * nv];
        }
      }
    }
  }

  /** A `UniformLaplacian` module: empty until the first forward caches L. */
  datatype UniformLaplacian = UniformLaplacian(cache: Option<UniformCache>)

  predicate ValidUniformState(m: UniformLaplacian)
  {
    m.cache.Some? ==> ValidUniform(m.cache.value)
  }

  /** `x = L.mm(V) / (Lii + 1e-12)`: since Lii ≥ 0 the divisor is positive,
      so each output row is the Laplacian row scaled by its inverse degree. */
  function UniformApply(c: UniformCache, v: Matrix, dim: nat): (x: Matrix)
    requires ValidUniform(c) && IsMatrix(v, |c.l|, dim)
    ensures IsMatrix(x, |v|, dim)
    ensures forall i, d :: 0 <= i < |x| && 0 <= d < dim ==>
      x[i][d] * (c.lii[i] + 0.000000000001) == Dot(c.l[i], Column(v, d))
  {
    var lv := MatMul(c.l, v, dim);
    seq(|v|, i requires 0 <= i < |v| =>
      seq(dim, d requires 0 <= d < dim => lv[i][d] / (c.lii[i] + 0.000000000001)))
  }

  /** `UniformLaplacian.forward`: build and cache L on the first call (faces
      of degree 0 or indices outside the stacked matrix are refused), reuse
      the cached L on later calls whatever faces are passed, and apply it to
      the stacked vertices. */
  function UniformForward(m: UniformLaplacian, verts: seq<Matrix>, nv: nat, dim: nat, faces: Faces, deg: nat)
    : (r: Result<(UniformLaplacian, Matrix), LaplacianError>)
    requires ValidUniformState(m)
    requires forall b :: 0 <= b < |verts| ==> IsMatrix(verts[b], nv, dim)
    requires |faces| == |verts| && IsFaces(faces, deg)
    ensures m.cache.None? ==> (r.Failure? <==> deg == 0 || !OffsetInRange(faces, nv))
    ensures m.cache.Some? ==> (r.Failure? <==> |m.cache.value.l| != |verts| * nv)
    ensures r.Success? ==> ValidUniformState(r.value.0) && r.value.0.cache.Some?
    ensures r.Success? && m.cache.Some? ==> r.value.0 == m
    ensures r.Success? && m.cache.None? ==> r.value.0.cache == Some(UniformMatrix(faces, nv))
    ensures r.Success? ==>
      && IsMatrix(Flatten(verts), |r.value.0.cache.value.l|, dim)
      && r.value.1 == UniformApply(r.value.0.cache.value, Flatten(verts), dim)
  {
    StackedRows(verts, nv, dim);
    if m.cache.None? && (deg == 0 || !OffsetInRange(faces, nv)) then Failure(IndexOutOfRange)
    else
      var c := if m.cache.Some? then m.cache.value else UniformMatrix(faces, nv);
      assert ValidUniform(c) by {
        if m.cache.None? {
          UniformMatrixValid(faces, nv);
        }
      }
      if |c.l| != |verts| * nv then Failure(ShapeMismatch)
      else Success((UniformLaplacian(Some(c)), UniformApply(c, Flatten(verts), dim)))
  }

  /** A translation-free (constant) vertex field has zero uniform Laplacian. */
  lemma {:induction false} UniformApplyConstant(c: UniformCache, v: Matrix, dim: nat)
    requires ValidUniform(c) && IsMatrix(v, |c.l|, dim)
    requires forall i :: 0 <= i < |v| ==> v[i] == v[0]
    ensures forall i, d :: 0 <= i < |v| && 0 <= d < dim ==> UniformApply(c, v, dim)[i][d] == 0.0
  {
    var x := UniformApply(c, v, dim);
    forall i, d | 0 <= i < |v| && 0 <= d < dim
      ensures x[i][d] == 0.0
    {
      assert Column(v, d) == Const(|v|, v[0][d]);
      ZeroRowSumsKillConstants(c.l, |v|, v[0][d]);
      assert MatVec(c.l, Column(v, d))[i] == 0.0;
      assert x[i][d] * (c.lii[i] + 0.000000000001) == 0.0;
    }
  }

  // ---------------------------------------------------------------------
  // CotLaplacian
  // ---------------------------------------------------------------------

  /** Per-corner cotangent weights C[b][f][k], one per corner of every
      triangle (the output of `cotangent(V, F)`, taken as given). */
  predicate IsCotangents(faces: Faces, cots: seq<seq<seq<real>>>)
  {
    && |cots| == |faces|
    && forall b :: 0 <= b < |faces| ==>
      |cots[b]| == |faces[b]| && forall f :: 0 <= f < |faces[b]| ==> |cots[b][f]| == 3
  }

  /** The weight of corner k goes to the opposite edge (f[(k+1)%3], f[(k+2)%3]):
      rows are the corners [1, 2, 0], columns the corners [2, 0, 1]. */
  function FaceCotangents(face: seq<int>, cot: seq<real>, off: int): (ts: seq<Triplet>)
    requires |face| == 3 && |cot| == 3
    ensures |ts| == 3
  {
    seq(3, k requires 0 <= k < 3 => Triplet(face[(k + 1) % 3] + off, face[(k + 2) % 3] + off, cot[k]))
  }

  function CotTriplets(faces: Faces, cots: seq<seq<seq<real>>>, nv: nat): seq<Triplet>
    requires IsFaces(faces, 3) && IsCotangents(faces, cots)
  {
    Stack(seq(|faces|, b requires 0 <= b < |faces| =>
      seq(|faces[b]|, f requires 0 <= f < |faces[b]| => FaceCotangents(faces[b][f], cots[b][f], b * nv))))
  }

  /** Each cotangent triplet is corner k of face f of mesh b, placed at the opposite edge. */
  lemma {:induction false} CotTripletOrigin(faces: Faces, cots: seq<seq<seq<real>>>, nv: nat, q: int)
    returns (b: int, f: int, k: int)
    requires IsFaces(faces, 3) && IsCotangents(faces, cots)
    requires 0 <= q < |CotTriplets(faces, cots, nv)|
    ensures 0 <= b < |faces| && 0 <= f < |faces[b]| && 0 <= k < 3
    ensures var face := faces[b][f];
      CotTriplets(faces, cots, nv)[q] ==
        Triplet(face[(k + 1) % 3] + b * nv, face[(k + 2) % 3] + b * nv, cots[b][f][k])
  {
    b, f, k := StackOrigin(seq(|faces|, b requires 0 <= b < |faces| =>
      seq(|faces[b]|, f requires 0 <= f < |faces[b]| => FaceCotangents(faces[b][f], cots[b][f], b * nv))), q);
  }

  /** Conversely, with F triangles per mesh the weight of corner k of face f
      of mesh b is the triplet at position b·(F·3) + (f·3 + k), placed at the
      opposite edge, and there are B·F·3 triplets: every corner weight is
      placed exactly once. */
  lemma {:induction false} CotTripletAt(faces: Faces, cots: seq<seq<seq<real>>>, nv: nat, nf: nat, b: int, f: int, k: int)
    requires IsFaces(faces, 3) && IsCotangents(faces, cots)
    requires forall b :: 0 <= b < |faces| ==> |faces[b]| == nf
    requires 0 <= b < |faces| && 0 <= f < nf && 0 <= k < 3
    ensures |CotTriplets(faces, cots, nv)| == |faces| * (nf * 3)
    ensures var q, face := b * (nf * 3) + (f * 3 + k), faces[b][f];
      q < |CotTriplets(faces, cots, nv)| &&
      CotTriplets(faces, cots, nv)[q] == Triplet(face[(k + 1) % 3] + b * nv, face[(k + 2) % 3] + b * nv, cots[b][f][k])
  {
    StackAt(seq(|faces|, b requires 0 <= b < |faces| =>
      seq(|faces[b]|, f requires 0 <= f < |faces[b]| => FaceCotangents(faces[b][f], cots[b][f], b * nv))), nf, 3, b, f, k);
  }

  /** The facts about one cotangent triplet. */
  lemma {:induction false} CotTripletFact(faces: Faces, cots: seq<seq<seq<real>>>, nv: nat, q: int)
    requires IsFaces(faces, 3) && IsCotangents(faces, cots)
    requires 0 <= q < |CotTriplets(faces, cots, nv)|
    ensures var t := CotTriplets(faces, cots, nv)[q];
      && (OffsetInRange(faces, nv) ==> 0 <= t.row < |faces| * nv && 0 <= t.col < |faces| * nv)
      && (LocalFaces(faces, nv) ==> forall b' :: InBlock(t.row, b', nv) <==> InBlock(t.col, b', nv))
  {
    var b, f, k := CotTripletOrigin(faces, cots, nv, q);
    var face := faces[b][f];
    var k1, k2 := (k + 1) % 3, (k + 2) % 3;
    var t := CotTriplets(faces, cots, nv)[q];
    assert t.row == face[k1] + b * nv && t.col == face[k2] + b * nv;
    if LocalFaces(faces, nv) {
      assert 0 <= face[k1] < nv && 0 <= face[k2] < nv;
      SameBlock(t.row, t.col, b, nv);
    }
    if OffsetInRange(faces, nv) {
      assert 0 <= face[k1] + b * nv < |faces| * nv;
      assert 0 <= face[k2] + b * nv < |faces| * nv;
    }
  }

  /** Offset indices in range make every cotangent triplet address the
      stacked matrix; local indices keep every triplet within its mesh. */
  lemma {:induction false} CotTripletFacts(faces: Faces, cots: seq<seq<seq<real>>>, nv: nat)
    requires IsFaces(faces, 3) && IsCotangents(faces, cots)
    ensures OffsetInRange(faces, nv) ==> TripletsIn(CotTriplets(faces, cots, nv), |faces| * nv)
    ensures LocalFaces(faces, nv) ==> BlockLocal(CotTriplets(faces, cots, nv), nv)
  {
    forall q | 0 <= q < |CotTriplets(faces, cots, nv)| {
      CotTripletFact(faces, cots, nv, q);
    }
  }

  /** `L = L - diag(rowsum(L))`. */
  function RowSumCompletion(l1: Matrix): (l: Matrix)
    requires IsMatrix(l1, |l1|, |l1|)
    ensures IsMatrix(l, |l1|, |l1|)
  {
    MatSub(l1, Diag(RowSums(l1)))
  }

  /** Subtracting the row sums on the diagonal keeps a symmetric matrix
      symmetric, zeroes every row sum and leaves the off-diagonal entries. */
  lemma {:induction false} RowSumCompletionValid(l1: Matrix)
    requires Symmetric(l1)
    ensures Symmetric(RowSumCompletion(l1)) && ZeroRowSums(RowSumCompletion(l1))
    ensures forall i, j :: 0 <= i < |l1| && 0 <= j < |l1| && i != j ==> RowSumCompletion(l1)[i][j] == l1[i][j]
  {
    SubDiagRowSums(l1, RowSums(l1));
  }

  /** `CotLaplacian.computeLaplacian`: assemble the corner weights, add the
      transpose, subtract the row sums on the diagonal. */
  function CotMatrix(faces: Faces, cots: seq<seq<seq<real>>>, nv: nat): (l: Matrix)
    requires IsFaces(faces, 3) && IsCotangents(faces, cots) && OffsetInRange(faces, nv)
    ensures IsMatrix(l, |faces| * nv, |faces| * nv)
  {
    CotTripletFacts(faces, cots, nv);
    RowSumCompletion(Symmetrized(CotTriplets(faces, cots, nv), |faces| * nv))
  }

  /** The cotangent Laplacian is symmetric with zero row sums. */
  lemma {:induction false} CotMatrixValid(faces: Faces, cots: seq<seq<seq<real>>>, nv: nat)
    requires IsFaces(faces, 3) && IsCotangents(faces, cots) && OffsetInRange(faces, nv)
    ensures Symmetric(CotMatrix(faces, cots, nv)) && ZeroRowSums(CotMatrix(faces, cots, nv))
  {
    var ts := CotTriplets(faces, cots, nv);
    CotTripletFacts(faces, cots, nv);
    SymmetrizedEntries(ts, |faces| * nv);
    RowSumCompletionValid(Symmetrized(ts, |faces| * nv));
  }

  /** With local face indices no entry of the cotangent Laplacian couples two meshes. */
  lemma {:induction false} CotBlockDiagonal(faces: Faces, cots: seq<seq<seq<real>>>, nv: nat)
    requires IsFaces(faces, 3) && IsCotangents(faces, cots)
    requires OffsetInRange(faces, nv) && LocalFaces(faces, nv)
    ensures NoCrossMeshEntries(CotMatrix(faces, cots, nv), nv)
  {
    var n := |faces| * nv;
    var ts := CotTriplets(faces, cots, nv);
    CotTripletFacts(faces, cots, nv);
    SymmetrizedEntries(ts, n);
    SymmetrizedBlockDiagonal(ts, n, nv);
    RowSumCompletionValid(Symmetrized(ts, n));
  }

  /** A triangle mesh batch together with its corner cotangents. */
  datatype CotMesh = CotMesh(faces: Faces, cots: seq<seq<seq<real>>>)

  /** A `CotLaplacian` module: empty until the first forward caches L. */
  datatype CotLaplacian = CotLaplacian(cache: Option<Matrix>)

  predicate ValidCotState(m: CotLaplacian)
  {
    m.cache.Some? ==> Symmetric(m.cache.value) && ZeroRowSums(m.cache.value)
  }

  /** `CotLaplacian.forward`: the first call needs the faces (otherwise the
      assertion fails) and builds L; later calls reuse L and ignore the faces.
      Building L gathers the corners of every face from its own mesh
      (`cotangent`), so an index outside [0, nv) is refused there. The cached
      L never couples two meshes. The result is L·V on the stacked vertices
      (`_CotLaplacianBatchLx.forward`). */
  function CotForward(m: CotLaplacian, verts: seq<Matrix>, nv: nat, mesh: Option<CotMesh>)
    : (r: Result<(CotLaplacian, Matrix), LaplacianError>)
    requires ValidCotState(m)
    requires forall b :: 0 <= b < |verts| ==> IsMatrix(verts[b], nv, 3)
    requires mesh.Some? ==>
      |mesh.value.faces| == |verts| && IsFaces(mesh.value.faces, 3) && IsCotangents(mesh.value.faces, mesh.value.cots)
    ensures m.cache.None? && mesh.None? ==> r == Failure(FacesRequired)
    ensures m.cache.None? && mesh.Some? ==> (r.Failure? <==> !LocalFaces(mesh.value.faces, nv))
    ensures m.cache.Some? ==> (r.Failure? <==> |m.cache.value| != |verts| * nv)
    ensures r.Success? ==> ValidCotState(r.value.0) && r.value.0.cache.Some?
    ensures r.Success? && m.cache.Some? ==> r.value.0 == m
    ensures r.Success? && m.cache.None? ==>
      && OffsetInRange(mesh.value.faces, nv)
      && r.value.0.cache == Some(CotMatrix(mesh.value.faces, mesh.value.cots, nv))
      && NoCrossMeshEntries(r.value.0.cache.value, nv)
    ensures r.Success? ==>
      && IsMatrix(Flatten(verts), |r.value.0.cache.value|, 3)
      && r.value.1 == MatMul(r.value.0.cache.value, Flatten(verts), 3)
  {
    StackedRows(verts, nv, 3);
    if m.cache.None? && mesh.None? then Failure(FacesRequired)
    else if m.cache.None? && !LocalFaces(mesh.value.faces, nv) then Failure(IndexOutOfRange)
    else
      assert m.cache.None? ==> OffsetInRange(mesh.value.faces, nv) by {
        if m.cache.None? {
          LocalFacesInRange(mesh.value.faces, nv);
        }
      }
      var l := if m.cache.Some? then m.cache.value else CotMatrix(mesh.value.faces, mesh.value.cots, nv);
      assert Symmetric(l) && ZeroRowSums(l) && (m.cache.None? ==> NoCrossMeshEntries(l, nv)) by {
        if m.cache.None? {
          CotMatrixValid(mesh.value.faces, mesh.value.cots, nv);
          CotBlockDiagonal(mesh.value.faces, mesh.value.cots, nv);
        }
      }
      if |l| != |verts| * nv then Failure(ShapeMismatch)
      else Success((CotLaplacian(Some(l)), MatMul(l, Flatten(verts), 3)))
  }

  /** `_CotLaplacianBatchLx.backward`: the incoming gradient multiplied by L. */
  function CotBackward(l: Matrix, g: Matrix): (r: Matrix)
    requires IsMatrix(l, |l|, |l|) && IsMatrix(g, |l|, 3)
    ensures IsMatrix(r, |l|, 3)
  {
    MatMul(l, g, 3)
  }

  /** Because L is symmetric, L·g is the true vector–Jacobian product of
      V ↦ L·V: in every coordinate channel, g · (L x) == (L g) · x. */
  lemma {:induction false} CotBackwardAdjoint(l: Matrix, g: Matrix, x: Matrix, d: nat)
    requires Symmetric(l) && IsMatrix(g, |l|, 3) && IsMatrix(x, |l|, 3) && d < 3
    ensures Dot(Column(g, d), Column(MatMul(l, x, 3), d)) == Dot(Column(CotBackward(l, g), d), Column(x, d))
  {
    MatMulColumn(l, x, 3, d);
    MatMulColumn(l, g, 3, d);
    SymmetricAdjoint(l, Column(g, d), Column(x, d));
  }
}
