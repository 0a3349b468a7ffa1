/**
 * Sparse matrices as used by the mesh Laplacians, held densely: COO/CSR
 * triplet assembly (duplicates summed), transpose, diagonal matrices,
 * row sums and matrix–vector products.
 */
module Sparse {
  import opened Vectors

  type Matrix = seq<Vector>

  /** An m × n matrix. */
  predicate IsMatrix(a: Matrix, m: nat, n: nat)
  {
    |a| == m && forall i :: 0 <= i < m ==> |a[i]| == n
  }

  /** One coordinate-format entry. */
  datatype Triplet = Triplet(row: int, col: int, val: real)

  /** Every triplet addresses a cell of an n × n matrix (the size check of
      `torch.sparse_coo_tensor` and `scipy.sparse.csr_matrix`). */
  predicate TripletsIn(ts: seq<Triplet>, n: nat)
  {
    forall t :: 0 <= t < |ts| ==> 0 <= ts[t].row < n && 0 <= ts[t].col < n
  }

  function Zero(n: nat): (z: Matrix)
    ensures IsMatrix(z, n, n)
  {
    seq(n, _ => Const(n, 0.0))
  }

  /** Accumulate v into cell (i, j). */
  function AddEntry(a: Matrix, i: int, j: int, v: real): (r: Matrix)
    requires 0 <= i < |a| && 0 <= j < |a[i]|
    ensures |r| == |a| && forall k :: 0 <= k < |a| ==> |r[k]| == |a[k]|
  {
    a[i := a[i][j := a[i][j] + v]]
  }

  /** Reference value of a cell: the sum of the values of the triplets that address it. */
  function EntrySum(ts: seq<Triplet>, i: int, j: int): real
  {
    if |ts| == 0 then 0.0
    else
      var t := ts[|ts| - 1];
      EntrySum(ts[..|ts| - 1], i, j) + (if t.row == i && t.col == j then t.val else 0.0)
  }

  /** Sparse assembly: duplicate coordinates are summed. */
  function Assemble(ts: seq<Triplet>, n: nat): (a: Matrix)
    requires TripletsIn(ts, n)
    ensures IsMatrix(a, n, n)
  {
    if |ts| == 0 then Zero(n)
    else
      var t := ts[|ts| - 1];
      AddEntry(Assemble(ts[..|ts| - 1], n), t.row, t.col, t.val)
  }

  function Column(a: Matrix, j: nat): (c: Vector)
    requires forall i :: 0 <= i < |a| ==> j < |a[i]|
    ensures |c| == |a|
  {
    seq(|a|, i requires 0 <= i < |a| => a[i][j])
  }

  /** Transpose of an m × n matrix. */
  function Transpose(a: Matrix, n: nat): (t: Matrix)
    requires IsMatrix(a, |a|, n)
    ensures IsMatrix(t, n, |a|)
  {
    seq(n, j requires 0 <= j < n => Column(a, j))
  }

  function MatAdd(a: Matrix, b: Matrix): (r: Matrix)
    requires SameShape(a, b)
    ensures SameShape(r, a)
  {
    seq(|a|, i requires 0 <= i < |a| => Add(a[i], b[i]))
  }

  function MatSub(a: Matrix, b: Matrix): (r: Matrix)
    requires SameShape(a, b)
    ensures SameShape(r, a)
  {
    seq(|a|, i requires 0 <= i < |a| => Sub(a[i], b[i]))
  }

  /** The diagonal matrix with diagonal d. */
  function Diag(d: Vector): (r: Matrix)
    ensures IsMatrix(r, |d|, |d|)
  {
    seq(|d|, i requires 0 <= i < |d| =>
      seq(|d|, j requires 0 <= j < |d| => if i == j then d[i] else 0.0))
  }

  function RowSums(a: Matrix): (r: Vector)
    ensures |r| == |a|
  {
    seq(|a|, i requires 0 <= i < |a| => Sum(a[i]))
  }

  predicate Symmetric(a: Matrix)
  {
    IsMatrix(a, |a|, |a|) &&
    forall i, j :: 0 <= i < |a| && 0 <= j < |a| ==> a[i][j] == a[j][i]
  }

  predicate ZeroRowSums(a: Matrix)
  {
    forall i :: 0 <= i < |a| ==> Sum(a[i]) == 0.0
  }

  function MatVec(a: Matrix, x: Vector): (y: Vector)
    requires IsMatrix(a, |a|, |x|)
    ensures |y| == |a|
  {
    seq(|a|, i requires 0 <= i < |a| => Dot(a[i], x))
  }

  /** Product of a matrix with an n × dim matrix of row vectors (`L.mm(V)`, `L.dot(V)`). */
  function MatMul(a: Matrix, x: Matrix, dim: nat): (y: Matrix)
    requires IsMatrix(a, |a|, |x|) && IsMatrix(x, |x|, dim)
    ensures IsMatrix(y, |a|, dim)
  {
    seq(|a|, i requires 0 <= i < |a| =>
      seq(dim, d requires 0 <= d < dim => Dot(a[i], Column(x, d))))
  }

  // ---------------------------------------------------------------------
  // Assembly
  // ---------------------------------------------------------------------

  /** Each assembled cell holds the sum of the triplets addressing it. */
  lemma {:induction false} AssembleEntries(ts: seq<Triplet>, n: nat)
    requires TripletsIn(ts, n)
    ensures forall i, j :: 0 <= i < n && 0 <= j < n ==> Assemble(ts, n)[i][j] == EntrySum(ts, i, j)
  {
    if |ts| > 0 {
      var p := ts[..|ts| - 1];
      assert TripletsIn(p, n) by {
        assert forall t :: 0 <= t < |p| ==> p[t] == ts[t];
      }
      AssembleEntries(p, n);
    }
  }

  /** A cell no triplet addresses stays zero. */
  lemma {:induction false} EntrySumSupport(ts: seq<Triplet>, i: int, j: int)
    requires EntrySum(ts, i, j) != 0.0
    ensures exists t :: 0 <= t < |ts| && ts[t].row == i && ts[t].col == j
  {
    var last := |ts| - 1;
    if ts[last].row == i && ts[last].col == j {
    } else {
      EntrySumSupport(ts[..last], i, j);
      var t :| 0 <= t < last && ts[..last][t].row == i && ts[..last][t].col == j;
      assert ts[t] == ts[..last][t];
    }
  }

  /** Non-positive values assemble to non-positive cells. */
  lemma {:induction false} EntrySumNonPositive(ts: seq<Triplet>, i: int, j: int)
    requires forall t :: 0 <= t < |ts| ==> ts[t].val <= 0.0
    ensures EntrySum(ts, i, j) <= 0.0
  {
    if |ts| > 0 {
      var p := ts[..|ts| - 1];
      assert forall t :: 0 <= t < |p| ==> p[t] == ts[t];
      EntrySumNonPositive(p, i, j);
    }
  }

  lemma {:induction false} SumNonPositive(s: seq<real>)
    requires forall i :: 0 <= i < |s| ==> s[i] <= 0.0
    ensures Sum(s) <= 0.0
  {
    if |s| > 0 {
      var p := s[..|s| - 1];
      assert forall i :: 0 <= i < |p| ==> p[i] == s[i];
      SumNonPositive(p);
    }
  }

  // ---------------------------------------------------------------------
  // Symmetrisation and the diagonal correction
  // ---------------------------------------------------------------------

  /** `L = L.t() + L` (or `L + L.T`) is symmetric. */
  lemma {:induction false} SymmetrizeIsSymmetric(a: Matrix, n: nat)
    requires IsMatrix(a, n, n)
    ensures Symmetric(MatAdd(Transpose(a, n), a))
    ensures forall i, j :: 0 <= i < n && 0 <= j < n ==> MatAdd(Transpose(a, n), a)[i][j] == a[j][i] + a[i][j]
  {
  }

  /** The sum of row i of a diagonal matrix is its diagonal entry. */
  lemma {:induction false} DiagRowSum(d: Vector, i: int)
    requires 0 <= i < |d|
    ensures Sum(Diag(d)[i]) == d[i]
  {
    var n := |d|;
    var z := Const(n, 0.0);
    assert Diag(d)[i] == z[i := z[i] + d[i]];
    SumAddAt(z, i, d[i]);
    SumOfConst(n, 0.0);
  }

  /** Adding a diagonal matrix shifts each row sum by its diagonal entry. */
  lemma {:induction false} AddDiagRowSums(a: Matrix, d: Vector)
    requires IsMatrix(a, |d|, |d|)
    ensures forall i :: 0 <= i < |d| ==> Sum(MatAdd(a, Diag(d))[i]) == Sum(a[i]) + d[i]
  {
    forall i | 0 <= i < |d|
      ensures Sum(MatAdd(a, Diag(d))[i]) == Sum(a[i]) + d[i]
    {
      SumOfAdd(a[i], Diag(d)[i]);
      DiagRowSum(d, i);
    }
  }

  /** Subtracting a diagonal matrix lowers each row sum by its diagonal entry. */
  lemma {:induction false} SubDiagRowSums(a: Matrix, d: Vector)
    requires IsMatrix(a, |d|, |d|)
    ensures forall i :: 0 <= i < |d| ==> Sum(MatSub(a, Diag(d))[i]) == Sum(a[i]) - d[i]
  {
    forall i | 0 <= i < |d|
      ensures Sum(MatSub(a, Diag(d))[i]) == Sum(a[i]) - d[i]
    {
      SumOfSub(a[i], Diag(d)[i]);
      DiagRowSum(d, i);
    }
  }

  /** A matrix with zero row sums sends every constant field to zero. */
  lemma {:induction false} ZeroRowSumsKillConstants(a: Matrix, n: nat, c: real)
    requires IsMatrix(a, |a|, n) && ZeroRowSums(a)
    ensures MatVec(a, Const(n, c)) == Const(|a|, 0.0)
  {
    forall i | 0 <= i < |a|
      ensures MatVec(a, Const(n, c))[i] == 0.0
    {
      DotConstRight(a[i], c);
    }
  }

  // ---------------------------------------------------------------------
  // Adjointness
  // ---------------------------------------------------------------------

  lemma {:induction false} DotZeroLeft(x: Vector)
    ensures Dot(Const(|x|, 0.0), x) == 0.0
  {
    DotConstRight(x, 0.0);
    DotSymmetric(x, Const(|x|, 0.0));
  }

  /** Peeling the last row off A splits Aᵀ g into the part of the other
      rows and the last row scaled by its gradient entry. */
  lemma {:induction false} TransposeMatVecStep(a: Matrix, n: nat, g: Vector)
    requires IsMatrix(a, |a|, n) && |g| == |a| > 0
    ensures MatVec(Transpose(a, n), g) ==
      Add(MatVec(Transpose(a[..|a| - 1], n), g[..|g| - 1]), Scale(g[|g| - 1], a[|a| - 1]))
  {
    var m := |a|;
    var a' := a[..m - 1];
    var p := MatVec(Transpose(a', n), g[..m - 1]);
    forall j | 0 <= j < n
      ensures MatVec(Transpose(a, n), g)[j] == Add(p, Scale(g[m - 1], a[m - 1]))[j]
    {
      assert Column(a, j)[..m - 1] == Column(a', j);
    }
  }

  /** The last entry of A x is the last row against x. */
  lemma {:induction false} MatVecStep(a: Matrix, g: Vector, x: Vector)
    requires IsMatrix(a, |a|, |x|) && |g| == |a| > 0
    ensures Dot(g, MatVec(a, x)) ==
      Dot(g[..|g| - 1], MatVec(a[..|a| - 1], x)) + g[|g| - 1] * Dot(a[|a| - 1], x)
  {
    assert MatVec(a, x)[..|a| - 1] == MatVec(a[..|a| - 1], x);
  }

  /** g · (A x) == (Aᵀ g) · x for every m × n matrix A. */
  lemma {:induction false} TransposeAdjoint(a: Matrix, n: nat, g: Vector, x: Vector)
    requires IsMatrix(a, |a|, n) && |g| == |a| && |x| == n
    ensures Dot(g, MatVec(a, x)) == Dot(MatVec(Transpose(a, n), g), x)
    decreases |a|
  {
    var m := |a|;
    if m == 0 {
      assert MatVec(Transpose(a, n), g) == Const(n, 0.0);
      DotZeroLeft(x);
    } else {
      MatVecStep(a, g, x);
      TransposeAdjoint(a[..m - 1], n, g[..m - 1], x);
      TransposeStepDot(a, n, g, x);
    }
  }

  /** (Aᵀ g) · x split into the rows but the last and the last row. */
  lemma {:induction false} TransposeStepDot(a: Matrix, n: nat, g: Vector, x: Vector)
    requires IsMatrix(a, |a|, n) && |g| == |a| > 0 && |x| == n
    ensures Dot(MatVec(Transpose(a, n), g), x) ==
      Dot(MatVec(Transpose(a[..|a| - 1], n), g[..|g| - 1]), x) + g[|g| - 1] * Dot(a[|a| - 1], x)
  {
    var m := |a|;
    var p := MatVec(Transpose(a[..m - 1], n), g[..m - 1]);
    TransposeMatVecStep(a, n, g);
    DotAddLeft(p, Scale(g[m - 1], a[m - 1]), x);
    DotScaleLeft(g[m - 1], a[m - 1], x);
  }

  /** A symmetric matrix is its own transpose. */
  lemma {:induction false} SymmetricTranspose(a: Matrix)
    requires Symmetric(a)
    ensures Transpose(a, |a|) == a
  {
    forall i | 0 <= i < |a|
      ensures Transpose(a, |a|)[i] == a[i]
    {
    }
  }

  /** For symmetric A, multiplying the gradient by A is the true transposed product:
      g · (A x) == (A g) · x. */
  lemma {:induction false} SymmetricAdjoint(a: Matrix, g: Vector, x: Vector)
    requires Symmetric(a) && |g| == |a| && |x| == |a|
    ensures Dot(g, MatVec(a, x)) == Dot(MatVec(a, g), x)
  {
    TransposeAdjoint(a, |a|, g, x);
    SymmetricTranspose(a);
  }

  /** Column d of A·X is A applied to column d of X. */
  lemma {:induction false} MatMulColumn(a: Matrix, x: Matrix, dim: nat, d: nat)
    requires IsMatrix(a, |a|, |x|) && IsMatrix(x, |x|, dim) && d < dim
    ensures Column(MatMul(a, x, dim), d) == MatVec(a, Column(x, d))
  {
  }
}
