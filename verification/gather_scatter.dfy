/**
 * Index gather and its adjoint, scatter-add (operations.py `GatherFunction`,
 * `ScatterAdd`, `scatter_add`). One fibre of the indexed axis is modelled:
 * the batch and channel axes repeat the same computation independently.
 */
module GatherScatter {
  import opened Vectors
  import opened Wrappers

  /** Every index lies in [0, n). */
  predicate InRange(idx: seq<int>, n: int)
  {
    forall i :: 0 <= i < |idx| ==> 0 <= idx[i] < n
  }

  /** Selection of the entries named by idx: out[p] = v[idx[p]]. */
  function Gather(v: Vector, idx: seq<int>): (r: Vector)
    requires InRange(idx, |v|)
    ensures |r| == |idx|
  {
    seq(|idx|, p requires 0 <= p < |idx| => v[idx[p]])
  }

  /** Reference definition of one output position of a scatter-add: the sum,
      in source order, of the contributions src[i] whose index is j. */
  function ContributionsTo(src: Vector, idx: seq<int>, j: int): real
    requires |src| == |idx|
  {
    if |src| == 0 then 0.0
    else
      var n := |src| - 1;
      ContributionsTo(src[..n], idx[..n], j) + (if idx[n] == j then src[n] else 0.0)
  }

  /** `ScatterAdd.forward` with an explicit output width: fill, then add each
      src[i] into position idx[i], in order. */
  function ScatterAdd(src: Vector, idx: seq<int>, width: nat, fill: real): (r: Vector)
    requires |src| == |idx| && InRange(idx, width)
    ensures |r| == width
    decreases |src|
  {
    if |src| == 0 then Const(width, fill)
    else
      var n := |src| - 1;
      var prev := ScatterAdd(src[..n], idx[..n], width, fill);
      prev[idx[n] := prev[idx[n]] + src[n]]
  }

  /** Each output position of a scatter-add ends up as fill plus the
      contributions aimed at it. */
  lemma {:induction false} ScatterAddPositions(src: Vector, idx: seq<int>, width: nat, fill: real)
    requires |src| == |idx| && InRange(idx, width)
    ensures forall j :: 0 <= j < width ==>
      ScatterAdd(src, idx, width, fill)[j] == fill + ContributionsTo(src, idx, j)
    decreases |src|
  {
    if |src| > 0 {
      var n := |src| - 1;
      ScatterAddPositions(src[..n], idx[..n], width, fill);
    }
  }

  datatype ScatterError = EmptyIndex | IndexOutOfRange

  /** `scatter_add` as the caller sees it: with `out_size` given, indices outside
      the output are refused; with `out_size` omitted the width is max(idx)+1,
      which needs a non-empty index. */
  function ScatterAddChecked(src: Vector, idx: seq<int>, outSize: Option<nat>, fill: real)
    : (r: Result<Vector, ScatterError>)
    requires |src| == |idx|
    ensures outSize.None? && |idx| == 0 ==> r == Failure(EmptyIndex)
    ensures r.Success? <==> (outSize.Some? || |idx| > 0) && (forall i :: 0 <= i < |idx| ==> idx[i] >= 0)
                            && (outSize.Some? ==> InRange(idx, outSize.value))
    ensures r.Success? && outSize.Some? ==> |r.value| == outSize.value
    ensures r.Success? && outSize.None? ==> |r.value| == MaxIndex(idx) + 1
    ensures r.Success? ==> forall j :: 0 <= j < |r.value| ==> r.value[j] == fill + ContributionsTo(src, idx, j)
  {
    match outSize
    case Some(w) =>
      if InRange(idx, w) then ScatterAddPositions(src, idx, w, fill); Success(ScatterAdd(src, idx, w, fill))
      else Failure(IndexOutOfRange)
    case None =>
      if |idx| == 0 then Failure(EmptyIndex)
      else
        MaxIndexBounds(idx);
        var w := MaxIndex(idx) + 1;
        if w > 0 && InRange(idx, w) then ScatterAddPositions(src, idx, w, fill); Success(ScatterAdd(src, idx, w, fill))
        else Failure(IndexOutOfRange)
  }

  /** `idx.max()`: the largest index of a non-empty index sequence. */
  function MaxIndex(idx: seq<int>): int
    requires |idx| > 0
  {
    if |idx| == 1 then idx[0]
    else
      var m := MaxIndex(idx[..|idx| - 1]);
      if idx[|idx| - 1] > m then idx[|idx| - 1] else m
  }

  lemma {:induction false} MaxIndexBounds(idx: seq<int>)
    requires |idx| > 0
    ensures forall i :: 0 <= i < |idx| ==> idx[i] <= MaxIndex(idx)
    ensures exists i :: 0 <= i < |idx| && idx[i] == MaxIndex(idx)
  {
    if |idx| > 1 {
      var p := idx[..|idx| - 1];
      MaxIndexBounds(p);
      var i :| 0 <= i < |p| && p[i] == MaxIndex(p);
      assert idx[i] == p[i];
      if idx[|idx| - 1] > MaxIndex(p) {
        assert idx[|idx| - 1] == MaxIndex(idx);
      } else {
        assert idx[i] == MaxIndex(idx);
      }
    } else {
      assert idx[0] == MaxIndex(idx);
    }
  }

  /** `ScatterAdd.backward`: the gradient of src is the gather of the output
      gradient at idx (the index itself receives no gradient). */
  function ScatterAddBackward(ograd: Vector, idx: seq<int>): (grad: Vector)
    requires InRange(idx, |ograd|)
    ensures |grad| == |idx|
  {
    Gather(ograd, idx)
  }

  /** `GatherFunction.backward`: a zero-initialised gradient of width n into
      which each incoming gradient is accumulated at its index. */
  function GatherBackward(gradOut: Vector, idx: seq<int>, n: nat): (grad: Vector)
    requires |gradOut| == |idx| && InRange(idx, n)
    ensures |grad| == n
    ensures forall j :: 0 <= j < n ==> grad[j] == ContributionsTo(gradOut, idx, j)
  {
    ScatterAddPositions(gradOut, idx, n, 0.0);
    ScatterAdd(gradOut, idx, n, 0.0)
  }

  // ---------------------------------------------------------------------
  // Properties
  // ---------------------------------------------------------------------

  /** The output of a scatter-add totals fill·width plus the sum of src. */
  lemma {:induction false} ScatterAddTotal(src: Vector, idx: seq<int>, width: nat, fill: real)
    requires |src| == |idx| && InRange(idx, width)
    ensures Sum(ScatterAdd(src, idx, width, fill)) == width as real * fill + Sum(src)
    decreases |src|
  {
    if |src| == 0 {
      SumOfConst(width, fill);
    } else {
      var n := |src| - 1;
      var prev := ScatterAdd(src[..n], idx[..n], width, fill);
      ScatterAddTotal(src[..n], idx[..n], width, fill);
      SumAddAt(prev, idx[n], src[n]);
    }
  }

  /** Adjoint identity of the pair (scatter-add with fill 0, gather):
      ⟨g, scatter(src)⟩ = ⟨gather(g), src⟩ for every g and src. This is why
      `ScatterAdd.backward` may return a gather. */
  lemma {:induction false} ScatterGatherAdjoint(g: Vector, src: Vector, idx: seq<int>)
    requires |src| == |idx| && InRange(idx, |g|)
    ensures Dot(g, ScatterAdd(src, idx, |g|, 0.0)) == Dot(ScatterAddBackward(g, idx), src)
    decreases |src|
  {
    if |src| == 0 {
      DotConstRight(g, 0.0);
    } else {
      var n := |src| - 1;
      ScatterAddStep(g, src, idx);
      ScatterGatherAdjoint(g, src[..n], idx[..n]);
      GatherStep(g, src, idx);
    }
  }

  lemma {:induction false} ScatterAddStep(g: Vector, src: Vector, idx: seq<int>)
    requires |src| == |idx| > 0 && InRange(idx, |g|)
    ensures Dot(g, ScatterAdd(src, idx, |g|, 0.0))
         == Dot(g, ScatterAdd(src[..|src| - 1], idx[..|idx| - 1], |g|, 0.0)) + g[idx[|idx| - 1]] * src[|src| - 1]
  {
    var n := |src| - 1;
    var prev := ScatterAdd(src[..n], idx[..n], |g|, 0.0);
    var out := ScatterAdd(src, idx, |g|, 0.0);
    assert out == prev[idx[n] := prev[idx[n]] + src[n]];
    DotAddAt(g, prev, idx[n], src[n]);
    assert Dot(g, out) == Dot(g, prev) + g[idx[n]] * src[n];
  }

  lemma {:induction false} GatherStep(g: Vector, src: Vector, idx: seq<int>)
    requires |src| == |idx| > 0 && InRange(idx, |g|)
    ensures Dot(ScatterAddBackward(g, idx), src)
         == Dot(ScatterAddBackward(g, idx[..|idx| - 1]), src[..|src| - 1]) + g[idx[|idx| - 1]] * src[|src| - 1]
  {
    var whole := Gather(g, idx);
    GatherPrefix(g, idx);
    DotUnfold(whole, src);
  }

  lemma {:induction false} DotUnfold(a: Vector, b: Vector)
    requires |a| == |b| > 0
    ensures Dot(a, b) == Dot(a[..|a| - 1], b[..|b| - 1]) + a[|a| - 1] * b[|b| - 1]
  {
  }

  lemma {:induction false} GatherPrefix(g: Vector, idx: seq<int>)
    requires |idx| > 0 && InRange(idx, |g|)
    ensures Gather(g, idx)[..|idx| - 1] == Gather(g, idx[..|idx| - 1])
    ensures Gather(g, idx)[|idx| - 1] == g[idx[|idx| - 1]]
  {
  }

  /** Adjoint identity of `GatherFunction`: its backward is the transpose of
      its forward, ⟨g, gather(f)⟩ = ⟨backward(g), f⟩. */
  lemma {:induction false} GatherAdjoint(f: Vector, g: Vector, idx: seq<int>)
    requires |g| == |idx| && InRange(idx, |f|)
    ensures Dot(g, Gather(f, idx)) == Dot(GatherBackward(g, idx, |f|), f)
  {
    ScatterGatherAdjoint(f, g, idx);
    DotSymmetric(g, Gather(f, idx));
    DotSymmetric(f, GatherBackward(g, idx, |f|));
  }

  /** A position that several indices name receives the sum of their gradients;
      a position no index names receives zero. */
  lemma {:induction false} GatherBackwardRepeated(gradOut: Vector, idx: seq<int>, n: nat, j: int, p: int, q: int)
    requires |gradOut| == |idx| && InRange(idx, n)
    requires 0 <= p < q < |idx| && idx[p] == j && idx[q] == j
    requires forall i :: 0 <= i < |idx| && i != p && i != q ==> idx[i] != j
    ensures GatherBackward(gradOut, idx, n)[j] == gradOut[p] + gradOut[q]
  {
    ContributionsTwo(gradOut, idx, j, p, q);
  }

  lemma {:induction false} ContributionsTwo(src: Vector, idx: seq<int>, j: int, p: int, q: int)
    requires |src| == |idx|
    requires 0 <= p < q < |idx| && idx[p] == j && idx[q] == j
    requires forall i :: 0 <= i < |idx| && i != p && i != q ==> idx[i] != j
    ensures ContributionsTo(src, idx, j) == src[p] + src[q]
    decreases |src|
  {
    var n := |src| - 1;
    if q == n {
      ContributionsOne(src[..n], idx[..n], j, p);
    } else {
      ContributionsTwo(src[..n], idx[..n], j, p, q);
    }
  }

  lemma {:induction false} ContributionsOne(src: Vector, idx: seq<int>, j: int, p: int)
    requires |src| == |idx|
    requires 0 <= p < |idx| && idx[p] == j
    requires forall i :: 0 <= i < |idx| && i != p ==> idx[i] != j
    ensures ContributionsTo(src, idx, j) == src[p]
    decreases |src|
  {
    var n := |src| - 1;
    if p == n {
      ContributionsNone(src[..n], idx[..n], j);
    } else {
      ContributionsOne(src[..n], idx[..n], j, p);
    }
  }

  lemma {:induction false} ContributionsNone(src: Vector, idx: seq<int>, j: int)
    requires |src| == |idx|
    requires forall i :: 0 <= i < |idx| ==> idx[i] != j
    ensures ContributionsTo(src, idx, j) == 0.0
    decreases |src|
  {
    if |src| > 0 {
      var n := |src| - 1;
      ContributionsNone(src[..n], idx[..n], j);
    }
  }

  // ---------------------------------------------------------------------
  // Feature maps: C channels gathered with the same index
  // ---------------------------------------------------------------------

  /** Every channel has n entries. */
  predicate IsFeatureMap(f: seq<Vector>, n: int)
  {
    forall c :: 0 <= c < |f| ==> |f[c]| == n
  }

  /** `GatherFunction.forward` on a (C, N) feature map: out[c][p] = f[c][idx[p]]. */
  function GatherFeatures(f: seq<Vector>, n: nat, idx: seq<int>): (r: seq<Vector>)
    requires IsFeatureMap(f, n) && InRange(idx, n)
    ensures |r| == |f| && IsFeatureMap(r, |idx|)
  {
    seq(|f|, c requires 0 <= c < |f| => Gather(f[c], idx))
  }

  /** `GatherFunction.backward` on a (C, npoint) gradient. */
  function GatherFeaturesBackward(g: seq<Vector>, idx: seq<int>, n: nat): (r: seq<Vector>)
    requires IsFeatureMap(g, |idx|) && InRange(idx, n)
    ensures |r| == |g| && IsFeatureMap(r, n)
  {
    seq(|g|, c requires 0 <= c < |g| => GatherBackward(g[c], idx, n))
  }

  /** Channel-wise adjointness of the gather pair on whole feature maps. */
  lemma {:induction false} GatherFeaturesAdjoint(f: seq<Vector>, n: nat, g: seq<Vector>, idx: seq<int>)
    requires IsFeatureMap(f, n) && InRange(idx, n)
    requires |g| == |f| && IsFeatureMap(g, |idx|)
    ensures Inner(g, GatherFeatures(f, n, idx)) == Inner(GatherFeaturesBackward(g, idx, n), f)
    decreases |f|
  {
    if |f| > 0 {
      var c := |f| - 1;
      assert GatherFeatures(f, n, idx)[..c] == GatherFeatures(f[..c], n, idx);
      assert GatherFeaturesBackward(g, idx, n)[..c] == GatherFeaturesBackward(g[..c], idx, n);
      GatherFeaturesAdjoint(f[..c], n, g[..c], idx);
      GatherAdjoint(f[c], g[c], idx);
    }
  }
}
