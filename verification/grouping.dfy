/**
 * Rank-4 gather (operations.py `GroupingOperation`) and its use by
 * `QueryAndGroup.forward`, which groups the neighbourhoods named by a ball
 * query. The ball-query kernel itself is not modelled: its index grid is an
 * input. One batch element is modelled; the batch axis repeats it.
 */
module Grouping {
  import opened Vectors
  import opened Wrappers
  import opened GatherScatter

  /** An (npoint, nsample) index grid whose entries all lie in [0, n). */
  predicate IndexGrid(idx: seq<seq<int>>, n: int)
  {
    forall m :: 0 <= m < |idx| ==> InRange(idx[m], n)
  }

  /** One channel of a grouped tensor has the shape of the index grid. */
  predicate GridShaped(x: seq<Vector>, idx: seq<seq<int>>)
  {
    |x| == |idx| && forall m :: 0 <= m < |x| ==> |x[m]| == |idx[m]|
  }

  /** `GroupingOperation.forward`: out[c][m][s] = f[c][idx[m][s]]. */
  function Group(f: seq<Vector>, n: nat, idx: seq<seq<int>>): (r: seq<seq<Vector>>)
    requires IsFeatureMap(f, n) && IndexGrid(idx, n)
    ensures |r| == |f| && forall c :: 0 <= c < |r| ==> GridShaped(r[c], idx)
  {
    seq(|f|, c requires 0 <= c < |f| =>
      seq(|idx|, m requires 0 <= m < |idx| => Gather(f[c], idx[m])))
  }

  /** `GroupingOperation.backward`: per channel, every incoming gradient is
      accumulated into a zero gradient of width n at its index. */
  function GroupBackward(g: seq<seq<Vector>>, idx: seq<seq<int>>, n: nat): (r: seq<Vector>)
    requires IndexGrid(idx, n)
    requires forall c :: 0 <= c < |g| ==> GridShaped(g[c], idx)
    ensures |r| == |g| && IsFeatureMap(r, n)
  {
    seq(|g|, c requires 0 <= c < |g| => ChannelBackward(g[c], idx, n))
  }

  /** One channel of `GroupingOperation.backward`. */
  function ChannelBackward(gc: seq<Vector>, idx: seq<seq<int>>, n: nat): (r: Vector)
    requires IndexGrid(idx, n) && GridShaped(gc, idx)
    ensures |r| == n
  {
    FlattenSameLength(gc, idx);
    FlattenInRange(idx, n);
    GatherBackward(Flatten(gc), Flatten(idx), n)
  }

  lemma {:induction false} FlattenInRange(idx: seq<seq<int>>, n: int)
    requires IndexGrid(idx, n)
    ensures InRange(Flatten(idx), n)
  {
    if |idx| > 0 {
      var k := |idx| - 1;
      FlattenInRange(idx[..k], n);
      var a, b := Flatten(idx[..k]), idx[k];
      assert Flatten(idx) == a + b;
      forall i | 0 <= i < |a + b| ensures 0 <= (a + b)[i] < n {
        if i >= |a| { assert (a + b)[i] == b[i - |a|]; }
      }
    }
  }

  /** Sum over channels of the channel inner products of two grouped tensors. */
  function GroupedInner(a: seq<seq<Vector>>, b: seq<seq<Vector>>): real
    requires |a| == |b| && forall c :: 0 <= c < |a| ==> SameShape(a[c], b[c])
  {
    if |a| == 0 then 0.0
    else GroupedInner(a[..|a| - 1], b[..|b| - 1]) + Inner(a[|a| - 1], b[|b| - 1])
  }

  lemma {:induction false} GatherConcat(v: Vector, a: seq<int>, b: seq<int>)
    requires InRange(a, |v|) && InRange(b, |v|)
    ensures InRange(a + b, |v|)
    ensures Gather(v, a + b) == Gather(v, a) + Gather(v, b)
  {
    assert InRange(a + b, |v|) by {
      forall i | 0 <= i < |a + b| ensures 0 <= (a + b)[i] < |v| {
        if i >= |a| { assert (a + b)[i] == b[i - |a|]; }
      }
    }
  }

  /** Gathering row by row and then pairing with g is the same as pairing the
      flattened g with a gather over the flattened grid. */
  lemma {:induction false} GroupChannelFlatten(fc: Vector, g: seq<Vector>, idx: seq<seq<int>>)
    requires IndexGrid(idx, |fc|) && GridShaped(g, idx)
    ensures |Flatten(g)| == |Flatten(idx)| && InRange(Flatten(idx), |fc|) &&
      Inner(g, seq(|idx|, m requires 0 <= m < |idx| => Gather(fc, idx[m])))
      == Dot(Flatten(g), Gather(fc, Flatten(idx)))
  {
    FlattenInRange(idx, |fc|);
    FlattenSameLength(g, idx);
    var rows := seq(|idx|, m requires 0 <= m < |idx| => Gather(fc, idx[m]));
    if |idx| > 0 {
      var k := |idx| - 1;
      var rowsK := seq(k, m requires 0 <= m < k => Gather(fc, idx[..k][m]));
      assert rows[..k] == rowsK;
      GroupChannelFlatten(fc, g[..k], idx[..k]);
      FlattenInRange(idx[..k], |fc|);
      FlattenSameLength(g[..k], idx[..k]);
      GatherConcat(fc, Flatten(idx[..k]), idx[k]);
      assert Flatten(idx) == Flatten(idx[..k]) + idx[k];
      assert Flatten(g) == Flatten(g[..k]) + g[k];
      DotConcat(Flatten(g[..k]), g[k], Gather(fc, Flatten(idx[..k])), Gather(fc, idx[k]));
    }
  }

  /** Adjoint identity of `GroupingOperation`: ⟨g, group(f)⟩ = ⟨backward(g), f⟩. */
  lemma {:induction false} GroupAdjoint(f: seq<Vector>, n: nat, g: seq<seq<Vector>>, idx: seq<seq<int>>)
    requires IsFeatureMap(f, n) && IndexGrid(idx, n)
    requires |g| == |f| && forall c :: 0 <= c < |g| ==> GridShaped(g[c], idx)
    ensures (forall c :: 0 <= c < |g| ==> SameShape(g[c], Group(f, n, idx)[c])) &&
            GroupedInner(g, Group(f, n, idx)) == Inner(GroupBackward(g, idx, n), f)
    decreases |f|
  {
    if |f| > 0 {
      var c := |f| - 1;
      assert Group(f, n, idx)[..c] == Group(f[..c], n, idx);
      assert GroupBackward(g, idx, n)[..c] == GroupBackward(g[..c], idx, n);
      GroupAdjoint(f[..c], n, g[..c], idx);
      GroupChannelFlatten(f[c], g[c], idx);
      FlattenInRange(idx, n);
      FlattenSameLength(g[c], idx);
      GatherAdjoint(f[c], Flatten(g[c]), Flatten(idx));
    }
  }

  // ---------------------------------------------------------------------
  // QueryAndGroup
  // ---------------------------------------------------------------------

  datatype GroupError = NoFeaturesAndNoXyz

  /** `xyz.transpose(1, 2)`: the three coordinate channels of a cloud. */
  function CoordinateChannels(xyz: seq<Vector>): (r: seq<Vector>)
    requires IsCloud(xyz, 3)
    ensures |r| == 3 && IsFeatureMap(r, |xyz|)
  {
    seq(3, c requires 0 <= c < 3 => seq(|xyz|, i requires 0 <= i < |xyz| => xyz[i][c]))
  }

  /** Grouped coordinates minus the centre of their ball. */
  function GroupedOffsets(xyz: seq<Vector>, newXyz: seq<Vector>, idx: seq<seq<int>>): (r: seq<seq<Vector>>)
    requires IsCloud(xyz, 3) && IsCloud(newXyz, 3) && |newXyz| == |idx| && IndexGrid(idx, |xyz|)
    ensures |r| == 3 && forall c :: 0 <= c < 3 ==> GridShaped(r[c], idx)
  {
    var grouped := Group(CoordinateChannels(xyz), |xyz|, idx);
    seq(3, c requires 0 <= c < 3 =>
      seq(|idx|, m requires 0 <= m < |idx| =>
        seq(|idx[m]|, s requires 0 <= s < |idx[m]| => grouped[c][m][s] - newXyz[m][c])))
  }

  /** `QueryAndGroup.forward` given the ball-query index grid `idx`. With
      features, the result stacks the 3 offset channels on top of the C
      grouped feature channels (or only the features when `useXyz` is off);
      without features it is the offsets alone, and it is an error when
      offsets are not wanted either. */
  function QueryAndGroup(xyz: seq<Vector>, newXyz: seq<Vector>, idx: seq<seq<int>>,
                         features: Option<seq<Vector>>, useXyz: bool): (r: Result<seq<seq<Vector>>, GroupError>)
    requires IsCloud(xyz, 3) && IsCloud(newXyz, 3) && |newXyz| == |idx| && IndexGrid(idx, |xyz|)
    requires features.Some? ==> IsFeatureMap(features.value, |xyz|)
    ensures r.Failure? <==> features.None? && !useXyz
    ensures r.Success? ==> |r.value| == (if features.None? then 3
                                          else if useXyz then 3 + |features.value|
                                          else |features.value|)
    ensures r.Success? && useXyz ==>
      forall c, m, s :: 0 <= c < 3 && 0 <= m < |idx| && 0 <= s < |idx[m]| ==>
        |r.value[c]| == |idx| && |r.value[c][m]| == |idx[m]| &&
        r.value[c][m][s] == xyz[idx[m][s]][c] - newXyz[m][c]
    ensures r.Success? && features.Some? ==>
      var off := if useXyz then 3 else 0;
      forall c, m, s :: 0 <= c < |features.value| && 0 <= m < |idx| && 0 <= s < |idx[m]| ==>
        |r.value[off + c]| == |idx| && |r.value[off + c][m]| == |idx[m]| &&
        r.value[off + c][m][s] == features.value[c][idx[m][s]]
  {
    var offsets := GroupedOffsets(xyz, newXyz, idx);
    match features
    case Some(f) =>
      var grouped := Group(f, |xyz|, idx);
      if useXyz then Success(offsets + grouped) else Success(grouped)
    case None =>
      if useXyz then Success(offsets) else Failure(NoFeaturesAndNoXyz)
  }

  /** Shifting the cloud and the centres by the same vector t leaves the
      grouped output unchanged: only centre-relative offsets are produced. */
  lemma {:induction false} QueryAndGroupTranslationInvariant(xyz: seq<Vector>, newXyz: seq<Vector>, idx: seq<seq<int>>,
                                                         features: Option<seq<Vector>>, useXyz: bool, t: Vector)
    requires IsCloud(xyz, 3) && IsCloud(newXyz, 3) && |newXyz| == |idx| && IndexGrid(idx, |xyz|)
    requires features.Some? ==> IsFeatureMap(features.value, |xyz|)
    requires |t| == 3
    ensures QueryAndGroup(Translate(xyz, t), Translate(newXyz, t), idx, features, useXyz)
         == QueryAndGroup(xyz, newXyz, idx, features, useXyz)
  {
    var xyz', newXyz' := Translate(xyz, t), Translate(newXyz, t);
    var a := GroupedOffsets(xyz', newXyz', idx);
    var b := GroupedOffsets(xyz, newXyz, idx);
    forall c, m, s | 0 <= c < 3 && 0 <= m < |idx| && 0 <= s < |idx[m]|
      ensures a[c][m][s] == b[c][m][s]
    {
      var i := idx[m][s];
      assert a[c][m][s] == (xyz[i][c] + t[c]) - (newXyz[m][c] + t[c]);
    }
    assert forall c, m :: 0 <= c < 3 && 0 <= m < |idx| ==> a[c][m] == b[c][m];
    assert forall c :: 0 <= c < 3 ==> a[c] == b[c];
    assert a == b;
  }
}
