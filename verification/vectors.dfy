/**
 * Real-valued vector algebra: the reductions `sqrNorm`, `dot_product` and
 * `cross_product_2D`, plus the sums every other operator of the model is
 * built from. Floating point is replaced by exact reals.
 */
module Vectors {

  type Vector = seq<real>

  /** A point of the plane; its two named coordinates make the
      two-channel shape check of `cross_product_2D` hold by construction. */
  datatype Vec2 = Vec2(x: real, y: real)

  /** A cloud of points, each with `dim` coordinates. */
  predicate IsCloud(pts: seq<Vector>, dim: nat)
  {
    forall i :: 0 <= i < |pts| ==> |pts[i]| == dim
  }

  /** Sum of a sequence, accumulated from the front to the back. */
  function Sum(s: seq<real>): real
  {
    if |s| == 0 then 0.0 else Sum(s[..|s| - 1]) + s[|s| - 1]
  }

  /** `dot_product`: sum of the elementwise products. */
  function Dot(a: Vector, b: Vector): real
    requires |a| == |b|
  {
    if |a| == 0 then 0.0 else Dot(a[..|a| - 1], b[..|b| - 1]) + a[|a| - 1] * b[|b| - 1]
  }

  /** `sqrNorm`: sum of the squared entries; never negative. */
  function SqrNorm(a: Vector): (r: real)
    ensures r >= 0.0
  {
    SqrNormFacts(a);
    Dot(a, a)
  }

  /** `cross_product_2D`: the signed area of the parallelogram spanned by a and b. */
  function Cross2D(a: Vec2, b: Vec2): real
  {
    a.x * b.y - a.y * b.x
  }

  function Add(a: Vector, b: Vector): (r: Vector)
    requires |a| == |b|
    ensures |r| == |a|
  {
    seq(|a|, i requires 0 <= i < |a| => a[i] + b[i])
  }

  function Sub(a: Vector, b: Vector): (r: Vector)
    requires |a| == |b|
    ensures |r| == |a|
  {
    seq(|a|, i requires 0 <= i < |a| => a[i] - b[i])
  }

  function Scale(c: real, a: Vector): (r: Vector)
    ensures |r| == |a|
  {
    seq(|a|, i requires 0 <= i < |a| => c * a[i])
  }

  /** The constant vector of length n. */
  function Const(n: nat, c: real): (r: Vector)
    ensures |r| == n
  {
    seq(n, _ => c)
  }

  // ---------------------------------------------------------------------
  // Facts about the reductions
  // ---------------------------------------------------------------------

  lemma {:induction false} SqrNormFacts(a: Vector)
    ensures Dot(a, a) >= 0.0
  {
    if |a| > 0 {
      SqrNormFacts(a[..|a| - 1]);
      var x := a[|a| - 1];
      assert x * x >= 0.0;
    }
  }

  /** `dot_product` is symmetric. */
  lemma {:induction false} DotSymmetric(a: Vector, b: Vector)
    requires |a| == |b|
    ensures Dot(a, b) == Dot(b, a)
  {
    if |a| > 0 {
      DotSymmetric(a[..|a| - 1], b[..|b| - 1]);
    }
  }

  /** `cross_product_2D` is antisymmetric and vanishes on equal arguments. */
  lemma {:induction false} Cross2DAntisymmetric(a: Vec2, b: Vec2)
    ensures Cross2D(a, b) == -Cross2D(b, a)
    ensures Cross2D(a, a) == 0.0
  {
  }

  /** Over the reals, |a|² − 2a·b + |b|² is the squared distance |a − b|². */
  lemma {:induction false} SqrDistanceExpansion(a: Vector, b: Vector)
    requires |a| == |b|
    ensures SqrNorm(a) - 2.0 * Dot(a, b) + SqrNorm(b) == SqrNorm(Sub(a, b))
  {
    DotExpansion(a, b);
  }

  lemma {:induction false} DotExpansion(a: Vector, b: Vector)
    requires |a| == |b|
    ensures Dot(a, a) - 2.0 * Dot(a, b) + Dot(b, b) == Dot(Sub(a, b), Sub(a, b))
  {
    if |a| > 0 {
      var n := |a| - 1;
      var d := Sub(a, b);
      assert d[..n] == Sub(a[..n], b[..n]);
      DotExpansion(a[..n], b[..n]);
      var x, y := a[n], b[n];
      assert d[n] == x - y;
      assert (x - y) * (x - y) == x * x - 2.0 * (x * y) + y * y;
    }
  }

  /** Adding v at position j raises the sum by v. */
  lemma {:induction false} SumAddAt(s: seq<real>, j: int, v: real)
    requires 0 <= j < |s|
    ensures Sum(s[j := s[j] + v]) == Sum(s) + v
  {
    var n := |s| - 1;
    var t := s[j := s[j] + v];
    if j == n {
      assert t[..n] == s[..n];
    } else {
      assert t[..n] == s[..n][j := s[j] + v];
      SumAddAt(s[..n], j, v);
    }
  }

  /** Adding v at position j of the right factor raises the dot product by a[j]·v. */
  lemma {:induction false} DotAddAt(a: Vector, s: Vector, j: int, v: real)
    requires |a| == |s| && 0 <= j < |s|
    ensures Dot(a, s[j := s[j] + v]) == Dot(a, s) + a[j] * v
  {
    var n := |s| - 1;
    var t := s[j := s[j] + v];
    if j == n {
      assert t[..n] == s[..n];
    } else {
      assert t[..n] == s[..n][j := s[j] + v];
      DotAddAt(a[..n], s[..n], j, v);
    }
  }

  lemma {:induction false} SumAppend(s: seq<real>, x: real)
    ensures Sum(s + [x]) == Sum(s) + x
  {
    assert (s + [x])[..|s|] == s;
  }

  lemma {:induction false} SumConcat(s: seq<real>, t: seq<real>)
    ensures Sum(s + t) == Sum(s) + Sum(t)
    decreases |t|
  {
    if |t| > 0 {
      var n := |t| - 1;
      assert (s + t)[..|s + t| - 1] == s + t[..n];
      SumConcat(s, t[..n]);
    } else {
      assert s + t == s;
    }
  }

  lemma {:induction false} DotConcat(a: Vector, b: Vector, c: Vector, d: Vector)
    requires |a| == |c| && |b| == |d|
    ensures Dot(a + b, c + d) == Dot(a, c) + Dot(b, d)
    decreases |b|
  {
    if |b| > 0 {
      var n := |b| - 1;
      assert (a + b)[..|a + b| - 1] == a + b[..n];
      assert (c + d)[..|c + d| - 1] == c + d[..n];
      DotConcat(a, b[..n], c, d[..n]);
    } else {
      assert a + b == a && c + d == c;
    }
  }

  lemma {:induction false} SumOfConst(n: nat, c: real)
    ensures Sum(Const(n, c)) == n as real * c
  {
    if n > 0 {
      assert Const(n, c)[..n - 1] == Const(n - 1, c);
      SumOfConst(n - 1, c);
    }
  }

  lemma {:induction false} SumOfScale(c: real, a: Vector)
    ensures Sum(Scale(c, a)) == c * Sum(a)
  {
    if |a| > 0 {
      var n := |a| - 1;
      assert forall i :: 0 <= i < n ==> Scale(c, a)[..n][i] == Scale(c, a[..n])[i];
      assert Scale(c, a)[..n] == Scale(c, a[..n]);
      SumOfScale(c, a[..n]);
    }
  }

  lemma {:induction false} SumOfSub(a: Vector, b: Vector)
    requires |a| == |b|
    ensures Sum(Sub(a, b)) == Sum(a) - Sum(b)
  {
    if |a| > 0 {
      var n := |a| - 1;
      assert Sub(a, b)[..n] == Sub(a[..n], b[..n]);
      SumOfSub(a[..n], b[..n]);
    }
  }

  lemma {:induction false} SumOfAdd(a: Vector, b: Vector)
    requires |a| == |b|
    ensures Sum(Add(a, b)) == Sum(a) + Sum(b)
  {
    if |a| > 0 {
      var n := |a| - 1;
      assert Add(a, b)[..n] == Add(a[..n], b[..n]);
      SumOfAdd(a[..n], b[..n]);
    }
  }

  /** A dot product with a constant vector is that constant times the sum. */
  lemma {:induction false} DotConstRight(a: Vector, c: real)
    ensures Dot(a, Const(|a|, c)) == c * Sum(a)
  {
    if |a| > 0 {
      var n := |a| - 1;
      assert Const(|a|, c)[..n] == Const(n, c);
      DotConstRight(a[..n], c);
    }
  }

  lemma {:induction false} DotScaleLeft(c: real, a: Vector, b: Vector)
    requires |a| == |b|
    ensures Dot(Scale(c, a), b) == c * Dot(a, b)
  {
    if |a| > 0 {
      var n := |a| - 1;
      assert forall i :: 0 <= i < n ==> Scale(c, a)[..n][i] == Scale(c, a[..n])[i];
      assert Scale(c, a)[..n] == Scale(c, a[..n]);
      DotScaleLeft(c, a[..n], b[..n]);
    }
  }

  lemma {:induction false} DotAddLeft(a: Vector, b: Vector, c: Vector)
    requires |a| == |b| == |c|
    ensures Dot(Add(a, b), c) == Dot(a, c) + Dot(b, c)
  {
    if |a| > 0 {
      var n := |a| - 1;
      assert Add(a, b)[..n] == Add(a[..n], b[..n]);
      DotAddLeft(a[..n], b[..n], c[..n]);
    }
  }

  lemma {:induction false} SqrNormOfScale(c: real, a: Vector)
    ensures SqrNorm(Scale(c, a)) == c * c * SqrNorm(a)
  {
    DotScaleLeft(c, a, Scale(c, a));
    DotSymmetric(a, Scale(c, a));
    DotScaleLeft(c, a, a);
  }

  /** Sums of equal sequences agree; used to rewrite pointwise-equal comprehensions. */
  lemma {:induction false} SumPointwise(a: seq<real>, b: seq<real>)
    requires |a| == |b|
    requires forall i :: 0 <= i < |a| ==> a[i] == b[i]
    ensures Sum(a) == Sum(b)
  {
    assert a == b;
  }

  // ---------------------------------------------------------------------
  // Sequences of vectors (feature maps, matrices)
  // ---------------------------------------------------------------------

  /** Two sequences of vectors with matching row lengths. */
  predicate SameShape(a: seq<Vector>, b: seq<Vector>)
  {
    |a| == |b| && forall i :: 0 <= i < |a| ==> |a[i]| == |b[i]|
  }

  /** Frobenius inner product: the sum of the row-wise dot products. */
  function Inner(a: seq<Vector>, b: seq<Vector>): real
    requires SameShape(a, b)
  {
    if |a| == 0 then 0.0 else Inner(a[..|a| - 1], b[..|b| - 1]) + Dot(a[|a| - 1], b[|b| - 1])
  }

  /** Row-major concatenation of the rows. */
  function Flatten<T>(x: seq<seq<T>>): seq<T>
  {
    if |x| == 0 then [] else Flatten(x[..|x| - 1]) + x[|x| - 1]
  }

  lemma {:induction false} FlattenSameLength<T, U>(x: seq<seq<T>>, y: seq<seq<U>>)
    requires |x| == |y| && forall i :: 0 <= i < |x| ==> |x[i]| == |y[i]|
    ensures |Flatten(x)| == |Flatten(y)|
  {
    if |x| > 0 {
      FlattenSameLength(x[..|x| - 1], y[..|y| - 1]);
    }
  }

  /** Multiplying by a natural number keeps the order. */
  lemma {:induction false} MulMonotone(a: int, c: int, nv: nat)
    requires a <= c
    ensures a * nv <= c * nv
    decreases c - a
  {
    if a < c {
      MulMonotone(a, c - 1, nv);
      assert c * nv == (c - 1) * nv + nv;
    }
  }

  /** Rows of one width w: the flattening has |x|·w entries. */
  lemma {:induction false} FlattenUniformLength<T>(x: seq<seq<T>>, w: nat)
    requires forall i :: 0 <= i < |x| ==> |x[i]| == w
    ensures |Flatten(x)| == |x| * w
  {
    if |x| > 0 {
      FlattenUniformLength(x[..|x| - 1], w);
      assert (|x| - 1) * w + w == |x| * w;
    }
  }

  /** Rows of one width w: entry j of row i sits at position i·w + j. */
  lemma {:induction false} FlattenUniformAt<T>(x: seq<seq<T>>, w: nat, i: int, j: int)
    requires forall i :: 0 <= i < |x| ==> |x[i]| == w
    requires 0 <= i < |x| && 0 <= j < w
    ensures |Flatten(x)| == |x| * w
    ensures i * w + j < |Flatten(x)| && Flatten(x)[i * w + j] == x[i][j]
  {
    var n := |x|;
    var p := x[..n - 1];
    FlattenUniformLength(x, w);
    FlattenUniformLength(p, w);
    assert Flatten(x) == Flatten(p) + x[n - 1];
    if i < n - 1 {
      FlattenUniformAt(p, w, i, j);
      assert p[i] == x[i];
    } else {
      assert i * w + j == |Flatten(p)| + j;
    }
  }

  /** Every element of the flattening comes from some row, and conversely. */
  lemma {:induction false} FlattenMembers<T>(x: seq<seq<T>>)
    ensures forall e :: e in Flatten(x) <==> exists i :: 0 <= i < |x| && e in x[i]
  {
    if |x| > 0 {
      FlattenMembers(x[..|x| - 1]);
      forall e ensures e in Flatten(x) <==> exists i :: 0 <= i < |x| && e in x[i] {
        if e in x[|x| - 1] {
        } else if e in Flatten(x[..|x| - 1]) {
          var i :| 0 <= i < |x| - 1 && e in x[..|x| - 1][i];
          assert e in x[i];
        } else {
          forall i | 0 <= i < |x|
            ensures e !in x[i]
          {
            if i < |x| - 1 {
              assert x[..|x| - 1][i] == x[i];
            }
          }
        }
      }
    }
  }

  /** Every point shifted by t. */
  function Translate(points: seq<Vector>, t: Vector): (r: seq<Vector>)
    requires IsCloud(points, |t|)
    ensures |r| == |points| && IsCloud(r, |t|)
  {
    seq(|points|, i requires 0 <= i < |points| => Add(points[i], t))
  }

  /** Largest entry of a non-empty sequence (`torch.max`). */
  function MaxOf(s: seq<real>): (m: real)
    requires |s| > 0
    ensures forall i :: 0 <= i < |s| ==> s[i] <= m
    ensures exists i :: 0 <= i < |s| && s[i] == m
  {
    if |s| == 1 then s[0]
    else
      var p := MaxOf(s[..|s| - 1]);
      assert forall i :: 0 <= i < |s| - 1 ==> s[..|s| - 1][i] == s[i];
      if s[|s| - 1] > p then s[|s| - 1] else p
  }
}
