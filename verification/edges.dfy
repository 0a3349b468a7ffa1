/**
 * Unique undirected edges of a triangle mesh (geo_operations.py
 * `edge_vertex_indices`): the three cyclic edges of every face, each with
 * its endpoints sorted, deduplicated and listed in lexicographic order.
 */
module Edges {

  /** An undirected edge stored with its smaller endpoint first. */
  datatype Edge = Edge(lo: int, hi: int)

  /** `sort(..., dim=-1)` on one pair. */
  function SortedPair(a: int, b: int): (e: Edge)
    ensures e.lo <= e.hi
    ensures (e.lo == a && e.hi == b) || (e.lo == b && e.hi == a)
  {
    if a <= b then Edge(a, b) else Edge(b, a)
  }

  /** Row order of `unique(dim=0)`: lexicographic on (lo, hi). */
  predicate LexLess(e: Edge, e': Edge)
  {
    e.lo < e'.lo || (e.lo == e'.lo && e.hi < e'.hi)
  }

  predicate StrictlySorted(s: seq<Edge>)
  {
    forall i, j :: 0 <= i < j < |s| ==> LexLess(s[i], s[j])
  }

  /** Every face is a triangle (`F[:, [1, 2, 0]]` is stacked against `F`). */
  predicate IsTriangles(faces: seq<seq<int>>)
  {
    forall f :: 0 <= f < |faces| ==> |faces[f]| == 3
  }

  /** The edge leaving corner k of face f: (F[f][k], F[f][(k+1) % 3]), sorted. */
  function FaceEdge(faces: seq<seq<int>>, f: int, k: int): Edge
    requires IsTriangles(faces) && 0 <= f < |faces| && 0 <= k < 3
  {
    SortedPair(faces[f][k], faces[f][(k + 1) % 3])
  }

  /** The 3F sorted edges before deduplication, row f·3 + k for corner k of face f. */
  function RawEdges(faces: seq<seq<int>>): (r: seq<Edge>)
    requires IsTriangles(faces)
    ensures |r| == 3 * |faces|
  {
    seq(3 * |faces|, q requires 0 <= q < 3 * |faces| => FaceEdge(faces, q / 3, q % 3))
  }

  /** Insert an edge into a strictly sorted list unless it is already there. */
  function Insert(s: seq<Edge>, e: Edge): (r: seq<Edge>)
    requires StrictlySorted(s)
    ensures StrictlySorted(r)
    ensures forall x :: x in r <==> x in s || x == e
  {
    if |s| == 0 then [e]
    else if e == s[0] then s
    else if LexLess(e, s[0]) then [e] + s
    else
      var rest := Insert(s[1..], e);
      assert forall x :: x in s <==> x == s[0] || x in s[1..];
      assert LexLess(s[0], e);
      assert forall x :: x in s[1..] ==> LexLess(s[0], x);
      assert forall j :: 0 <= j < |rest| ==> LexLess(s[0], rest[j]) by {
        forall j | 0 <= j < |rest|
          ensures LexLess(s[0], rest[j])
        {
          assert rest[j] in rest;
        }
      }
      [s[0]] + rest
  }

  /** `unique(dim=0)`: the distinct rows in lexicographic order. */
  function Unique(s: seq<Edge>): (r: seq<Edge>)
    ensures StrictlySorted(r)
    ensures forall x :: x in r <==> x in s
  {
    if |s| == 0 then []
    else
      var p := s[..|s| - 1];
      assert forall x :: x in s <==> x in p || x == s[|s| - 1];
      Insert(Unique(p), s[|s| - 1])
  }

  /** `edge_vertex_indices`. */
  function EdgeVertexIndices(faces: seq<seq<int>>): seq<Edge>
    requires IsTriangles(faces)
  {
    Unique(RawEdges(faces))
  }

  /** The output lists each undirected face edge exactly once: its rows are
      sorted pairs in strictly increasing lexicographic order (so distinct),
      every cyclic face edge appears, and every row is one of them. */
  lemma {:induction false} EdgeVertexIndicesCorrect(faces: seq<seq<int>>)
    requires IsTriangles(faces)
    ensures var es := EdgeVertexIndices(faces);
      && StrictlySorted(es)
      && (forall i :: 0 <= i < |es| ==> es[i].lo <= es[i].hi)
      && (forall f, k :: 0 <= f < |faces| && 0 <= k < 3 ==> FaceEdge(faces, f, k) in es)
  {
    var raw := RawEdges(faces);
    var es := EdgeVertexIndices(faces);
    forall f, k | 0 <= f < |faces| && 0 <= k < 3
      ensures FaceEdge(faces, f, k) in es
    {
      var q := 3 * f + k;
      assert q / 3 == f && q % 3 == k;
      assert raw[q] == FaceEdge(faces, f, k);
    }
    forall i | 0 <= i < |es|
      ensures es[i].lo <= es[i].hi
    {
      assert es[i] in raw;
    }
  }

  /** Every output row is the sorted edge of some corner of some face. */
  lemma {:induction false} EdgeOrigin(faces: seq<seq<int>>, i: int) returns (f: int, k: int)
    requires IsTriangles(faces) && 0 <= i < |EdgeVertexIndices(faces)|
    ensures 0 <= f < |faces| && 0 <= k < 3
    ensures EdgeVertexIndices(faces)[i] == FaceEdge(faces, f, k)
  {
    var raw := RawEdges(faces);
    var e := EdgeVertexIndices(faces)[i];
    assert e in raw;
    var q :| 0 <= q < |raw| && raw[q] == e;
    f, k := q / 3, q % 3;
  }
}
