# pytorch_points network operations — a Dafny model

This project models the discrete and algebraic layer of two files of the
pytorch_points library: `network/operations.py` and
`network/geo_operations.py`. Tensor kernels work on floats. Here every float
is an exact `real` and every index is an `int`.

The modelled operations, grouped by Dafny module:

- **Vectors**: `sqrNorm`, `dot_product` and `cross_product_2D`, plus the sums
  and elementwise operations the rest is built from.
- **GatherScatter**: the index pair that everything else rests on.
  - `ScatterAdd` / `scatter_add`: fill the output, then accumulate `src` at
    `idx`. The width is `out_size`, or `max(idx) + 1` when `out_size` is
    omitted.
  - The `ScatterAdd` backward, which is a gather.
  - `GatherFunction` and its zero-initialised, accumulating backward.
- **Grouping**: `GroupingOperation`, a gather over a rank-4 index grid, and
  its backward. `QueryAndGroup.forward` is modelled from centre-relative
  offsets, channel concatenation and the "no features and no xyz" assertion.
- **Knn**: `__batch_distance_matrix_general` and `group_knn`.
  - The unique-mode marking follows `np.unique(return_index=True)`, which
    keeps the lowest index of each distinct point.
  - Marked duplicates are penalised by `max(D)`.
  - `topk` is a selection method proved to meet the "k smallest" specification.
- **Sparse**: dense stand-ins for the sparse matrices. It covers coordinate
  (triplet) assembly with duplicates summed, transpose, diagonal matrices,
  row sums and products.
- **Laplacian**: `UniformLaplacian` and `CotLaplacian`.
  - Each batch element's faces are offset into one stacked matrix.
  - The cyclic edges or the cotangent corner weights are assembled.
  - The matrix is symmetrised and completed on the diagonal.
  - Each module is a small state machine: it is empty until its first
    `forward` caches L.
  - The backward of `_CotLaplacianBatchLx` multiplies by L.
- **Edges**: `edge_vertex_indices`, the unique sorted edges of a triangle mesh.
- **Mvc**: the masking, clamping, accumulation and normalisation stages of
  `mean_value_coordinates_3D` and `mean_value_coordinates`.
  - The trigonometric and norm quantities are real inputs: the 3D angles,
    `si`, the raw 3D face weights, and the distances `dj`, `ri` and `dL`.
  - The 2D `Ai`, `Di`, half-angle tangents and raw weights are computed from
    the point-to-vertex vectors.
- **PointOps**: `normalize_point_batch` and `pointUniformLaplacian` with given
  neighbour indices.

Most operations are stated for one batch element, because the batch axis only
repeats them. The exceptions:
- the Laplacian, whose batch elements share one stacked matrix;
- `group_knn`, whose duplicate penalty is the maximum over the whole batch.

`Result` and `Option` (module Wrappers) carry the error paths: failed
assertions, out-of-range indices, missing inputs.

## Model

| member | source | states |
|---|---|---|
| Vectors.SqrNorm | pytorch_points/network/operations.py:454-456 | the squared norm is never negative |
| Vectors.DotSymmetric | pytorch_points/network/operations.py:459-460 | `dot_product(a, b) == dot_product(b, a)` |
| Vectors.Cross2DAntisymmetric | pytorch_points/network/operations.py:462-465 | swapping the arguments negates the 2D cross product, and it is zero on equal arguments |
| Vectors.SqrDistanceExpansion | pytorch_points/network/operations.py:167-170 | over the reals, `\|a\|² − 2a·b + \|b\|²` equals `\|a − b\|²` |
| GatherScatter.ScatterAddChecked | pytorch_points/network/operations.py:467-490 | without `out_size`, an empty index is an error and the width is `max(idx) + 1`; with it, the width is `out_size`. It succeeds exactly when every index is non-negative and, with `out_size`, below it. Entry j is `fill` plus the sum of the `src` entries whose index is j |
| GatherScatter.ScatterAddPositions | pytorch_points/network/operations.py:469-475 | each output entry of the accumulation is `fill` plus the contributions addressed to it |
| GatherScatter.ScatterAddTotal | pytorch_points/network/operations.py:469-475 | the output total is `width · fill + Σ src`: nothing is lost or duplicated |
| GatherScatter.ScatterGatherAdjoint | pytorch_points/network/operations.py:477-481 | the backward (gather of the output gradient at `idx`) is the adjoint of the zero-filled scatter: `⟨g, scatter(src)⟩ = ⟨gather(g), src⟩`. The backward returns no gradient for `idx` |
| GatherScatter.MaxIndexBounds | pytorch_points/network/operations.py:486-489 | `max(idx)` bounds every index and is attained, so the default width covers every index |
| GatherScatter.GatherBackward | pytorch_points/network/operations.py:261-272 | the backward starts from N zeros; entry j is the sum of the gradients of every output position that read j |
| GatherScatter.GatherAdjoint | pytorch_points/network/operations.py:228-272 | the gather backward is the adjoint of the gather forward: `⟨g, gather(f)⟩ = ⟨backward(g), f⟩` |
| GatherScatter.GatherBackwardRepeated | pytorch_points/network/operations.py:261-272 | an index read at exactly two positions receives the sum of their two gradients |
| GatherScatter.GatherFeaturesAdjoint | pytorch_points/network/operations.py:228-272 | the adjoint identity holds channel by channel for a (C, N) feature map gathered to (C, npoint) |
| Grouping.GroupAdjoint | pytorch_points/network/operations.py:307-346 | the grouping backward (accumulating over the (npoint, nsample) grid into N points) is the adjoint of the rank-4 gather forward |
| Grouping.QueryAndGroup | pytorch_points/network/operations.py:383-403 | it fails exactly when there are no features and xyz is not used. Otherwise there are 3 + C channels with features and xyz, C with features only, and 3 without features. Each xyz channel entry is `xyz[idx[m][s]] − new_xyz[m]`, and each feature channel entry is `features[c][idx[m][s]]` |
| Grouping.QueryAndGroupTranslationInvariant | pytorch_points/network/operations.py:385-387 | shifting the cloud and the centres by the same vector leaves the grouped output unchanged |
| Knn.DistanceMatrixIsSquaredDistance | pytorch_points/network/operations.py:160-171 | every entry `D[i][j]` equals `sqrNorm(A[i] − B[j])`, and so is non-negative |
| Knn.RepresentativeExists | pytorch_points/network/operations.py:201-209 | every point has an unmarked representative with the same coordinates, namely the first one |
| Knn.DuplicateMaskKeepsOnePerTuple | pytorch_points/network/operations.py:201-209 | two unmarked indices never share coordinates, so exactly one index per distinct point is unmarked |
| Knn.PenaliseEffect | pytorch_points/network/operations.py:213 | unmarked (first-occurrence) entries keep their distance; marked entries gain `max(D)` |
| Knn.TopK | pytorch_points/network/operations.py:216 | returns k distinct in-range indices whose distances equal the row entries there, in non-decreasing order, each no larger than any entry left out |
| Knn.GroupKnn | pytorch_points/network/operations.py:174-225 | fails exactly when `k > N`, or in unique mode when the distance tensor is empty. Every (batch, query) row holds the k smallest entries of the (penalised) distance row. Each neighbour is the point at its returned index |
| Sparse.AssembleEntries | pytorch_points/network/geo_operations.py:193 | each cell of the assembled coordinate-format matrix is the sum of the values of the triplets that address it |
| Sparse.SymmetrizeIsSymmetric | pytorch_points/network/geo_operations.py:194 | `L.t() + L` is symmetric, with entry (i, j) equal to `L[j][i] + L[i][j]` |
| Sparse.ZeroRowSumsKillConstants | pytorch_points/network/geo_operations.py:196-198 | a matrix whose rows sum to zero sends every constant field to zero |
| Sparse.TransposeAdjoint | pytorch_points/network/geo_operations.py:291-305 | `g · (A x) == (Aᵀ g) · x` for every m × n matrix A |
| Sparse.SymmetricAdjoint | pytorch_points/network/geo_operations.py:291-305 | for a symmetric A, `g · (A x) == (A g) · x` |
| Laplacian.UniformTripletFacts | pytorch_points/network/geo_operations.py:184-193 | the offset cyclic edge triplets all carry −1, address the stacked matrix when the offset indices fit, and join two rows of the same mesh when the faces use local indices |
| Laplacian.UniformMatrixValid | pytorch_points/network/geo_operations.py:193-198 | the uniform L is symmetric with zero row sums, and its diagonal Lii is non-negative because every off-diagonal weight is non-positive |
| Laplacian.UniformBlockDiagonal | pytorch_points/network/geo_operations.py:184-189 | with each mesh's indices in [0, nv), no entry of L couples two batch elements |
| Laplacian.UniformApplyConstant | pytorch_points/network/geo_operations.py:210-211 | a constant vertex field has zero uniform Laplacian |
| Laplacian.UniformTripletAt | pytorch_points/network/geo_operations.py:184-193 | with F faces per mesh, the edge leaving corner k of face f of mesh b is the triplet at position `b·(F·deg) + f·deg + k`, joining the offset corners k and k+1 with weight −1, and there are `B·F·deg` triplets: every face edge is placed exactly once |
| Laplacian.UniformForward | pytorch_points/network/geo_operations.py:202-213 | the first call builds and caches L, failing on out-of-range faces or faces of degree 0. Later calls reuse the cache unchanged and fail when the vertex count does not match it. The result is `L·V / (Lii + 1e-12)`, row by row |
| Laplacian.CotTripletOrigin | pytorch_points/network/geo_operations.py:247-248 | the weight of corner k of face f is placed at the opposite edge `(F[f][(k+1)%3], F[f][(k+2)%3])` of the stacked matrix |
| Laplacian.CotTripletAt | pytorch_points/network/geo_operations.py:243-252 | with F triangles per mesh, the weight of corner k of face f of mesh b is the triplet at position `b·(F·3) + f·3 + k`, placed at the offset opposite edge, and there are `B·F·3` triplets: every corner weight is placed exactly once |
| Laplacian.CotMatrixValid | pytorch_points/network/geo_operations.py:252-256 | after `L + Lᵀ − diag(rowsum)` the cotangent Laplacian is symmetric with zero row sums |
| Laplacian.CotBlockDiagonal | pytorch_points/network/geo_operations.py:243-248 | with each mesh's indices in [0, nv), no entry of the cotangent Laplacian couples two batch elements |
| Laplacian.CotForward | pytorch_points/network/geo_operations.py:260-278 | the first call needs the faces and fails without them (the assertion). It also fails exactly when some face index lies outside [0, nv) of its own mesh, because `cotangent()` gathers the corners from that mesh's vertices (lines 319-324). Otherwise it caches an L with no entry coupling two meshes. Later calls reuse the cache and fail when the vertex count does not match it. The result is `L·V` |
| Laplacian.CotBackwardAdjoint | pytorch_points/network/geo_operations.py:281-305 | because L is symmetric, the backward `L·g` is the true vector–Jacobian product: per coordinate, `⟨g, L x⟩ = ⟨L g, x⟩` |
| Edges.EdgeVertexIndicesCorrect | pytorch_points/network/geo_operations.py:528-541 | the output rows are sorted pairs (`a ≤ b`) in strictly increasing lexicographic order, hence distinct, and every cyclic face edge appears among them |
| Edges.EdgeOrigin | pytorch_points/network/geo_operations.py:528-541 | every output row is the sorted edge of some corner of some face |
| Mvc.ClampCases | pytorch_points/network/geo_operations.py:370-372 | values ≥ bound become `bound − eps`, values ≤ −bound become `−(bound − eps)`, and values strictly inside are unchanged (bound 2 for `li`, 1 for `ci`) |
| Mvc.ClampIdempotent | pytorch_points/network/geo_operations.py:385-387 | clamping a clamped value changes nothing |
| Mvc.FaceWeights | pytorch_points/network/geo_operations.py:419-429 | a face containing the point takes its in-plane weights. Otherwise its weights are zero if any face contains the point or if the face is coplanar (some `\|si\| ≤ 1e-5`). Otherwise they are the raw weights |
| Mvc.VertexWeights | pytorch_points/network/geo_operations.py:431-432 | the accumulation onto the N vertices succeeds exactly when every face index is in [0, N). Vertex j receives the sum of the weights of every corner at j |
| Mvc.VertexOverride | pytorch_points/network/geo_operations.py:434-438 | when the point is within 1e-8 of some vertex the row is 1 at those vertices and 0 elsewhere; otherwise it is unchanged |
| Mvc.NormalizeRow | pytorch_points/network/geo_operations.py:440-444 | a row with non-zero sum is divided by it: it then sums to 1 and is proportional to the input. A zero-sum row stays as it is |
| Mvc.NearVertexCoordinates | pytorch_points/network/geo_operations.py:434-444 | at a vertex the normalised coordinates sum to 1 and vanish at every vertex that is not near |
| Mvc.MeanValueCoordinates3D | pytorch_points/network/geo_operations.py:346-449 | fails exactly on an out-of-range face index. The row has one entry per vertex. At a vertex it is a partition of unity supported on the near vertices |
| Mvc.MeanValueCoordinates3DPartition | pytorch_points/network/geo_operations.py:431-444 | away from the vertices the coordinates are the accumulated face weights divided by their total when that total is non-zero, and the unchanged weights when it is zero |
| Mvc.VertexWeightsWidthCounterexample | pytorch_points/network/geo_operations.py:432 | as written, faces `[[0,1,2]]` over 4 vertices accumulate into 3 entries; with the width fixed to N they accumulate into 4 |
| Mvc.ExactEdgeOnSegment | pytorch_points/network/geo_operations.py:479-491 | an edge with `Ai = 0` and `Di < 0` is flagged, and the point lies strictly inside it: it is `(1 − t)·p_i + t·p_{i+1}` for some t in (0, 1) |
| Mvc.SegmentPointOnEdge | pytorch_points/network/geo_operations.py:479-491 | conversely, a point strictly inside a non-degenerate edge gives `Ai = 0` and `Di < 0`, so the edge is flagged |
| Mvc.ApplyEdgeMask | pytorch_points/network/geo_operations.py:493-500 | when no edge is flagged the weights are unchanged. When some edge is flagged, every vertex that neither starts nor ends a flagged edge gets weight 0 |
| Mvc.SingleEdgeWeights | pytorch_points/network/geo_operations.py:493-500 | with exactly edge i flagged, entry i is `1 − ri/(dLi + 1e-10)`, entry i+1 is one minus that, and every other entry is zero |
| Mvc.OnEdgePartition | pytorch_points/network/geo_operations.py:489-517 | a point on exactly one edge and near no vertex gets the edge weights `v, 1 − v` at the edge's two ends. They already sum to 1, so normalising leaves them unchanged |
| Mvc.MeanValueCoordinates2D | pytorch_points/network/geo_operations.py:511-517 | when the weights have a non-zero sum, the 2D coordinates sum to 1 and each is its weight divided by that sum. When the sum is zero they equal the weights |
| Mvc.NormalizeRowAsWritten | pytorch_points/network/geo_operations.py:512-516 | when no row of the batch sums to zero, the normalisation as written agrees with the intended one |
| Mvc.NormalizeAsWrittenCounterexample | pytorch_points/network/geo_operations.py:514-516 | as written, the row `[1, 3]` in a batch that also holds a zero-sum row becomes `[1, 1]`; the intended row is `[1/4, 3/4]` |
| PointOps.MaxSqrNormIsMax | pytorch_points/network/geo_operations.py:80-81 | the maximum of the squared norms bounds every point and is attained by one of them |
| PointOps.NormalizePointBatch | pytorch_points/network/geo_operations.py:65-83 | an empty cloud and a zero furthest distance are errors. Otherwise the cloud keeps its shape, the centroid is the column mean, and the scale is the furthest distance |
| PointOps.CentredMeanZero | pytorch_points/network/geo_operations.py:78-79 | after subtracting the centroid every coordinate column sums to zero |
| PointOps.NormalizeRoundTrip | pytorch_points/network/geo_operations.py:78-83 | `pc_normalized · furthest + centroid` reconstructs every input coordinate exactly |
| PointOps.NormalizedInUnitBall | pytorch_points/network/geo_operations.py:80-83 | every normalised point has squared norm at most 1 |
| PointOps.PointUniformLaplacian | pytorch_points/network/geo_operations.py:157-167 | fails exactly when some neighbour index is out of range, or when there are points but K = 0. On success the output has one vector of the cloud's dimension per point |
| PointOps.PointLaplacianIsMeanDifference | pytorch_points/network/geo_operations.py:157-166 | each coordinate of the Laplacian is the mean over the K neighbours of (point − neighbour) |
| PointOps.PointLaplacianTranslationInvariant | pytorch_points/network/geo_operations.py:157-166 | translating the whole cloud leaves its Laplacian unchanged |
| PointOps.PointLaplacianOfConstantCloud | pytorch_points/network/geo_operations.py:157-166 | a cloud of identical points has zero Laplacian everywhere |

## Left out

- The faiss path is not modelled: `search_index_pytorch`, `KNN`, `faiss_knn`, and the `knn_idx is None` branch of `pointUniformLaplacian`. It calls an external GPU search library through raw memory addresses.
- Kernels whose bodies are native code are not modelled: furthest point sampling, `ball_query`, `gather_forward`/`gather_backward`, `group_points`/`group_points_grad` and batched SVD. Their outputs are inputs here. Gather and grouping are modelled by their documented index semantics.
- `batch_normals` is not modelled, because it rests on SVD.
- The floating-point geometry is not modelled:
  - the trigonometry of both mean-value-coordinate functions (`asin`, `sin`, the sign of `det`, the raw weight formula);
  - `cotangent()`, `compute_face_normals_and_areas`, `get_edge_lengths`, `get_normals` and `dihedral_angle`.

  Angles, weights, distances and the cotangent corner weights are real parameters instead.
- `normalize_point_batch_to_box` is not modelled: it unpacks the scalar result of `max()` and would raise.
- `channel_shuffle`, `jitter_perturbation_point_cloud` and `normalize` are not modelled. `channel_shuffle` divides channels by float division; `jitter_perturbation_point_cloud` is random; `normalize` is a float library call.
- Gradient hooks, `saved_variables`, `check_values` assertions, `print`, device and numpy conversions are left out. So are the `detach` tricks: the clamp is modelled by value only.
- The imports are not modelled. `geo_operations.py` uses `np`, `sparse` and `cross_product_2D` without importing them (lines 1-5). The model treats them as the operations they name.
- `edge_vertex_indices` appears twice in `geo_operations.py`, at lines 520-541 and 576-597, with the same body. One model serves both.
- Edges.EdgeVertexIndices: takes triangles only, as the source does. For faces with L ≠ 3 columns, `torch.stack([F, F[:, [1, 2, 0]]])` stacks tensors of different widths and raises.
- Layout flags (`NCHW`) and tensor reshapes are not modelled: one channel-last layout is used throughout.
- PointOps.NormalizePointBatch: takes the furthest distance `fd` as an input characterised by `fd ≥ 0` and `fd² = max ‖p − centroid‖²`, because the square root is not modelled. The source divides by zero for a cloud of identical points; the model reports it as the error `ZeroScale`.
- PointOps.PointUniformLaplacian: an empty neighbour table on a non-empty cloud divides by K = 0 in the source; the model reports it as an error. Out-of-range neighbour indices, which `torch.gather` refuses, are an error too.
- Laplacian.UniformForward: `1e-12` is added to `Lii` as an exact real, and the division is exact.
- Laplacian.UniformForward: needs one faces tensor per mesh. The source also accepts a single faces tensor shared by the whole batch, broadcasting it against the per-mesh offsets (lines 184-185); that broadcast is not modelled.
- Laplacian.CotForward: needs one faces tensor per mesh. With one faces tensor for B > 1 meshes the source computes one mesh's cotangents against B meshes' indices (lines 239-248), and building the matrix fails; the model excludes that input instead of reporting the error.
- Knn.GroupKnn: an empty distance tensor makes `torch.max(D)` raise in unique mode; the model returns an error for it. Ties in `topk` are broken towards the lower index, where torch leaves the order unspecified. The specification only asks for some set of k smallest entries.
- Mvc.Clamp: the gradient path of the clamp, which keeps the gradient of the unclamped value through `detach`, is not modelled.
- Mvc.MeanValueCoordinates3D and Mvc.MeanValueCoordinates2D: the normalising division is exact real division. The norms `ri`, `dL` and `dj` and the 3D face terms are inputs, so `normalize`, `torch.norm` and the trigonometry are not modelled. The `1e-10` guards of the 2D weights are kept as exact reals.
- NaN and infinity are not modelled: every expression that could produce them is either an error or excluded by the inputs' preconditions.

## Findings

| source | as written | input that shows it | evidently intended | confidence | as-written member | corrected member |
|---|---|---|---|---|---|---|
| pytorch_points/network/geo_operations.py:514-516 | once any row of the batch sums to zero, `sumW` becomes `where(sumW == 0, 1, w)`. Every other row is then divided by its own weights entry by entry | weights `[1, 3]` in a batch that also holds a zero-sum row become `[1, 1]`, which sums to 2 (a zero weight would give 0/0) | `where(sumW == 0, 1, sumW)`: divide each row by its own total, leaving zero-sum rows as they are | not executed | Mvc.NormalizeAsWrittenCounterexample | Mvc.MeanValueCoordinates2D |
| pytorch_points/network/geo_operations.py:432 | `scatter_add` is called without `out_size`, so the vertex weights have width `max(face index) + 1` | a mesh whose highest-numbered vertex is in no face: faces `[[0, 1, 2]]` over 4 vertices give 3 weights against 4 vertex distances at line 435 | width N, the number of vertices | not executed | Mvc.VertexWeightsWidthCounterexample | Mvc.VertexWeights |
