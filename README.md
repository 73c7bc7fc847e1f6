# 4D visibility and clipping core, modelled in Dafny

This project models the geometric core of a 3D/4D wireframe game engine. It has a Rust implementation and an older Python one. The core is the pipeline that decides which parts of each wireframe line are hidden behind other shapes:

- **Boundary planes.** A convex shape seen from the camera has a set of boundary planes: a silhouette plane through the camera for every pair of adjacent faces whose visibility differs, and the plane of every visible face.
- **Clipping.** A segment is clipped against one such set (`clip_line_convex`) into 0, 1 or 2 visible pieces. The pieces are threaded through the sets of every occluder (`clip_line`).
- **Near-plane clipping.** `clip_line_plane` clips against the near plane, and `clip_line_cube` against a box.
- **Draw order.** Pairs of shapes are ordered by bounding-ball separation and by static separators (`calc_in_front_pair`).

Around the pipeline sit the helpers it uses or that share its data:

- vectors, lines and planes, line/plane and line/sphere intersection;
- faces and their vertex lists, and subface adjacency of convex shapes;
- `Scaling` and `Transform`;
- collision against static shapes, and the spatial hash with its cell arithmetic;
- the cursor-based line `Buffer`;
- locked-axis input handling, and the save-file name parsing.

One Dafny module per source file:

| Module | Models |
|---|---|
| `Vectors`, `Matrices` | the vector and matrix operations |
| `Utils` | `partial_max` / `partial_min` |
| `Itertools` | the `unique()` adaptor |
| `Geometry` | lines, planes and intersections |
| `Faces` | faces |
| `ConvexShapes` | subfaces and the convex boundary set |
| `Boundaries` | the boundary set used by the renderer |
| `Clipping` | the Rust clipping |
| `InFront` | separation and the in-front bookkeeping |
| `PyClipping` | the Python clipping |
| `Transforms` | scaling and transforms |
| `Cameras` | the player camera |
| `Collide` | collision |
| `SpatialHashes` | the spatial hash |
| `LineBuffer` | the line buffer |
| `InputToTransform` | input handling |
| `SaveLoad` | the save dialog |

The form of the model follows the source:

- **Pure code** is modelled as datatypes, functions and lemmas.
- **Loops** are methods proved equal to a specification function:
  - `clip_line_convex`, Python `clip_line`, `clip_line_cube`, `calc_vertis` and `calc_subfaces`;
  - `get_dcoords_dcells`, `calc_bbox` and the spatial-hash multiplier;
  - `set_axes`, `clear_components` and `apply_locked_axes`.
- **State updated in place** is modelled as classes:
  - `Transform`, `MoveNext`, `ShapeClipState`, `SpatialHash` and `SpatialHashSet`;
  - `Buffer`, and the scene configuration.

`Field` is modelled as `real`, and a vector as `seq<real>`.

## Model

| member | source | states |
|---|---|---|
| `Utils.PartialMaxBy` | src/utils.rs:1-6 | the result is None exactly when the input is empty |
| `Utils.PartialMaxByIsFirstMaximum` | src/utils.rs:1-6 | the result is the element at an index holding a maximal key, the earliest such index on ties |
| `Utils.FirstMaximumExtend` | src/utils.rs:5 | one more element moves the first maximum to it only when its key is strictly greater |
| `Utils.PartialMaxIsMaximum` | src/utils.rs:1-6 | on a non-empty list the result is a member and no member is larger |
| `Utils.PartialMinBy` | src/utils.rs:8-13 | the result is None exactly when the input is empty |
| `Utils.PartialMinByIsFirstMinimum` | src/utils.rs:8-13 | the result is the element at an index holding a minimal key, the earliest such index on ties |
| `Utils.FirstMinimumExtend` | src/utils.rs:12 | one more element moves the first minimum to it only when its key is strictly smaller |
| `Utils.PartialMinIsMinimum` | src/utils.rs:8-13 | on a non-empty list the result is a member and no member is smaller |
| `Itertools.Unique` | src/geometry/shape/face.rs:69-77 | the same members as the input, each once, and no longer than the input |
| `Itertools.UniqueOrder` | src/geometry/shape/face.rs:69-77 | kept elements appear in the order of their first occurrence in the input |
| `Itertools.UniqueInOrder` | src/geometry/shape/face.rs:69-77 | the loop that keeps a value only when not seen before yields exactly `Unique` |
| `Vectors.IsCloseSymmetric` | src/vector.rs:23-25 | `is_close(a, b)` holds iff a - b lies strictly within EPSILON of 0, and it is symmetric |
| `Vectors.ScalarLinterpEnds` | src/vector.rs:26-28 | interpolation at 0 gives a and at 1 gives b |
| `Vectors.ScalarLinterpHits` | src/vector.rs:26-28 | for a ≠ b, interpolation at (a - c)/(a - b) gives c: the crossing parameter every clip uses |
| `Vectors.LinterpAt` | src/vector.rs:86-88 | each component of `linterp(v1, v2, x)` is the scalar interpolation of the components |
| `Vectors.LinterpEnds` | src/vector.rs:86-88 | `linterp` at 0 is v1 and at 1 is v2 |
| `Vectors.DotLinterp` | src/vector.rs:86-88 | the dot product with a fixed vector commutes with interpolation |
| `Vectors.DotSymmetric` | src/vector/vec3.rs:108-110 | the dot product is symmetric |
| `Vectors.DotAdd` | src/vector/vec3.rs:108-110 | the dot product distributes over addition |
| `Vectors.DotSub` | src/vector/vec3.rs:108-110 | the dot product distributes over subtraction |
| `Vectors.DotScale` | src/vector/vec3.rs:108-110 | scaling a vector scales its dot products |
| `Vectors.DotDiv` | src/vector/vec3.rs:108-110 | dividing a vector divides its dot products |
| `Vectors.DotSelfNonnegative` | src/vector.rs:61-63 | the squared norm is never negative |
| `Vectors.Linspace` | src/vector.rs:29-31 | yields exactly n values |
| `Vectors.LinspaceEnds` | src/vector.rs:29-31 | the first value is min and the last is max, both included |
| `Vectors.LinspaceNinePoints` | src/vector.rs:291-296 | nine points over [-2.5, 2.5] are the values the source's test lists |
| `Vectors.Barycenter` | src/vector.rs:102-105 | the barycenter has the dimension of the vertices |
| `Vectors.BarycenterComponent` | src/vector.rs:102-105 | each component is the average of that component over the list |
| `Vectors.BarycenterOnPlane` | src/vector.rs:297-320 | the barycenter of points on a plane lies on that plane |
| `Vectors.Norm` | src/vector.rs:64-66 | the norm is non-negative and its square is the dot product of v with itself |
| `Vectors.Normalize` | src/vector.rs:68-70 | a non-zero vector normalises to unit length in the same dimension |
| `Matrices.MatMulVec` | src/vector/mat3_tuple2.rs:107-117 | applying a matrix product equals applying the two factors in turn |
| `Matrices.MatVecIdentity` | src/vector/mat3_tuple2.rs:51-56 | the identity matrix maps every vector to itself |
| `Matrices.MatMulIdentity` | src/vector/mat3_tuple2.rs:101-117 | the identity is a left and a right unit of matrix multiplication |
| `Geometry.MapCompose` | src/geometry.rs:20-25 | `map` applies f to each endpoint in order, composes, and the identity map is the identity |
| `Geometry.FromNormalAndPoint` | src/geometry.rs:52-57 | the plane keeps the normal and passes through the point |
| `Geometry.FromNormalAndPointDistance` | src/geometry.rs:52-57 | the signed distance of q is the normal dotted with q minus the point |
| `Geometry.SignedDistanceLinterp` | src/geometry.rs:74-76 | the signed distance of a point along a segment interpolates the endpoint distances |
| `Geometry.PointNormalDistanceIsPartialMax` | src/geometry.rs:78-92 | `point_normal_distance` is `partial_max` of the planes keyed by signed distance |
| `Geometry.PointNormalDistanceClosest` | src/geometry.rs:78-92 | None iff there are no planes; otherwise the first plane of largest signed distance, with that distance |
| `Geometry.LinePlaneIntersectOnPlane` | src/geometry.rs:108-128 | a returned point lies on the segment and on the plane |
| `Geometry.LinePlaneIntersectFindsCrossing` | src/geometry.rs:108-128 | a segment whose endpoints are on opposite sides, with distinct projections not both near 0, yields a point |
| `Geometry.SphereRootsDegenerate` | src/geometry.rs:199-206 | for a near-zero segment the result is the whole range [0, 1] if the start is inside the sphere, else None |
| `Geometry.SphereRootsShape` | src/geometry.rs:207-222 | otherwise the discriminant is non-negative and the roots are (-w ∓ sqrt(disc))/d |
| `Geometry.SphereRootsOnSphere` | src/geometry.rs:190-222 | the two roots are ordered and both parameters land on the sphere |
| `Geometry.SphereLineIntersectFilters` | src/geometry.rs:136-147 | a result exists iff roots exist and they are not both below 0 nor both above 1; its endpoints lie on the sphere |
| `Faces.EndpointsMembers` | src/geometry/shape/face.rs:69-77 | the endpoint list holds exactly the two vertices of each listed edge |
| `Faces.CalcVertis` | src/geometry/shape/face.rs:69-77 | the loop returns the endpoints without repeats, in first-occurrence order |
| `Faces.CalcVertisContents` | src/geometry/shape/face.rs:69-77 | the vertex list has no duplicates and holds exactly the endpoints of the face's edges |
| `Faces.VertisInRange` | src/geometry/shape/face.rs:69-77 | for a valid shape, every face vertex index is in range, and a face with edges has vertices |
| `Faces.NewFace` | src/geometry/shape/face.rs:48-68 | center is the barycenter of the face's vertices; normal is unit length; the plane passes through the center |
| `Faces.FacePlaneThroughVertices` | src/geometry/shape/face.rs:58-62 | when the vertices are coplanar along the normal, the face plane passes through every vertex |
| `ConvexShapes.CountCommonIsIntersection` | src/geometry/shape/convex.rs:134-154 | for duplicate-free lists the common count is the size of the intersection of their sets |
| `ConvexShapes.CalcSubfaces` | src/geometry/shape/convex.rs:22-47 | for dimensions 2 to 4 the adjacent face pairs; any other dimension is rejected |
| `ConvexShapes.SubfacesMembers` | src/geometry/shape/convex.rs:22-47 | a pair is listed iff its second index is below its first and the faces are adjacent |
| `ConvexShapes.SubfacesNoDuplicates` | src/geometry/shape/convex.rs:39-45 | no pair is listed twice |
| `ConvexShapes.SubfacesValid` | src/geometry/shape/convex.rs:39-45 | every listed pair indexes two faces of the shape |
| `ConvexShapes.CalcBoundaries` | src/geometry/shape/convex.rs:78-101 | the two loops produce the convex boundary set |
| `ConvexShapes.ConvexBoundariesCount` | src/geometry/shape/convex.rs:84-100 | one plane per mismatched-visibility pair, each through the camera, then one per visible face |
| `ConvexShapes.PairBoundariesCountAndPivot` | src/geometry/shape/convex.rs:84-93 | the pair planes number the mismatched pairs and pass through the camera |
| `ConvexShapes.VisiblePlanesCount` | src/geometry/shape/convex.rs:94-100 | the face planes number the visible faces and are planes of visible faces |
| `ConvexShapes.VisibilityDefinesBoundaries` | src/geometry/shape/convex.rs:59-77 | when visibility is computed from the camera, every interpolation parameter is defined |
| `ConvexShapes.PointWithin` | src/geometry/shape/convex.rs:102-107 | true iff the point is within distance of every face plane |
| `ConvexShapes.PointWithinMonotone` | src/geometry/shape/convex.rs:102-107 | a point within a distance is within every larger distance |
| `Boundaries.ConvexBoundaryPivot` | src/draw/clipping/boundaries.rs:72-90 | the interpolated plane passes through the camera and through every point shared by both face planes |
| `Boundaries.InterpolatedPlaneDistance` | src/draw/clipping/boundaries.rs:72-90 | the distance to an interpolated plane interpolates the distances to the two planes |
| `Boundaries.SingleFaceBoundaryProperties` | src/draw/clipping/boundaries.rs:92-113 | the normal is the cross normal or its negation, the plane passes through the camera, the face center is not in front |
| `Boundaries.SingleFaceBoundaryAtZero` | src/tests/test_boundaries.rs:25-38 | at a camera at the origin the single-face boundary has threshold 0 |
| `Boundaries.FaceBoundaryOrientation` | src/draw/clipping/boundaries.rs:50-67 | a one-sided face gives its own plane; a two-sided face is flipped to face the camera; the plane keeps the face center |
| `Boundaries.VisibilityFromCamera` | src/draw/clipping/boundaries.rs:31-39 | visibility computed from the camera makes every convex-subface boundary defined |
| `Boundaries.SubfaceContributes` | src/draw/clipping/boundaries.rs:31-47 | a convex subface contributes iff its faces differ in visibility; a boundary subface iff its face is visible |
| `Boundaries.SubfaceBoundaryThroughCamera` | src/draw/clipping/boundaries.rs:31-47 | every subface boundary passes through the camera |
| `Boundaries.SubfaceBoundariesThroughCamera` | src/draw/clipping/boundaries.rs:18-48 | all subface boundaries of a shape pass through the camera |
| `Boundaries.FaceBoundariesPositions` | src/draw/clipping/boundaries.rs:50-67 | one plane per visible face, in face order, each at the count of visible faces before it |
| `Boundaries.CalcBoundariesLayout` | src/draw/clipping/boundaries.rs:18-70 | all subface planes first, then the plane of each visible face at its position |
| `Clipping.ClipLinePlaneCases` | src/draw/clipping.rs:186-213 | None iff both endpoints are behind; unchanged if both are safe; else the safe end is kept and the other moved onto the plane |
| `Clipping.ClipLinePlaneKeepsSafeSide` | src/draw/clipping.rs:186-213 | a clipped segment lies within the original one and on the safe side of the plane |
| `Clipping.CrossingPointOnSegment` | src/draw/clipping.rs:205-206 | the interpolated crossing lies on the segment and on the plane |
| `Clipping.HalfSpaceConvex` | src/draw/clipping.rs:186-213 | every point between two safe endpoints is safe |
| `Clipping.CubePlanes` | src/draw/clipping.rs:217-222 | 2·dim planes of threshold -r, one pair per axis |
| `Clipping.CubePlaneAt` | src/draw/clipping.rs:217-222 | planes 2i and 2i+1 have normals -e_i and +e_i, facing inward |
| `Clipping.ClipLineCube` | src/draw/clipping.rs:215-236 | the loop equals clipping successively against every cube plane |
| `Clipping.ClipLineSphere` | src/draw/clipping.rs:238-256 | a segment inside the sphere is kept whole; otherwise it survives iff `sphere_line_intersect` finds the sphere, and an inside endpoint is kept |
| `Clipping.ClipLineSphereWithin` | src/draw/clipping.rs:238-256 | for a segment of non-negligible length, both ends of the result lie within the closed sphere |
| `Clipping.ClipPlanesStep` | src/draw/clipping.rs:224-227 | one more plane clips the current piece, and None stays None |
| `Clipping.ClipPlanesInside` | src/draw/clipping.rs:215-236 | a surviving piece is on the safe side of every plane |
| `Clipping.ClipPlanesKeepsInside` | src/draw/clipping.rs:215-236 | a segment already inside every plane is returned unchanged |
| `Clipping.ClipLineCubeInside` | src/draw/clipping.rs:215-236 | a surviving piece lies in the cube [-r, r]^dim, and clipping it again changes nothing |
| `Clipping.Next` | src/draw/clipping.rs:362-376 | the iterator yields None only when empty and otherwise holds one line fewer |
| `Clipping.LinesInOrder` | src/draw/clipping.rs:357-376 | the iterator yields its lines first to last, as many as it holds |
| `Geometry.TIntersect` | src/draw/clipping.rs:437-443 | interpolating the endpoint projections at the parameter gives the threshold; with margins of opposite sign it lies in [0, 1] |
| `Clipping.Crossing` | src/draw/clipping.rs:437-443 | a crossing parameter lies in (0, 1] when p0 is safe and in [0, 1) when p1 is safe |
| `Clipping.EntryParam` | src/draw/clipping.rs:418-443 | the clip parameter a stays within [0, 1] |
| `Clipping.ExitParam` | src/draw/clipping.rs:418-443 | the clip parameter b stays within [0, 1] |
| `Clipping.ClipLineConvex` | src/draw/clipping.rs:407-469 | the loop with early exit returns what the specification of the clip gives |
| `Clipping.ClipLineConvexStep` | src/draw/clipping.rs:423-446 | one loop step updates the safe flags by or, a by max and b by min, as in the source |
| `Clipping.EntryParamBound` | src/draw/clipping.rs:436-439 | a is at least the crossing of every boundary where only p0 is safe |
| `Clipping.EntryParamAttained` | src/draw/clipping.rs:436-439 | a positive a is the crossing of some such boundary |
| `Clipping.ExitParamBound` | src/draw/clipping.rs:440-443 | b is at most the crossing of every boundary where only p1 is safe |
| `Clipping.ExitParamAttained` | src/draw/clipping.rs:440-443 | a b below 1 is the crossing of some such boundary |
| `Clipping.ClipLineConvexWholeOrNothing` | src/draw/clipping.rs:413-468 | no boundaries, or one boundary with both ends safe, gives the whole line; no safe end anywhere gives no line |
| `Clipping.EntryPositive` | src/draw/clipping.rs:436-439 | when p0 is safe somewhere but no boundary has both ends safe, a > 0 |
| `Clipping.ExitBelowOne` | src/draw/clipping.rs:440-443 | when p1 is safe somewhere but no boundary has both ends safe, b < 1 |
| `Clipping.ClipLineConvexPieces` | src/draw/clipping.rs:448-468 | the pieces are the sub-segments of parameter spans inside [0, 1], in order |
| `Clipping.ClipLineConvexKeepsUnhidden` | src/draw/clipping.rs:407-469 | every kept point is on the safe side of at least one boundary |
| `Clipping.ClipLineConvexDropsOnlyHidden` | src/draw/clipping.rs:407-469 | every dropped point is on or behind every boundary |
| `Clipping.OutsideSpans` | src/draw/clipping.rs:448-468 | a dropped parameter lies after a and before b, and no boundary has both ends safe |
| `Clipping.WholeSpanKept` | src/draw/clipping.rs:413-435 | with no boundary, or one with both ends safe, every parameter is kept |
| `Clipping.DroppedBelowBoundary` | src/draw/clipping.rs:407-469 | a dropped point is on or behind the given boundary |
| `Clipping.ClipEachCount` | src/draw/clipping.rs:391-397 | clipping a list against one set at most doubles it |
| `Clipping.ClipThroughCount` | src/draw/clipping.rs:382-404 | after k boundary sets at most 2^k pieces remain |
| `Clipping.ClipAll` | src/draw/clipping.rs:391-397 | the flat map over the scratch lines is clipping each line in turn |
| `Clipping.ClipThroughStep` | src/draw/clipping.rs:388-403 | each boundary set clips all pieces left by the previous sets |
| `Clipping.ClipLine` | src/draw/clipping.rs:382-404 | lines written before are untouched; the appended pieces are the line threaded through every set, or the line itself with no sets |
| `InFront.SwapInvolution` | src/draw/clipping.rs:508-514 | swapping the roles twice is the identity; only Unknown and NoFront are their own swap |
| `InFront.ApplyCases` | src/draw/clipping.rs:526-551 | no separator gives Unknown; below the lower threshold and above the upper one pick a front shape by `invert`; between them NoFront |
| `InFront.ApplyInvert` | src/draw/clipping.rs:526-551 | flipping `invert` swaps which shape is in front |
| `InFront.Dist1` | src/draw/clipping.rs:569-570 | for separated balls the distance to the similitude center is positive |
| `InFront.DynamicSeparateOverlap` | src/draw/clipping.rs:557-593 | the result is Unknown iff the bounding balls overlap or touch |
| `InFront.DynamicSeparateSymmetric` | src/draw/clipping.rs:557-593 | exchanging the two balls swaps the verdict |
| `InFront.ConeSeparationAntisymmetric` | src/draw/clipping.rs:578-592 | mirroring the projections swaps the cone verdict |
| `InFront.NormalSeparateSlab` | src/draw/clipping.rs:595-645 | a separator has a slab no thinner than -OVERLAP with each shape on its side, and thresholds attained by the shapes |
| `InFront.NormalSeparateFindsSlab` | src/draw/clipping.rs:626-633 | when shape 1 lies below shape 2 along the normal, an inverted separator is found |
| `InFront.SeparateBetweenCenters` | src/draw/clipping.rs:646-657 | the separator uses the direction between the centers, and is Unknown when the centers nearly coincide |
| `InFront.ShapeClipState.constructor` | src/draw/clipping.rs:74-84 | the default state is empty and opaque |
| `InFront.ShapeClipState.Remove` | src/draw/clipping.rs:86-91 | only the entity's in-front entry and separator are removed |
| `InFront.PairCache` | src/draw/clipping.rs:147-160 | a cached separator is never replaced, and existing entries are kept |
| `InFront.InFrontFlagsCases` | src/draw/clipping.rs:164-169 | both flags set iff Unknown, neither iff NoFront, and swapping swaps the flags |
| `InFront.SetMember` | src/draw/clipping.rs:170-183 | the entity is a member exactly when the flag says so, and nothing else changes |
| `InFront.CalcInFrontPair` | src/draw/clipping.rs:136-184 | each state's in-front set holds the other entity exactly when its flag is set; only a's cache may grow |
| `InFront.CalcInFrontPairIdempotent` | src/draw/clipping.rs:136-184 | running the pair again adds nothing to the cache and gives the same verdict |
| `InFront.PairSeparationSymmetric` | src/draw/clipping.rs:136-184 | for separated bounding balls, exchanging the shapes swaps the verdict and the flags |
| `PyClipping.PointClippedIff` | Clipping.py:44-48 | a point is clipped iff it is strictly below every shifted boundary; with no boundaries it is clipped |
| `PyClipping.Crossing` | Clipping.py:93-99 | the crossing parameter lies in [0, 1] |
| `PyClipping.EntryParam` | Clipping.py:71-102 | the clip parameter a stays within [0, 1] |
| `PyClipping.ExitParam` | Clipping.py:71-102 | the clip parameter b stays within [0, 1] |
| `PyClipping.ClipLine` | Clipping.py:67-121 | the loop with early exit returns what the specification of the Python clip gives |
| `PyClipping.ClipLineStep` | Clipping.py:75-102 | one loop step updates the safe flags by or, a by max and b by min, using the non-strict test |
| `PyClipping.NotClippedIsSafe` | Clipping.py:44-48 | an endpoint is not clipped iff some boundary has it safe |
| `PyClipping.ClipLineAgreesWithPointClipped` | Clipping.py:67-121 | at most two pieces, two only if a > 0 and b < 1; none iff both ends are clipped; unclipped ends are kept |
| `PyClipping.ClipEach` | Clipping.py:57-58 | clipping a list against one set at most doubles it |
| `PyClipping.OccluderBoundaries` | Clipping.py:52-62 | at most one boundary set per clipping shape |
| `PyClipping.ClipAgainstOccludersOnly` | Clipping.py:52-62 | lines are clipped only against the boundaries of other, opaque shapes, in order |
| `PyClipping.NoOccluderKeepsLines` | Clipping.py:52-62 | with no occluding shape the lines are unchanged |
| `PyClipping.NoOccluderBoundaries` | Clipping.py:52-62 | with no occluding shape no boundary set is used |
| `PyClipping.ClipLinesAsWritten` | Clipping.py:52-62 | as written, an empty list of clipping shapes raises; otherwise the lines are clipped against the occluders |
| `PyClipping.ClipLines` | Clipping.py:52-62 | corrected: lines threaded through every occluder's set; with no shapes they come back unchanged |
| `PyClipping.Plane0Intersect` | Clipping.py:168-171 | the point has the dimension of the line and last coordinate z0 |
| `PyClipping.ClipLineZ0KeepsBehindEndpoint` | Clipping.py:125-139 | as written, z0 = 1 and a line from 0.5 to 2 keeps its endpoint behind the plane |
| `PyClipping.ClipLineZ0` | Clipping.py:125-139 | corrected: None iff both ends are at or behind z0; both in front gives the line unchanged; kept points are at or beyond z0 |
| `PyClipping.SphereLineIntersectCases` | Clipping.py:196-226 | a negative discriminant gives None; otherwise None iff both roots lie outside [0, d] on one side; results lie on the sphere |
| `PyClipping.UnitRootOnSphere` | Clipping.py:207-216 | both roots along a unit direction land on the sphere |
| `PyClipping.ClipLineSphere` | Clipping.py:229-248 | a line inside is unchanged; a clipped line is inside the sphere, keeps endpoints that were inside and keeps the dimension |
| `PyClipping.InsertDropIndex` | Clipping.py:252-263 | removing a coordinate and inserting it back are inverses |
| `PyClipping.CopySign` | Clipping.py:283-285 | the result has the magnitude of x and the sign of y |
| `PyClipping.ClipLineCylinder` | Clipping.py:265-266 | both ends beyond the same cap give None |
| `PyClipping.ClipLineCylinderInside` | Clipping.py:252-285 | a line strictly inside the caps with its cross-section inside the radius is unchanged |
| `PyClipping.ClipLineCylinderBounds` | Clipping.py:252-285 | a result has its cross-section within the radius and, when an end was between the caps, its axis coordinates within them |
| `Transforms.UnitScaling` | src/geometry/transform.rs:59-75 | the unit scaling leaves vectors unchanged and is a unit of composition |
| `Transforms.ScaleVecCompose` | src/geometry/transform.rs:62-75 | scaling by a composition equals scaling by each factor in turn |
| `Transforms.ComposeScalingCommutes` | src/geometry/transform.rs:68-75 | composition of scalings is commutative |
| `Transforms.GetVecScales` | src/geometry/transform.rs:76-81 | scaling equals elementwise multiplication by `get_vec` |
| `Transforms.ApplyIdentity` | src/geometry/transform.rs:156-158 | the identity transform maps every vector to itself |
| `Transforms.ApplyTranslated` | src/geometry/transform.rs:156-158 | translating the transform translates every image by the same amount |
| `Transforms.ApplyComposed` | src/geometry/transform.rs:168-172 | the composed transform scales by both, rotates by both frames, and adds both positions |
| `Transforms.Transform.Identity` | src/geometry/transform.rs:107-113 | position 0, identity frame and unit scale |
| `Transforms.Transform.New` | src/geometry/transform.rs:119-129 | each missing part defaults to position 0, identity frame or unit scale |
| `Transforms.Transform.Translate` | src/geometry/transform.rs:130-132 | position moves by the delta; frame and scale unchanged |
| `Transforms.Transform.Rotate` | src/geometry/transform.rs:134-145 | the frame is left-multiplied by the rotation in the plane of two of its rows; position and scale unchanged |
| `Transforms.Transform.Scale` | src/geometry/transform.rs:153-155 | scale composed with the new scaling; position and frame unchanged |
| `Transforms.Transform.TransformVec` | src/geometry/transform.rs:156-158 | the image has the transform's dimension |
| `Transforms.Transform.SetTransform` | src/geometry/transform.rs:159-163 | all three parts are copied from the other transform |
| `Transforms.Transform.Compose` | src/geometry/transform.rs:168-172 | positions added, frames multiplied, scales composed |
| `Transforms.ComposeIdentity` | src/geometry/transform.rs:168-172 | composing with the identity transform changes nothing |
| `Collide.BitAbove` | src/collide.rs:167-170 | bit m of every number below 2^m is 0 |
| `Collide.BitsOfHigh` | src/collide.rs:167-170 | adding 2^m to a number below 2^m sets bit m and keeps the lower bits |
| `Collide.GetDcoordsDcells` | src/collide.rs:173-198 | the loops produce one offset per subset of the set axes, the sum of their multipliers |
| `Collide.SumIsSetAxes` | src/collide.rs:175-184 | for 0/1 entries the box dimension is the number of set axes |
| `Collide.DcellsAppendZero` | src/collide.rs:185-198 | an axis with entry 0 adds no cells |
| `Collide.DcellsAppendOne` | src/collide.rs:185-198 | an axis with entry 1 doubles the list, the copy shifted by that axis's multiplier |
| `Collide.DcoordsDcellsTestAll` | src/collide.rs:304-307 | all axes set gives the offsets 0 to 7 |
| `Collide.DcoordsDcellsTestNone` | src/collide.rs:308 | no axis set gives only the box's own cell |
| `Collide.DcoordsDcellsTestFirst` | src/collide.rs:309 | only the first axis gives [0, 1] |
| `Collide.DcoordsDcellsTestSecond` | src/collide.rs:310 | only the second axis gives [0, 2] |
| `Collide.DcoordsDcellsTestThird` | src/collide.rs:311 | only the third axis gives [0, 4] |
| `Collide.DcoordsDcellsTestLower` | src/collide.rs:312 | the first two axes give [0, 1, 2, 3] |
| `Collide.DcoordsDcellsTestUpper` | src/collide.rs:313 | the upper two axes give [0, 2, 4, 6] |
| `Collide.DcoordsDcellsTestOuter` | src/collide.rs:314 | the outer axes give [0, 1, 4, 5] |
| `Collide.CalcBBox` | src/collide.rs:57-67 | every vertex lies in the box, and each face of the box touches some vertex |
| `Collide.MoveNext.constructor` | src/collide.rs:35-46 | no move planned and no permission decided |
| `Collide.MoveNext.Transform` | src/collide.rs:48-53 | adds the translation to the planned move, or starts one |
| `Collide.MovePlayer` | src/collide.rs:201-215 | the player moves by the planned step only when it is ready, and then the camera plane follows the new position; the plan is always reset |
| `Cameras.CameraPlane` | src/camera.rs:21-26 | the camera plane has the heading (the frame's last row) as normal and passes through the position |
| `Cameras.CameraPlaneAhead` | src/camera.rs:21-26 | a point's signed distance from the camera plane is its offset from the position along the heading |
| `Cameras.Camera.constructor` | src/camera.rs:9-16 | the first plane has normal `one_hot(-1)` and passes through the transform's position |
| `Cameras.Camera.Update` | src/camera.rs:21-29 | the plane becomes the camera plane of the transform's current position and frame |
| `Collide.PlayerBBoxAsWrittenDegenerate` | src/collide.rs:217-220 | as written, the box has min equal to max, and does not contain the player |
| `Collide.PlayerBBoxContainsPlayer` | src/collide.rs:217-220 | corrected: the box contains the player and is 0.4 wide on each axis |
| `Collide.BoundaryDistsMembers` | src/collide.rs:223-240 | the distances listed are exactly those to the face's boundary subface planes |
| `Collide.FaceMaxSubfaceDistIsMax` | src/collide.rs:223-240 | None iff the face has no boundary subface; otherwise the largest such distance |
| `Collide.SelectExact` | src/collide.rs:254-265 | the selection holds only flagged elements and every flagged one |
| `Collide.CollidingFaces` | src/collide.rs:244-267 | the loop returns the selected faces in order |
| `Collide.CollidingFacesExact` | src/collide.rs:244-267 | every returned face collides, and every colliding face is returned |
| `Collide.PushRepels` | src/collide.rs:286-288 | after the push the move no longer points into the face, and a move into the face is stopped at it |
| `Collide.ShapeStepRepels` | src/collide.rs:280-294 | with no colliding face the move is unchanged; otherwise it does not point into the last one |
| `Collide.CheckPlayerStaticCollisions` | src/collide.rs:269-296 | a ready plan is replaced by the pushed move over all shapes; otherwise nothing changes |
| `SpatialHashes.CastU32` | src/spatial_hash.rs:44-47 | the saturating cast: within [0, u32::MAX], the floor of in-range values, 0 for negatives |
| `SpatialHashes.NCells` | src/spatial_hash.rs:23-25 | the cell count per axis is the length divided by the cell size, cast |
| `SpatialHashes.PrefixProductsStep` | src/spatial_hash.rs:27-32 | the multipliers start at 1 and each is the previous times that axis's cell count |
| `SpatialHashes.Multipliers` | src/spatial_hash.rs:27-32 | the loop produces those prefix products |
| `SpatialHashes.CellCoordBelow` | src/spatial_hash.rs:43-49 | inside the region, each axis's cell coordinate is below its cell count |
| `SpatialHashes.CellHashBelowTotal` | src/spatial_hash.rs:43-49 | the hash of a point in the region is below the total number of cells |
| `SpatialHashes.HashUpToBelow` | src/spatial_hash.rs:43-49 | the partial mixed-radix sum stays below the partial product |
| `SpatialHashes.GridTestParameters` | src/spatial_hash.rs:169-187 | the test grid has 10 by 10 cells and multipliers 1, 10, 100 |
| `SpatialHashes.HashTestGrid` | src/spatial_hash.rs:169-187 | points of the test grid hash to i + 10j |
| `SpatialHashes.SpatialHash.New` | src/spatial_hash.rs:23-40 | empty map; length is max - min; cell counts and multipliers as above |
| `SpatialHashes.SpatialHash.Get` | src/spatial_hash.rs:50-52 | the value stored in the point's cell, or None |
| `SpatialHashes.SpatialHash.Insert` | src/spatial_hash.rs:63-65 | the point's cell gets the value, and the previous value is returned |
| `SpatialHashes.SpatialHash.Remove` | src/spatial_hash.rs:66-68 | the point's cell is emptied and its value returned; a later get gives None |
| `SpatialHashes.SpatialHashSet.New` | src/spatial_hash.rs:88-90 | a fresh, empty hash over the region |
| `SpatialHashes.SpatialHashSet.Insert` | src/spatial_hash.rs:101-112 | the item is added to the cell's set, a singleton if the cell was empty |
| `SpatialHashes.SpatialHashSet.Remove` | src/spatial_hash.rs:113-119 | the item is removed from the cell's set; true iff it was there |
| `SpatialHashes.SpatialHashSet.ClearCell` | src/spatial_hash.rs:120-122 | the cell's whole set is removed and returned |
| `SpatialHashes.CubeTestParameters` | src/spatial_hash.rs:188-208 | the second test's cube has 3 cells per axis and multipliers 1, 3, 9, 27 |
| `SpatialHashes.CubeTestHashes` | src/spatial_hash.rs:188-208 | the test's points fall in cells 18 and 5 as the test expects |
| `SpatialHashes.HashTestCube` | src/spatial_hash.rs:188-208 | the test's sequence of inserts, gets and removes returns 5, 8, 1, 1 and then None |
| `LineBuffer.Buffer.constructor` | src/draw/line_buffer.rs:49-55 | empty vector, cursor and size 0 |
| `LineBuffer.Buffer.Add` | src/draw/line_buffer.rs:62-76 | as written: push on empty or at the end without advancing, else overwrite the next slot; size never shrinks |
| `LineBuffer.Buffer.AddToEnd` | src/draw/line_buffer.rs:78-90 | as written: writes at the size, pushing when full; size grows by one; cursor unchanged |
| `LineBuffer.Buffer.GetSlice` | src/draw/line_buffer.rs:117-119 | exactly the first cur_size elements |
| `LineBuffer.Buffer.GetRef` | src/draw/line_buffer.rs:91-95 | the vector's element at an index below cur_size, in any state, and that element of the used part when the used part fits in the vector |
| `LineBuffer.Buffer.Set` | src/draw/line_buffer.rs:100-103 | overwrites one element below cur_size, in any state; cursor and size unchanged, and a consistent buffer stays consistent |
| `LineBuffer.Buffer.Clear` | src/draw/line_buffer.rs:104-107 | from any state, cursor and size reset to 0 and storage kept, which leaves a consistent buffer |
| `LineBuffer.Buffer.ToBeginning` | src/draw/line_buffer.rs:108-110 | from any state, cursor reset to 0 with size and storage kept; a consistent buffer stays consistent |
| `LineBuffer.AddThreeAsWritten` | src/draw/line_buffer.rs:62-76 | as written, adding 1, 2, 3 to a new buffer leaves the slice [1, 3] |
| `LineBuffer.AddToEndOnEmptyAsWritten` | src/draw/line_buffer.rs:78-90 | as written, one add_to_end on a new buffer reports size 2 with 1 element stored |
| `LineBuffer.ClearRecoversAsWritten` | src/draw/line_buffer.rs:78-110 | after `add_to_end` on a new buffer, as written, `set(0, 7)` and `get_ref(0)` still work and give 7, and `clear` recovers: the next `add_to_end(5)` leaves the used part [5] |
| `LineBuffer.CorrectedBuffer.constructor` | src/draw/line_buffer.rs:49-55 | corrected buffer: empty slice, cursor 0 |
| `LineBuffer.CorrectedBuffer.GetSlice` | src/draw/line_buffer.rs:117-119 | corrected buffer: the slice has cur_size elements |
| `LineBuffer.CorrectedBuffer.Add` | src/draw/line_buffer.rs:62-76 | corrected: the value lands at the cursor, which advances; appended when the cursor is at the end |
| `LineBuffer.CorrectedBuffer.AddToEnd` | src/draw/line_buffer.rs:78-90 | corrected: the slice grows by exactly the value; cursor unchanged |
| `LineBuffer.CorrectedBuffer.Clear` | src/draw/line_buffer.rs:104-107 | corrected: empty slice, cursor 0 |
| `LineBuffer.AddThree` | src/draw/line_buffer.rs:62-76 | corrected, adding 1, 2, 3 to a new buffer gives [1, 2, 3] |
| `LineBuffer.AddToEndOnEmpty` | src/draw/line_buffer.rs:78-90 | corrected, one add_to_end on a new buffer gives [1] |
| `LineBuffer.ReuseAfterClear` | src/draw/line_buffer.rs:104-107 | corrected, after clear the buffer is reused from the start: [4, 5] |
| `InputToTransform.RemoveAll` | src/input/input_to_transform.rs:126-127 | every occurrence of the axis is removed and nothing else |
| `InputToTransform.ToggleAxis` | src/input/input_to_transform.rs:123-133 | axes beyond the dimension are ignored; otherwise the axis is locked iff it was not |
| `InputToTransform.SetAxes` | src/input/input_to_transform.rs:114-134 | the loop toggles each triggered axis in key order |
| `InputToTransform.SetAxesToggles` | src/input/input_to_transform.rs:114-134 | an axis is locked afterwards iff it was locked xor its key fired (within the dimension) |
| `InputToTransform.SetAxesValid` | src/input/input_to_transform.rs:114-134 | the locked list stays duplicate-free and within the dimension |
| `InputToTransform.ToggleAxisValid` | src/input/input_to_transform.rs:123-133 | one toggle keeps the locked list valid |
| `InputToTransform.ToggleTwice` | src/input/input_to_transform.rs:123-133 | toggling an unlocked axis twice restores the list |
| `InputToTransform.RemoveAllNoDuplicates` | src/input/input_to_transform.rs:126-127 | removal keeps a list duplicate-free |
| `InputToTransform.Round` | src/input/input_to_transform.rs:136 | the rounded integer is within one half of the value, and non-negative for non-negative values |
| `InputToTransform.RoundTo` | src/input/input_to_transform.rs:135-137 | the result is a whole multiple of `to`, within half a step of x |
| `InputToTransform.RoundVec` | src/input/input_to_transform.rs:139-141 | each component is moved by at most half the resolution |
| `InputToTransform.RoundAngle` | src/input/input_to_transform.rs:143-146 | the angle is moved by at most pi/16 |
| `InputToTransform.ClearComponents` | src/input/input_to_transform.rs:174-182 | the listed axes are zeroed and the other components unchanged |
| `InputToTransform.ApplyLockedAxes` | src/input/input_to_transform.rs:184-193 | no locked axes returns v; otherwise defaults with the locked axes copied from v |
| `InputToTransform.LockedPlusCleared` | src/input/input_to_transform.rs:174-193 | the locked part and the cleared part add back to v |
| `InputToTransform.LockedClearedIdempotent` | src/input/input_to_transform.rs:174-193 | clearing or locking twice is the same as once |
| `InputToTransform.MouseToSpace` | src/input/input_to_transform.rs:167-172 | the drag has the dimension of the camera frame |
| `InputToTransform.ScrollingAxisTranslation` | src/input/input_to_transform.rs:196-223 | no mouse motion changes nothing; otherwise the scaled drag, locked if axes are locked, is added and the transform reset from the original plus the (snapped) delta |
| `InputToTransform.RotateFrame` | src/input/input_to_transform.rs:225-279 | a rotated frame is still a square frame of the dimension |
| `InputToTransform.AxisRotation` | src/input/input_to_transform.rs:225-279 | an update happens iff the mouse moved and 2 or 4 axes are locked; the frame is the original rotated in one or two planes by the (snapped) angle |
| `SaveLoad.Decimal` | src/input/saveload_dialog.rs:67-69 | a non-empty string of decimal digits |
| `SaveLoad.SaveFileExtension` | src/input/saveload_dialog.rs:67-69 | the extension ends in "d.ron" after the dimension's digits |
| `SaveLoad.GetFileDimension` | src/input/saveload_dialog.rs:71-77 | Three or Four iff the path ends in "3d.ron" or "4d.ron"; any other path, or none, is the source's error |
| `SaveLoad.DimensionRoundTrip` | src/input/saveload_dialog.rs:67-77 | any path ending in the extension of 3 or 4 parses back to that dimension |
| `SaveLoad.OtherDimensionRejected` | src/input/saveload_dialog.rs:71-77 | the extension of any other single-digit dimension is rejected |
| `SaveLoad.LoadedScene` | src/input/saveload_dialog.rs:82-93 | the level becomes Load and only the matching load slot is set; the rest of the scene is unchanged |
| `SaveLoad.Config.constructor` | src/input/saveload_dialog.rs:79-95 | the configuration holds the given scene |
| `SaveLoad.SetLoadFileInConfig` | src/input/saveload_dialog.rs:79-95 | the result is the parsed dimension; on error the scene is untouched, on success it is the loaded scene |

## Left out

- `sqrt`, `cross_product` and `rotation_matrix` (cos/sin) are function parameters. `normalize` is defined from them, as `v / norm(v)`. Each is constrained only by the property the model needs: `IsSqrt` says the square root of a non-negative number is non-negative and squares back to it. `RotationsFit` says rotations keep a frame square.
- Floating point is modelled as exact real arithmetic. IEEE rounding, NaN, infinities and EPSILON-level numerics are not modelled.
- Where the source divides by zero and the NaN or infinity only decides a comparison, the model picks the branch that value takes. For example, `line_plane_intersect` with equal endpoint projections gives None, because the NaN parameter fails the range test.
- Where the quotient would instead be returned, the member requires a non-zero divisor, so the NaN or infinite result is not modelled:
- Vectors.Div: requires a non-zero divisor.
- Vectors.Normalize: requires a non-zero vector; the source divides by a zero norm.
- Vectors.Barycenter: requires a non-empty list; the source divides by a count of 0.
- Faces.NewFace: requires a non-zero normal, which the source normalises.
- PyClipping.SphereLineIntersect: requires a segment of non-zero length; Clipping.py:200-201 divides by `dv_norm`.
- PyClipping.ClipLineSphere: requires a segment of non-zero length unless both endpoints are inside, because it then calls `sphere_line_intersect`.
- InputToTransform.RoundTo: requires a non-zero step; the source only rounds to 0.25 and to PI/8.
- Integer widths are not modelled: counts, indices and hashes are unbounded.
- SpatialHashes.SpatialHash.New: requires min < max and a positive cell size on every axis. The source divides by these without a check. The u32 overflow of the multipliers and of the hash sum is not modelled.
- SpatialHashes.CastU32: models only the float-to-u32 cast. It is saturating, so NaN is not covered.
- Vectors.Linspace: requires n ≠ 1, because the source's step is 0/0 then.
- InFront.DynamicSeparate: requires positive radii, since the ratio r1/(r1 + r2) needs them. The same holds for `InFront.CalcInFrontPair`, `InFront.PairCache` and the lemmas about them.
- `calc_in_front` loops over all entity pairs; it is left out because it is ECS iteration. `calc_in_front_pair` is modelled on two distinct clip states passed in directly.
- The Rust `clip_line_cylinder` and `clip_line_tube` in `src/draw/clipping.rs` are outside the modelled core; their Python forms are modelled as `PyClipping.ClipLineCylinder`. The Rust `clip_line_sphere` is modelled as `Clipping.ClipLineSphere`, and its Python twin as `PyClipping.ClipLineSphere`.
- Python `calc_boundaries`, `calc_boundary` and `clip_line_plane` are the same expressions as the Rust `Convex::calc_boundaries`, `calc_boundary` and `clip_line_plane`. They are represented by `ConvexShapes.CalcBoundaries`, `Boundaries.CalcConvexBoundary` and `Clipping.ClipLinePlane`.
- The Python clip differs from the Rust one in three ways, each modelled as written:
  - it uses `>=` for safety where Rust uses `>`;
  - it returns two pieces only when b < 1, where Rust allows b ≤ 1;
  - with an empty boundary set it drops the line, where Rust keeps it.
- `Camera::look_at` in `src/camera.rs` is not modelled: it rebuilds the frame with `rotation_matrix`, a parameter here. The camera's `update` reads `frame[-1]`, so `Collide.MovePlayer` requires a dimension of at least 1; the game's dimensions are 3 and 4.
- The Rust line buffer's `copy_to_buffer` and `get_mut_ref` are not modelled; `get_mut_ref` is `get_ref` with a mutable borrow.
- `rotate_about`, the `with_*` builders, `get_bbox_cells`, `insert_static_bbox` and `create_spatial_hash` are not modelled. `Translatable::translate` is represented by `Transforms.Transform.Translate`.
- ECS and specs glue, `HashMap` and `HashSet` iteration order, mouse and keyboard state, the file dialogs and threads are not modelled. Mouse deltas, the time step and the picked file are parameters.
- A path that is not valid Unicode is modelled as an absent path (`None`). `get_file_dimension` reads it as the empty string. The later `to_str` failure in `set_load_file_in_config` cannot be reached once the dimension parsed, so it is not modelled.
- PyClipping.ClipLineCylinder: its contract gives only the cap rejection. `ClipLineCylinderInside` and `ClipLineCylinderBounds` state the rest. Through `CylinderClipDefined` it inherits the sphere clip's requirement of a segment of non-zero length, for the part perpendicular to the axis. So a segment parallel to the axis, not wholly beyond one cap, with an end outside the radius is excluded; there Clipping.py:200-201 divides by a zero `dv_norm`.

## Findings

| source | as written | input that shows it | evidently intended | confidence | as-written member | corrected member |
|---|---|---|---|---|---|---|
| src/draw/line_buffer.rs:62-76 | `add` pushes at the end without advancing `cur_index`, so the next `add` overwrites the value just pushed | new buffer, add 1, 2, 3: the slice is [1, 3] | each add appends at the cursor and advances it: [1, 2, 3] | not executed | `LineBuffer.AddThreeAsWritten` | `LineBuffer.AddThree` |
| src/draw/line_buffer.rs:78-90 | on an empty vector `add_to_end` pushes, sets `cur_size` to at least `cur_index + 1`, then adds 1 more | new buffer, add_to_end(1): `cur_size` 2 with one element stored, so `get_slice` panics | `cur_size` becomes 1 and the slice is [1] | not executed | `LineBuffer.AddToEndOnEmptyAsWritten` | `LineBuffer.AddToEndOnEmpty` |
| src/collide.rs:217-220 | `max = player_pos + constant(-0.2)` equals `min = player_pos - constant(0.2)` | any player position: min = max = pos - 0.2, and the box does not contain the player | `max = pos + 0.2`, a box 0.4 wide around the player | not executed | `Collide.PlayerBBoxAsWrittenDegenerate` | `Collide.PlayerBBoxContainsPlayer` |
| Clipping.py:125-139 | the mixed case tests the last coordinate against 0 instead of `z0` | z0 = 1, line from 0.5 to 2.0: the endpoint at 0.5, behind the plane, is kept | the endpoint behind `z0` is moved onto the plane z = z0 | not executed | `PyClipping.ClipLineZ0KeepsBehindEndpoint` | `PyClipping.ClipLineZ0` |
| Clipping.py:52-62 | `clipped_lines` is assigned only inside the loop and returned after it | an empty list of clipping shapes: UnboundLocalError | the input lines come back unchanged | not executed | `PyClipping.ClipLinesAsWritten` | `PyClipping.ClipLines` |
