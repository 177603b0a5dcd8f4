# RoadTest road mesh builder in Dafny

This project models the mesh builder of the RoadTest Unity scene. The
builder lives in `Assets/Scripts/RoadScript.cs` and has two parts.

- `RoadSegment.makeVertices` turns one segment into a local list of
  left/right vertex pairs, called stations here. A segment has a straight
  `length`, a turn `radius`, a turn angle `theta` in degrees (positive is
  clockwise) and a half-width `width`. The list holds:
  - the seed pair at z = 0;
  - a straight pair at z = `length` when the length is positive;
  - for a turn, one pair per whole 5 degree step, then one pair at the
    exact turn angle.

  On the way it raises the `radius` field to `width` when the radius is
  smaller.
- `RoadScript.makeVerticesFromSegments` chains the segments into one strip.
  For each segment it:
  - drops the two trailing vertices already in the strip (the weld);
  - rotates the local vertices by the accumulated heading and moves them to
    the current position;
  - moves the position to the midpoint of the new trailing pair;
  - adds the segment's turn to the heading.

  It then derives the quad-strip triangle list and the texture coordinates
  (UVs) from the vertex count alone.

The model is imperative, like the code:
- `RoadSegments.RoadSegment` is a class with the four fields.
  `MakeVertices` updates the radius in place and builds the list with the
  same loops.
- `RoadMesh.RoadScript` is a class with the segment list and the three mesh
  lists.
- The segment loop, the triangle loop and the UV loop are `while` loops.

Each method is proved against a specification function:
- `SegmentVertices` for one segment;
- `Assemble`, built from `Step` and `Chain`, for the chained strip;
- `StripIndices` and `StripUVs` for the index and UV lists.

The properties of the code are proved as lemmas about these functions.
The methods' contracts speak of the segment objects through `RoadMesh.SpecsOf`,
which reads the current field values of a list of segment objects into a list
of `SegmentSpec` values, one per segment, in order.

Files:
- `geometry.dfy`: vectors, UVs and the engine's trigonometry, which is a
  parameter.
- `road_segment.dfy`: one segment.
- `road_mesh.dfy`: chaining, triangles, UVs and the `RoadScript` class.
- `road_scenarios.dfy`: worked cases (a straight, a quarter turn, a
  clamped radius, two chained straights, an empty road).

Where the intended behaviour and the code differ, the model follows the
code:
- The weld removes only the trailing pair a segment shares with the one
  before it. Inside one turning segment of non-negative length, the
  angle-zero facet repeats the station just before it
  (`RoadSegments.FirstFacetRepeatsStation`), so that the strip holds a
  zero-area quad there. For a negative length the angle-zero pair lies at
  z = length and does not repeat the seed.
- No parameter is rejected. A zero or negative width and a negative length
  are handled by the same formulas as any other value.
- Rebuilding gives the same mesh only because clamping the radius does not
  change a segment's vertices (`RoadMesh.AssembleIgnoresClamp`). The first
  build does change the segments: it clamps their radii.

## Model

| member | source | states |
|---|---|---|
| Geometry.RotateY | Assets/Scripts/RoadScript.cs:106 | `Quaternion.AngleAxis(heading, Vector3.up) * v` acts as a rotation about the vertical axis: the height of a vertex is unchanged |
| Geometry.RotateByZero | Assets/Scripts/RoadScript.cs:106 | a rotation by a heading of 0 degrees leaves every vertex where it is, given cos 0 = 1 and sin 0 = 0 |
| Geometry.Midpoint | Assets/Scripts/RoadScript.cs:119 | the next position `(a + b) / 2` is the point c with c + c = a + b |
| RoadSegments.ClampRadius | Assets/Scripts/RoadScript.cs:30-34 | the clamped radius is at least the half-width and at least the old radius, and is one of the two |
| RoadSegments.Clamped | Assets/Scripts/RoadScript.cs:30-34 | clamping changes only the radius, leaves it at least the half-width, and changes nothing when the radius is already at least the half-width |
| RoadSegments.Truncate | Assets/Scripts/RoadScript.cs:38 | the `(int)` cast of a non-negative value is non-negative |
| RoadSegments.TruncateBounds | Assets/Scripts/RoadScript.cs:38 | the `(int)` cast truncates toward zero: it drops less than one and never moves away from zero |
| RoadSegments.ArcSteps | Assets/Scripts/RoadScript.cs:38 | a segment without a turn has no facets; the loop bounds of both branches are given by `ArcStepsBounds` and `ArcStepsSymmetric` |
| RoadSegments.ArcStepsSymmetric | Assets/Scripts/RoadScript.cs:57 | the counter-clockwise bound `(int)(-theta / 5)` gives a left turn as many facets as the right turn of the same size |
| RoadSegments.ArcStepsBounds | Assets/Scripts/RoadScript.cs:38 | the number of subdivided facets n satisfies 5n <= abs(theta) < 5(n + 1) for both turn directions, and is 0 for a straight segment |
| RoadSegments.StepAnglesWithinTurn | Assets/Scripts/RoadScript.cs:38-40 | every subdivided angle 5i lies strictly inside the turn, and the last one is less than two steps short of it |
| RoadSegments.Seed | Assets/Scripts/RoadScript.cs:19-20 | the seed is one pair, both vertices at z = 0 |
| RoadSegments.Straight | Assets/Scripts/RoadScript.cs:23-27 | a positive length adds one pair, both vertices at z = length; otherwise nothing |
| RoadSegments.EdgeCentres | Assets/Scripts/RoadScript.cs:19-27 | the seed pair is centred on the segment's origin, and the straight pair on the forward axis at z = length |
| RoadSegments.ClockwiseOuter | Assets/Scripts/RoadScript.cs:41 | the outer vertex of a clockwise turn (also line 48) lies in the ground plane, and at angle 0 it is the left edge (-width, 0, length) |
| RoadSegments.ClockwiseInner | Assets/Scripts/RoadScript.cs:43 | the inner vertex of a clockwise turn (also line 50) lies in the ground plane, and at angle 0 it is the right edge (width, 0, length) |
| RoadSegments.CounterClockwiseInner | Assets/Scripts/RoadScript.cs:60 | the inner vertex of a counter-clockwise turn (also line 67) lies in the ground plane, and at angle 0 it is the left edge (-width, 0, length) |
| RoadSegments.CounterClockwiseOuter | Assets/Scripts/RoadScript.cs:62 | the outer vertex of a counter-clockwise turn (also line 69) lies in the ground plane, and at angle 0 it is the right edge (width, 0, length) |
| RoadSegments.StepAngle | Assets/Scripts/RoadScript.cs:40 | the first facet (also line 59) is at angle 0 |
| RoadSegments.StepAngleSpacing | Assets/Scripts/RoadScript.cs:40 | consecutive facets are exactly one 5 degree step apart, in radians |
| RoadSegments.FinalAngle | Assets/Scripts/RoadScript.cs:47 | the final angle is abs(theta) degrees in radians, `theta` here and `-theta` at line 66 |
| RoadSegments.ArcFacets | Assets/Scripts/RoadScript.cs:38-45 | n subdivided facets hold exactly 2n vertices |
| RoadSegments.ArcFacetAt | Assets/Scripts/RoadScript.cs:40-44 | the k-th subdivided pair is the arc formula at exactly k times the 5 degree step, whatever the number of facets after it |
| RoadSegments.SegmentVertices | Assets/Scripts/RoadScript.cs:15-76 | a segment's local list holds exactly two vertices per station |
| RoadSegments.SegmentStart | Assets/Scripts/RoadScript.cs:19-27 | every local list starts with (-width, 0, 0), (width, 0, 0); a positive length puts (-width, 0, length), (width, 0, length) next; without a turn that is the whole list |
| RoadSegments.FinalPairExact | Assets/Scripts/RoadScript.cs:46-71 | the last pair is outer/inner at exactly theta for a clockwise turn and inner/outer at exactly -theta for a counter-clockwise turn, using the clamped radius, whatever the facet count |
| RoadSegments.FirstFacetRepeatsStation | Assets/Scripts/RoadScript.cs:40-44 | for a non-negative length, when a turn has at least one facet, its angle-zero pair is equal to the station before it (the seed pair, or the straight pair when the length is positive) |
| RoadSegments.ClampInvisible | Assets/Scripts/RoadScript.cs:30-34 | the vertices of a segment equal those of its clamped version; a radius below the half-width gives the same vertices as a radius equal to it |
| RoadSegments.RoadSegment.constructor | Assets/Scripts/RoadScript.cs:8-11 | a new segment has length, radius and theta 0 and half-width 1.6 |
| RoadSegments.RoadSegment.MakeVertices | Assets/Scripts/RoadScript.cs:15-76 | returns the segment's local list for its fields as they were on entry; afterwards the radius is at least the half-width, is unchanged if it already was, and no other field changes |
| RoadSegments.RoadSegment.AddClockwiseArc | Assets/Scripts/RoadScript.cs:35-52 | the clockwise branch appends the facets of the turn and then its exact final pair |
| RoadSegments.RoadSegment.AddClockwiseFacets | Assets/Scripts/RoadScript.cs:38-45 | the clockwise loop appends one outer/inner pair per whole 5 degree step, in order |
| RoadSegments.RoadSegment.AddCounterClockwiseArc | Assets/Scripts/RoadScript.cs:54-71 | the counter-clockwise branch appends the facets of the turn and then its exact final pair |
| RoadSegments.RoadSegment.AddCounterClockwiseFacets | Assets/Scripts/RoadScript.cs:57-64 | the counter-clockwise loop appends one inner/outer pair per whole 5 degree step of -theta, in order |
| RoadMesh.Place | Assets/Scripts/RoadScript.cs:114-117 | every local vertex is placed, one global vertex each |
| RoadMesh.Step | Assets/Scripts/RoadScript.cs:104-120 | after one iteration of the segment loop the strip ends with a pair, which the next position is taken from |
| RoadMesh.Weld | Assets/Scripts/RoadScript.cs:108-112 | the weld keeps a prefix of the strip: two vertices fewer when there are at least two, the strip itself otherwise |
| RoadMesh.Chain | Assets/Scripts/RoadScript.cs:102-121 | the segment loop over pieces; after at least one piece the strip ends with a pair |
| RoadMesh.Assemble | Assets/Scripts/RoadScript.cs:98-121 | the segment loop over segment values from the start pose; after at least one segment the strip ends with a pair |
| RoadMesh.StepWelds | Assets/Scripts/RoadScript.cs:108-117 | an iteration after the first drops exactly the last two vertices, keeps all earlier ones, and appends all placed local vertices in order; the first iteration's strip is the placed local list |
| RoadMesh.ChainAppend | Assets/Scripts/RoadScript.cs:108-117 | appending a piece after the first removes exactly two global vertices and then appends all of its placed vertices in order |
| RoadMesh.ChainCount | Assets/Scripts/RoadScript.cs:108-117 | the global count is the sum of the local counts minus 2(N - 1) for N pieces; no pieces give no vertices |
| RoadMesh.ChainPose | Assets/Scripts/RoadScript.cs:119-120 | the heading is the sum of the turns processed, and the position is the midpoint of the last two global vertices (the start pose for no pieces) |
| RoadMesh.ChainKeepsEarlier | Assets/Scripts/RoadScript.cs:108-117 | after i pieces, every vertex before the trailing pair stays unchanged in the final strip |
| RoadMesh.PieceOf | Assets/Scripts/RoadScript.cs:104 | a segment contributes its local list, two vertices per station, and its own turn angle |
| RoadMesh.Pieces | Assets/Scripts/RoadScript.cs:102-104 | the segments are processed in order, every one with at least its seed pair |
| RoadMesh.PiecesTotals | Assets/Scripts/RoadScript.cs:102-120 | the local lists together hold two vertices per station of all segments, and their turns add up to the segments' total turn |
| RoadMesh.VertexCount | Assets/Scripts/RoadScript.cs:102-121 | the strip holds 2 times the total stations minus 2(N - 1) vertices for N segments, none for no segments, and always an even number |
| RoadMesh.PoseAccumulates | Assets/Scripts/RoadScript.cs:98-120 | after the segments the heading is the sum of their thetas and the position the midpoint of the last two vertices; with no segments the pose stays at the origin with heading 0 |
| RoadMesh.EarlierVerticesKept | Assets/Scripts/RoadScript.cs:102-121 | later segments never move the vertices of earlier ones, apart from the two welded trailing vertices |
| RoadMesh.FirstSegmentUnmoved | Assets/Scripts/RoadScript.cs:98-117 | the first segment is placed at the origin with heading 0: its global vertices are its local ones |
| RoadMesh.AssembleIgnoresClamp | Assets/Scripts/RoadScript.cs:104 | rebuilding after some or all radii were clamped gives the same vertices and pose, so a second build equals the first |
| RoadMesh.AssembleStep | Assets/Scripts/RoadScript.cs:102-121 | one more segment is one more iteration of the loop on the pose and strip reached so far |
| RoadMesh.QuadCount | Assets/Scripts/RoadScript.cs:126 | the triangle loop runs q times, where q is the number of even i with 0 <= i < n - 2: none for n <= 2 |
| RoadMesh.StripIndices | Assets/Scripts/RoadScript.cs:125-134 | six indices per iteration of the triangle loop, and none for 0 or 2 vertices |
| RoadMesh.QuadBlocks | Assets/Scripts/RoadScript.cs:126-134 | q iterations of the triangle loop emit 6q indices |
| RoadMesh.QuadBlocksShape | Assets/Scripts/RoadScript.cs:126-134 | block j is [2j, 2j+2, 2j+1, 2j+1, 2j+2, 2j+3], and every index lies below 2q + 2 |
| RoadMesh.StripIndicesShape | Assets/Scripts/RoadScript.cs:125-134 | for an even vertex count n the triangle list has 6(n/2 - 1) entries (none for 0 or 2 vertices), a multiple of three, has the quad pattern at each even vertex, and every index is below n |
| RoadMesh.BuildTriangles | Assets/Scripts/RoadScript.cs:125-134 | the triangle loop produces the strip's triangle list for the vertex count |
| RoadMesh.StripUVs | Assets/Scripts/RoadScript.cs:138 | the UV loop emits n coordinates, or n + 1 for an odd count n |
| RoadMesh.StationUVs | Assets/Scripts/RoadScript.cs:138-142 | q stations have 2q texture coordinates |
| RoadMesh.StationUVsAt | Assets/Scripts/RoadScript.cs:138-142 | the UV of vertex k is (k mod 2, k div 2) |
| RoadMesh.StripUVsShape | Assets/Scripts/RoadScript.cs:137-142 | for an even vertex count there is one UV per vertex; u alternates 0, 1; v never decreases, and rises by exactly 1 every two vertices |
| RoadMesh.BuildUVs | Assets/Scripts/RoadScript.cs:137-142 | the UV loop produces the strip's UV list for the vertex count |
| RoadMesh.MeshWellFormed | Assets/Scripts/RoadScript.cs:94-143 | for every segment list the vertex count is even, the UV count equals it, the triangle list is a multiple of three long, and every index names a vertex |
| RoadMesh.RoadScript.constructor | Assets/Scripts/RoadScript.cs:84-91 | the road holds the given segment list and empty mesh lists |
| RoadMesh.RoadScript.MakeVerticesFromSegments | Assets/Scripts/RoadScript.cs:94-143 | the vertices are the chained strip of the segments as they were on entry; the triangles and UVs are derived from its length; every segment's radius is clamped |
| RoadMesh.ChainSegments | Assets/Scripts/RoadScript.cs:98-121 | the segment loop yields the chained strip of the entry field values and clamps each segment, including a segment that occurs more than once |
| RoadMesh.VisitSegment | Assets/Scripts/RoadScript.cs:102-104 | one `seg.makeVertices()` call of the loop yields the piece of the segment's entry values and clamps that segment, wherever it occurs in the list, and no other |
| RoadMesh.ExtendStrip | Assets/Scripts/RoadScript.cs:106-120 | one loop body welds, appends the rotated and moved local vertices, and moves the pose, exactly as one step of the chain |
| RoadScenarios.SegmentVertexCount | Assets/Scripts/RoadScript.cs:19-71 | a segment has 2 + (2 if length > 0) + (2((int)(abs(theta)/5) + 1) if theta != 0) vertices, at least 2 and an even number |
| RoadScenarios.QuarterTurnSteps | Assets/Scripts/RoadScript.cs:38 | a 90 degree turn in either direction has 18 subdivided facets |
| RoadScenarios.StraightVertices | Assets/Scripts/RoadScript.cs:19-27 | a straight segment of positive length yields exactly its leading and its trailing edge |
| RoadScenarios.SingleStraight | Assets/Scripts/RoadScript.cs:98-120 | a road of one straight segment is its local list, and the next segment would start at (0, 0, length) with heading 0 |
| RoadScenarios.StraightSegment | Assets/Scripts/RoadScript.cs:19-27 | length 10 and half-width 2 give (-2,0,0), (2,0,0), (-2,0,10), (2,0,10) |
| RoadScenarios.OneQuad | Assets/Scripts/RoadScript.cs:125-142 | four vertices give triangles [0,2,1,1,2,3] and UVs (0,0), (1,0), (0,1), (1,1) |
| RoadScenarios.QuarterTurn | Assets/Scripts/RoadScript.cs:35-52 | a clockwise 90 degree turn of radius 10 and half-width 1 has 40 vertices ending at (10,0,11) and (10,0,9), given cos 90 = 0 and sin 90 = 1 |
| RoadScenarios.SmallRadiusClamped | Assets/Scripts/RoadScript.cs:30-34 | radius 0.5 under half-width 2 builds the same 10 degree turn as radius 2 |
| RoadScenarios.PlaceUnrotated | Assets/Scripts/RoadScript.cs:116 | with heading 0 the placement is a pure translation by the position |
| RoadScenarios.StraightAfterStraight | Assets/Scripts/RoadScript.cs:108-117 | a second equal straight keeps the first one's leading edge and is placed, unrotated, at its trailing edge's centre |
| RoadScenarios.TwoStraights | Assets/Scripts/RoadScript.cs:108-120 | two equal straights chain into 6 vertices (not 8), at z = 0, the length and twice the length |
| RoadScenarios.EmptyRoad | Assets/Scripts/RoadScript.cs:98-142 | no segments give no vertices, no triangles, no UVs, and the pose stays at the origin |

## Left out

- `Start`, `Update` and `OnValidate` (`Assets/Scripts/RoadScript.cs:147-177`) are engine glue. They hand the lists to a `Mesh`, recalculate normals, set the `MeshFilter` and rebuild from the editor. None of this is modelled.
- Single-precision floats are modelled as Dafny reals. The rounding of each operation and the `(float)` cast of the step angle are not modelled.
- `Mathf.Cos`, `Mathf.Sin` and `Mathf.Deg2Rad` are a parameter of every member (`Geometry.Trig`). Nothing is assumed about them, except that some lemmas require cos 0 = 1 and sin 0 = 0, and `RoadScenarios.QuarterTurn` requires the values at the right angle. No numeric accuracy is claimed.
- `Quaternion.AngleAxis(theta, Vector3.up) * v` is written out as the rotation about the vertical axis in the engine's left-handed frame (`Geometry.RotateY`), using the same trigonometry parameter. The engine's quaternion arithmetic is not modelled.
- The `segments == null` path of `makeVerticesFromSegments` is not modelled. `Start` only calls the method when the list is present. On that path the code would read a missing or stale vertex list.
- RoadSegments.Truncate, RoadSegments.ArcSteps, RoadMesh.ChainSegments: the 32-bit range of C#'s `int` and null entries of the segment list are not modelled. The model's casts, loop counters and triangle indices are unbounded integers, so its facet counts and indices agree with the program only while they fit in an `int`. In C#, `(int)` of a quotient of 2^31 or more gives an unspecified value, and the counters and indices wrap. `seg.makeVertices()` would throw on a null entry, where `seq<RoadSegment>` holds only present objects.
- Geometric properties such as the absence of self-intersection, the winding of the triangles, normals, and the arc length of the turns are not modelled. The code does not establish them.
- RoadMesh.RoadScript.MakeVerticesFromSegments: the strip is built in local variables and written to the `vertices` field once, after the loop. The code instead changes the field list at every step. No caller can observe the field between the steps, but the model does not show the intermediate states of the field.
- RoadMesh.RoadScript.MakeVerticesFromSegments: its `ensures` does not state that a second build gives the same mesh. That follows from its `ensures` together with `RoadMesh.AssembleIgnoresClamp`.
- RoadMesh.StripIndicesShape: states the triangle-list shape only for even vertex counts. Odd counts never arise (`RoadMesh.VertexCount`), although `StripIndices` and `BuildTriangles` follow the loop for every count.
- RoadMesh.StripUVsShape: states one UV per vertex only for even vertex counts, for the same reason. For an odd count the loop emits one UV more than there are vertices.
