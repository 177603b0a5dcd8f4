/** The road mesh: segments chained into one vertex strip, then the triangle
    and texture-coordinate lists derived from it
    (`RoadScript.makeVerticesFromSegments` in Assets/Scripts/RoadScript.cs). */
module RoadMesh {
  import opened Geometry
  import opened RoadSegments

  /** The running placement of the next segment: where its leading edge is
      centred and the accumulated turn, in degrees. */
  datatype Pose = Pose(position: Vec3, heading: real)

  /** The state threaded through the segment loop: the global vertex list
      and the pose for the next segment. */
  datatype Assembly = Assembly(vertices: seq<Vec3>, pose: Pose)

  const StartPose := Pose(Origin, 0.0)

  /** What the segment loop takes from one segment: the local vertex list its
      `makeVertices` returns and its turn angle. */
  datatype Piece = Piece(local: seq<Vec3>, turn: real)

  /** Every local list holds at least the seed pair. */
  predicate Paired(ps: seq<Piece>)
  {
    forall j :: 0 <= j < |ps| ==> |ps[j].local| >= 2
  }

  lemma PairedAppend(ps: seq<Piece>, p: Piece)
    requires Paired(ps) && |p.local| >= 2
    ensures Paired(ps + [p])
  {
    forall j | 0 <= j < |ps| + 1
      ensures |(ps + [p])[j].local| >= 2
    {
      if j < |ps| {
        assert (ps + [p])[j] == ps[j];
      }
    }
  }

  lemma PairedPrefix(ps: seq<Piece>, i: nat)
    requires Paired(ps) && i <= |ps|
    ensures Paired(ps[..i])
  {
    forall j | 0 <= j < i
      ensures |ps[..i][j].local| >= 2
    {
      assert ps[..i][j] == ps[j];
    }
  }

  /** `q * vt + pos` for every local vertex, in order. */
  function Place(p: Pose, local: seq<Vec3>, m: Trig): (r: seq<Vec3>)
    ensures |r| == |local|
  {
    seq(|local|, k requires 0 <= k < |local| => Plus(RotateY(m, p.heading, local[k]), p.position))
  }

  /** The weld: the previous trailing pair is dropped once there is one. */
  function Weld(vertices: seq<Vec3>): (r: seq<Vec3>)
    ensures r <= vertices
    ensures |vertices| >= 2 ==> |r| == |vertices| - 2
    ensures |vertices| < 2 ==> r == vertices
  {
    if |vertices| > 1 then vertices[..|vertices| - 2] else vertices
  }

  /** One iteration of the segment loop. */
  function Step(a: Assembly, p: Piece, m: Trig): (r: Assembly)
    requires |p.local| >= 2
    ensures |r.vertices| >= 2
  {
    var vs := Weld(a.vertices) + Place(a.pose, p.local, m);
    Assembly(vs, Pose(Midpoint(vs[|vs| - 2], vs[|vs| - 1]), a.pose.heading + p.turn))
  }

  /** The vertex list and final pose after processing the pieces in order. */
  function Chain(ps: seq<Piece>, m: Trig): (r: Assembly)
    requires Paired(ps)
    ensures ps != [] ==> |r.vertices| >= 2
  {
    if ps == [] then Assembly([], StartPose)
    else Step(Chain(ps[..|ps| - 1], m), ps[|ps| - 1], m)
  }

  /** The number of local vertices of all pieces together. */
  function LocalTotal(ps: seq<Piece>): nat
  {
    if ps == [] then 0 else LocalTotal(ps[..|ps| - 1]) + |ps[|ps| - 1].local|
  }

  /** The sum of the pieces' turn angles. */
  function TurnTotal(ps: seq<Piece>): real
  {
    if ps == [] then 0.0 else TurnTotal(ps[..|ps| - 1]) + ps[|ps| - 1].turn
  }

  /** One step after the first drops exactly the last two vertices and
      appends all of the placed local vertices in order; the first step's
      vertices are just its placed local ones. */
  lemma StepWelds(a: Assembly, p: Piece, m: Trig)
    requires |p.local| >= 2
    ensures var vs := a.vertices; var r := Step(a, p, m).vertices;
      (|vs| >= 2 ==>
        r == vs[..|vs| - 2] + Place(a.pose, p.local, m) &&
        |r| == |vs| - 2 + |p.local| && r[..|vs| - 2] == vs[..|vs| - 2]) &&
      (vs == [] ==> r == Place(a.pose, p.local, m))
  {
    var vs := a.vertices;
    var r := Step(a, p, m).vertices;
    if |vs| >= 2 {
      var w := vs[..|vs| - 2];
      assert r == w + Place(a.pose, p.local, m);
      assert r[..|w|] == w;
    } else if vs == [] {
      assert Weld(vs) == [];
      assert r == [] + Place(a.pose, p.local, m);
    }
  }

  /** Appending a piece after the first drops exactly the last two global
      vertices and then appends all of its placed local vertices in order. */
  lemma ChainAppend(ps: seq<Piece>, p: Piece, m: Trig)
    requires Paired(ps) && ps != [] && |p.local| >= 2
    ensures Paired(ps + [p]) && Chain(ps + [p], m) == Step(Chain(ps, m), p, m)
    ensures var prev := Chain(ps, m).vertices;
      |prev| >= 2 &&
      Chain(ps + [p], m).vertices == prev[..|prev| - 2] + Place(Chain(ps, m).pose, p.local, m) &&
      |Chain(ps + [p], m).vertices| == |prev| - 2 + |p.local|
  {
    PairedAppend(ps, p);
    assert (ps + [p])[..|ps|] == ps;
    StepWelds(Chain(ps, m), p, m);
  }

  /** The global vertex count is the total of the local counts minus two per
      weld; no pieces give no vertices. */
  lemma {:induction false} ChainCount(ps: seq<Piece>, m: Trig)
    requires Paired(ps)
    ensures ps != [] ==> |Chain(ps, m).vertices| == LocalTotal(ps) - 2 * (|ps| - 1)
    ensures ps == [] ==> Chain(ps, m).vertices == []
  {
    if ps != [] {
      var init := ps[..|ps| - 1];
      ChainCount(init, m);
      StepWelds(Chain(init, m), ps[|ps| - 1], m);
    }
  }

  /** The heading is the sum of the turns processed so far, and the position
      is the midpoint of the last two global vertices. */
  lemma {:induction false} ChainPose(ps: seq<Piece>, m: Trig)
    requires Paired(ps)
    ensures Chain(ps, m).pose.heading == TurnTotal(ps)
    ensures ps == [] ==> Chain(ps, m).pose == StartPose
    ensures ps != [] ==>
      var vs := Chain(ps, m).vertices;
      |vs| >= 2 && Chain(ps, m).pose.position == Midpoint(vs[|vs| - 2], vs[|vs| - 1])
  {
    if ps != [] {
      ChainPose(ps[..|ps| - 1], m);
    }
  }

  /** Later pieces never touch earlier vertices except the two welded ones:
      everything before the trailing pair after i pieces stays in place in the
      final list. */
  lemma {:induction false} ChainKeepsEarlier(ps: seq<Piece>, i: nat, m: Trig)
    requires Paired(ps) && 1 <= i <= |ps|
    ensures Paired(ps[..i])
    ensures var p := Chain(ps[..i], m).vertices; var vs := Chain(ps, m).vertices;
      2 <= |p| <= |vs| && vs[..|p| - 2] == p[..|p| - 2]
  {
    PairedPrefix(ps, i);
    if i == |ps| {
      assert ps[..i] == ps;
    } else {
      var init := ps[..|ps| - 1];
      PairedPrefix(ps, |ps| - 1);
      assert init[..i] == ps[..i];
      ChainKeepsEarlier(init, i, m);
      StepKeeps(ps, m);
      var p := Chain(ps[..i], m).vertices;
      var q := Chain(init, m).vertices;
      var vs := Chain(ps, m).vertices;
      assert 2 <= |p| <= |q| && q[..|p| - 2] == p[..|p| - 2];
      assert 2 <= |q| <= |vs| && vs[..|q| - 2] == q[..|q| - 2];
      KeepPrefix(vs, q, p);
    }
  }

  /** The last step keeps all but the trailing pair of the list before it. */
  lemma StepKeeps(ps: seq<Piece>, m: Trig)
    requires Paired(ps) && |ps| >= 2
    ensures Paired(ps[..|ps| - 1])
    ensures var q := Chain(ps[..|ps| - 1], m).vertices; var vs := Chain(ps, m).vertices;
      2 <= |q| <= |vs| && vs[..|q| - 2] == q[..|q| - 2]
  {
    PairedPrefix(ps, |ps| - 1);
    StepWelds(Chain(ps[..|ps| - 1], m), ps[|ps| - 1], m);
  }

  /** Prefixes of a common prefix agree. */
  lemma KeepPrefix(vs: seq<Vec3>, q: seq<Vec3>, p: seq<Vec3>)
    requires 2 <= |p| <= |q| <= |vs|
    requires vs[..|q| - 2] == q[..|q| - 2] && q[..|p| - 2] == p[..|p| - 2]
    ensures vs[..|p| - 2] == p[..|p| - 2]
  {
    assert vs[..|p| - 2] == vs[..|q| - 2][..|p| - 2];
  }

  // ---- Segments as pieces ----

  /** The piece a segment contributes. */
  function PieceOf(s: SegmentSpec, m: Trig): (p: Piece)
    ensures |p.local| == 2 * Stations(s) && p.turn == s.theta
  {
    Piece(SegmentVertices(s, m), s.theta)
  }

  /** The pieces of a segment list, in order. */
  function Pieces(specs: seq<SegmentSpec>, m: Trig): (r: seq<Piece>)
    ensures |r| == |specs| && Paired(r)
    ensures forall j :: 0 <= j < |specs| ==> r[j] == PieceOf(specs[j], m)
  {
    seq(|specs|, j requires 0 <= j < |specs| => PieceOf(specs[j], m))
  }

  /** The vertex list and final pose after processing the segments in order. */
  function Assemble(specs: seq<SegmentSpec>, m: Trig): (r: Assembly)
    ensures specs != [] ==> |r.vertices| >= 2
  {
    Chain(Pieces(specs, m), m)
  }

  /** The number of stations all segments produce together. */
  function TotalStations(specs: seq<SegmentSpec>): nat
  {
    if specs == [] then 0 else TotalStations(specs[..|specs| - 1]) + Stations(specs[|specs| - 1])
  }

  /** The sum of the segments' turn angles. */
  function TotalTurn(specs: seq<SegmentSpec>): real
  {
    if specs == [] then 0.0 else TotalTurn(specs[..|specs| - 1]) + specs[|specs| - 1].theta
  }

  /** The pieces of a prefix are the prefix of the pieces. */
  lemma PiecesPrefix(specs: seq<SegmentSpec>, i: nat, m: Trig)
    requires i <= |specs|
    ensures Pieces(specs, m)[..i] == Pieces(specs[..i], m)
  {
  }

  /** The pieces carry two local vertices per station and the segments'
      turns. */
  lemma {:induction false} PiecesTotals(specs: seq<SegmentSpec>, m: Trig)
    ensures LocalTotal(Pieces(specs, m)) == 2 * TotalStations(specs)
    ensures TurnTotal(Pieces(specs, m)) == TotalTurn(specs)
  {
    if specs != [] {
      var n := |specs| - 1;
      PiecesTotals(specs[..n], m);
      PiecesPrefix(specs, n, m);
    }
  }

  /** The global vertex count is the sum of the segments' counts minus two
      per weld, so it is always even. */
  lemma VertexCount(specs: seq<SegmentSpec>, m: Trig)
    ensures specs != [] ==>
      |Assemble(specs, m).vertices| == 2 * TotalStations(specs) - 2 * (|specs| - 1)
    ensures specs == [] ==> Assemble(specs, m).vertices == []
    ensures |Assemble(specs, m).vertices| % 2 == 0
  {
    var ps := Pieces(specs, m);
    ChainCount(ps, m);
    PiecesTotals(specs, m);
    var n := |Chain(ps, m).vertices|;
    var half := if specs == [] then 0 else TotalStations(specs) - |specs| + 1;
    assert n == 2 * half;
    DoubleIsEven(half);
  }

  lemma DoubleIsEven(k: int)
    ensures (2 * k) % 2 == 0
  {
  }

  /** After the segments, the heading is the sum of their turns and the
      position is the midpoint of the last two global vertices. */
  lemma PoseAccumulates(specs: seq<SegmentSpec>, m: Trig)
    ensures Assemble(specs, m).pose.heading == TotalTurn(specs)
    ensures specs == [] ==> Assemble(specs, m).pose == StartPose
    ensures specs != [] ==>
      var vs := Assemble(specs, m).vertices;
      |vs| >= 2 && Assemble(specs, m).pose.position == Midpoint(vs[|vs| - 2], vs[|vs| - 1])
  {
    ChainPose(Pieces(specs, m), m);
    PiecesTotals(specs, m);
  }

  /** Later segments never move the vertices of earlier ones, apart from the
      welded trailing pair. */
  lemma EarlierVerticesKept(specs: seq<SegmentSpec>, i: nat, m: Trig)
    requires 1 <= i <= |specs|
    ensures var p := Assemble(specs[..i], m).vertices; var vs := Assemble(specs, m).vertices;
      2 <= |p| && |p| - 2 <= |vs| && vs[..|p| - 2] == p[..|p| - 2]
  {
    ChainKeepsEarlier(Pieces(specs, m), i, m);
    PiecesPrefix(specs, i, m);
  }

  /** With an exact zero rotation, the first segment is placed at the origin
      unrotated: its global vertices are its local ones. */
  lemma FirstSegmentUnmoved(s: SegmentSpec, m: Trig)
    requires ExactAtZero(m)
    ensures Assemble([s], m).vertices == SegmentVertices(s, m)
  {
    var ps := Pieces([s], m);
    var local := ps[0].local;
    assert local == SegmentVertices(s, m);
    assert ps[..0] == [];
    var placed := Place(StartPose, local, m);
    forall k | 0 <= k < |local|
      ensures placed[k] == local[k]
    {
      RotateByZero(m, local[k]);
    }
    assert placed == local;
    assert Chain(ps, m).vertices == Weld([]) + placed;
  }

  /** Clamping the radii in between two builds does not change the mesh:
      rebuilding from the clamped segments gives the same vertices and pose. */
  lemma AssembleIgnoresClamp(specs: seq<SegmentSpec>, clamped: seq<SegmentSpec>, m: Trig)
    requires |clamped| == |specs|
    requires forall j :: 0 <= j < |specs| ==> clamped[j] == specs[j] || clamped[j] == Clamped(specs[j])
    ensures Assemble(clamped, m) == Assemble(specs, m)
  {
    forall j | 0 <= j < |specs|
      ensures PieceOf(clamped[j], m) == PieceOf(specs[j], m)
    {
      ClampInvisible(specs[j], m);
    }
    assert Pieces(clamped, m) == Pieces(specs, m);
  }

  /** One more segment is one more step of the loop. */
  lemma AssembleStep(specs: seq<SegmentSpec>, i: nat, m: Trig)
    requires i < |specs|
    ensures Assemble(specs[..i + 1], m) == Step(Assemble(specs[..i], m), PieceOf(specs[i], m), m)
  {
    var ps := Pieces(specs[..i + 1], m);
    assert specs[..i + 1][..i] == specs[..i];
    assert ps[..i] == Pieces(specs[..i], m);
    assert ps[i] == PieceOf(specs[i], m);
  }

  // ---- Triangles ----

  /** The two triangles of the quad between stations `i / 2` and `i / 2 + 1`. */
  function Quad(i: int): seq<int>
  {
    [i, i + 2, i + 1, i + 1, i + 2, i + 3]
  }

  /** The first q quads of the strip. */
  function QuadBlocks(q: nat): (r: seq<int>)
    ensures |r| == 6 * q
  {
    if q == 0 then [] else QuadBlocks(q - 1) + Quad(2 * (q - 1))
  }

  /** How many times `for (i = 0; i < n - 2; i += 2)` runs. */
  function QuadCount(n: nat): (q: nat)
    ensures q == 0 <==> n <= 2
    ensures q > 0 ==> 2 * (q - 1) < n - 2 <= 2 * q
  {
    if n <= 2 then 0 else (n - 1) / 2
  }

  /** The triangle list derived from a vertex count. */
  function StripIndices(n: nat): (r: seq<int>)
    ensures |r| == 6 * QuadCount(n)
    ensures n <= 2 ==> r == []
  {
    QuadBlocks(QuadCount(n))
  }

  /** Block j of the strip is the quad starting at vertex 2j, and every index
      lies below 2q + 2. */
  lemma {:induction false} QuadBlocksShape(q: nat)
    ensures forall j, c :: 0 <= j < q && 0 <= c < 6 ==> QuadBlocks(q)[6 * j + c] == Quad(2 * j)[c]
    ensures forall k :: 0 <= k < |QuadBlocks(q)| ==> 0 <= QuadBlocks(q)[k] < 2 * q + 2
  {
    if q > 0 {
      QuadBlocksShape(q - 1);
      var r := QuadBlocks(q);
      assert r == QuadBlocks(q - 1) + Quad(2 * (q - 1));
      forall j, c | 0 <= j < q && 0 <= c < 6
        ensures r[6 * j + c] == Quad(2 * j)[c]
      {
        if j < q - 1 {
          assert 6 * j + c < 6 * (q - 1);
        }
      }
    }
  }

  /** For the even vertex counts the road always has, the triangle list has
      `6 * (n / 2 - 1)` entries (none for 0 or 2 vertices), the block at each
      even vertex i is `[i, i+2, i+1, i+1, i+2, i+3]`, and every index is a
      valid vertex index. */
  lemma StripIndicesShape(n: nat)
    requires n % 2 == 0
    ensures var t := StripIndices(n);
      |t| == (if n >= 2 then 6 * (n / 2 - 1) else 0) && |t| % 3 == 0 &&
      (forall k :: 0 <= k < |t| ==> 0 <= t[k] < n) &&
      (forall j, c :: 0 <= j < |t| / 6 && 0 <= c < 6 ==> t[6 * j + c] == Quad(2 * j)[c])
  {
    var q := QuadCount(n);
    QuadBlocksShape(q);
    var h := n / 2;
    assert n == 2 * h;
    assert n >= 2 ==> q == h - 1;
    assert |StripIndices(n)| == 6 * q && (6 * q) / 6 == q;
  }

  /** The triangle loop: one quad per consecutive pair of stations. */
  method BuildTriangles(n: nat) returns (triangles: seq<int>)
    ensures triangles == StripIndices(n)
  {
    triangles := [];
    var i := 0;
    ghost var q := 0;
    while i < n - 2
      invariant i == 2 * q && q <= QuadCount(n)
      invariant triangles == QuadBlocks(q)
    {
      triangles := triangles + [i + 0];
      triangles := triangles + [i + 2];
      triangles := triangles + [i + 1];
      triangles := triangles + [i + 1];
      triangles := triangles + [i + 2];
      triangles := triangles + [i + 3];
      assert triangles == QuadBlocks(q) + Quad(i);
      i := i + 2;
      q := q + 1;
    }
  }

  // ---- Texture coordinates ----

  /** The texture coordinates of the first q stations: `(0, k)` and `(1, k)`
      for station k. */
  function StationUVs(q: nat): (r: seq<UV>)
    ensures |r| == 2 * q
  {
    if q == 0 then [] else StationUVs(q - 1) + [UV(0.0, (q - 1) as real), UV(1.0, (q - 1) as real)]
  }

  /** The UV list derived from a vertex count: `for (i = 0; i < n; i += 2)`
      runs once per station. */
  function StripUVs(n: nat): (r: seq<UV>)
    ensures |r| == n || |r| == n + 1
  {
    StationUVs((n + 1) / 2)
  }

  /** The UV of vertex k is `(k % 2, k / 2)`. */
  lemma {:induction false} StationUVsAt(q: nat, k: nat)
    requires k < 2 * q
    ensures StationUVs(q)[k] == UV((k % 2) as real, (k / 2) as real)
  {
    if k < 2 * (q - 1) {
      StationUVsAt(q - 1, k);
    }
  }

  /** For an even vertex count there is one UV per vertex; u alternates
      0, 1, 0, 1 and v is the station index, so it never decreases and rises
      by exactly 1 every two vertices. */
  lemma StripUVsShape(n: nat)
    requires n % 2 == 0
    ensures var uv := StripUVs(n);
      |uv| == n &&
      (forall k :: 0 <= k < n ==> uv[k] == UV((k % 2) as real, (k / 2) as real)) &&
      (forall k :: 0 <= k < n - 1 ==> uv[k].v <= uv[k + 1].v && uv[k + 1].u == 1.0 - uv[k].u) &&
      (forall k :: 0 <= k < n - 2 ==> uv[k + 2].v == uv[k].v + 1.0)
  {
    var uv := StripUVs(n);
    forall k | 0 <= k < n
      ensures uv[k] == UV((k % 2) as real, (k / 2) as real)
    {
      StationUVsAt((n + 1) / 2, k);
    }
  }

  /** The UV loop: two coordinates per station. */
  method BuildUVs(n: nat) returns (uvs: seq<UV>)
    ensures uvs == StripUVs(n)
  {
    uvs := [];
    var i := 0;
    while i < n
      invariant i % 2 == 0 && 0 <= i / 2 <= (n + 1) / 2
      invariant uvs == StationUVs(i / 2)
    {
      uvs := uvs + [UV(0.0, (i / 2) as real)];
      uvs := uvs + [UV(1.0, (i / 2) as real)];
      i := i + 2;
    }
  }

  /** The mesh handed to the renderer is well formed for every segment list:
      an even vertex count, one UV per vertex, a triangle list whose length is
      a multiple of three and whose every index names a vertex. */
  lemma MeshWellFormed(specs: seq<SegmentSpec>, m: Trig)
    ensures var n := |Assemble(specs, m).vertices|; var t := StripIndices(n);
      n % 2 == 0 && |StripUVs(n)| == n && |t| % 3 == 0 &&
      (forall k :: 0 <= k < |t| ==> 0 <= t[k] < n)
  {
    VertexCount(specs, m);
    var n := |Assemble(specs, m).vertices|;
    StripIndicesShape(n);
    StripUVsShape(n);
  }

  /** The current field values of a list of segment objects. */
  function SpecsOf(segments: seq<RoadSegment>): (r: seq<SegmentSpec>)
    reads set s | s in segments
    ensures |r| == |segments|
    ensures forall j :: 0 <= j < |segments| ==> r[j] == segments[j].Spec()
  {
    seq(|segments|, j requires 0 <= j < |segments| reads set s | s in segments => segments[j].Spec())
  }

  /** The road object: its segment list and the three mesh lists it builds. */
  class RoadScript {
    var segments: seq<RoadSegment>
    var vertices: seq<Vec3>
    var triangles: seq<int>
    var uvs: seq<UV>

    constructor (segments: seq<RoadSegment>)
      ensures this.segments == segments
      ensures vertices == [] && triangles == [] && uvs == []
    {
      this.segments := segments;
      vertices, triangles, uvs := [], [], [];
    }

    /** `makeVerticesFromSegments`: chains the segments into one strip and
        derives the triangles and UVs from it. Every segment's radius ends up
        clamped, which by `AssembleIgnoresClamp` leaves a second build's
        vertices equal to the first's. */
    method MakeVerticesFromSegments(m: Trig)
      modifies this`vertices, this`triangles, this`uvs, set s | s in segments
      ensures vertices == Assemble(old(SpecsOf(segments)), m).vertices
      ensures triangles == StripIndices(|vertices|)
      ensures uvs == StripUVs(|vertices|)
      ensures forall j :: 0 <= j < |segments| ==>
        segments[j].Spec() == Clamped(old(segments[j].Spec()))
    {
      var vs := ChainSegments(segments, m);
      var ts := BuildTriangles(|vs|);
      var us := BuildUVs(|vs|);
      vertices, triangles, uvs := vs, ts, us;
    }
  }

  /** The segment loop of `makeVerticesFromSegments`: the segments' local
      lists welded into one global list, every segment's radius clamped on
      the way. A segment listed twice is clamped on its first visit, which
      leaves its vertices unchanged for the second. */
  method ChainSegments(segs: seq<RoadSegment>, m: Trig) returns (vs: seq<Vec3>)
    modifies set s | s in segs
    ensures vs == Assemble(old(SpecsOf(segs)), m).vertices
    ensures forall j :: 0 <= j < |segs| ==> segs[j].Spec() == Clamped(old(segs[j].Spec()))
  {
    ghost var specs := SpecsOf(segs);
    var pos := Origin;
    var heading := 0.0;
    vs := [];
    var i := 0;
    ghost var done: set<RoadSegment> := {};
    while i < |segs|
      invariant 0 <= i <= |segs|
      invariant forall k :: 0 <= k < i ==> segs[k] in done
      invariant forall j, k :: 0 <= j < |segs| && 0 <= k < |segs| && segs[j] == segs[k] ==> specs[j] == specs[k]
      invariant forall j :: 0 <= j < |segs| ==>
        segs[j].Spec() == if segs[j] in done then Clamped(specs[j]) else specs[j]
      invariant Assembly(vs, Pose(pos, heading)) == Assemble(specs[..i], m)
    {
      var seg := segs[i];
      var local := VisitSegment(segs, i, specs, done, m);
      done := done + {seg};
      assert forall k :: 0 <= k < i + 1 ==> segs[k] in done;
      AssembleStep(specs, i, m);
      vs, pos, heading := ExtendStrip(vs, pos, heading, local, seg.theta, m);
      i := i + 1;
    }
    assert specs[..|segs|] == specs;
  }

  /** The segment loop's call of `makeVertices` on segment i: it yields the
      piece of the segment's entry values and clamps that segment, wherever it
      occurs in the list, and no other. */
  method VisitSegment(segs: seq<RoadSegment>, i: nat, ghost specs: seq<SegmentSpec>, ghost done: set<RoadSegment>, m: Trig)
    returns (local: seq<Vec3>)
    requires i < |segs| == |specs|
    requires forall j :: 0 <= j < |segs| && segs[j] == segs[i] ==> specs[j] == specs[i]
    requires forall j :: 0 <= j < |segs| ==>
      segs[j].Spec() == if segs[j] in done then Clamped(specs[j]) else specs[j]
    modifies segs[i]
    ensures PieceOf(specs[i], m) == Piece(local, segs[i].theta)
    ensures forall j :: 0 <= j < |segs| ==>
      segs[j].Spec() == if segs[j] in done + {segs[i]} then Clamped(specs[j]) else specs[j]
  {
    var seg := segs[i];
    label Before:
    local := seg.MakeVertices(m);
    forall j | 0 <= j < |segs|
      ensures segs[j].Spec() == if segs[j] in done + {seg} then Clamped(specs[j]) else specs[j]
    {
      if segs[j] == seg {
        assert specs[j] == specs[i];
      } else {
        assert segs[j].Spec() == old@Before(segs[j].Spec());
      }
    }
    ClampInvisible(specs[i], m);
  }

  /** The body of the segment loop after the segment's `makeVertices`: drop
      the trailing pair, append the placed local vertices, then move the pose
      to the new trailing pair and add the turn. */
  method ExtendStrip(before: seq<Vec3>, pos: Vec3, heading: real, local: seq<Vec3>, turn: real, m: Trig)
    returns (vertices: seq<Vec3>, pos': Vec3, heading': real)
    requires |local| >= 2
    ensures Assembly(vertices, Pose(pos', heading'))
      == Step(Assembly(before, Pose(pos, heading)), Piece(local, turn), m)
  {
    vertices := before;
    if |vertices| > 1 {
      vertices := vertices[..|vertices| - 2];
    }
    ghost var kept := vertices;
    var k := 0;
    while k < |local|
      invariant 0 <= k <= |local|
      invariant vertices == kept + Place(Pose(pos, heading), local[..k], m)
    {
      vertices := vertices + [Plus(RotateY(m, heading, local[k]), pos)];
      k := k + 1;
    }
    assert local[..k] == local;
    pos' := Midpoint(vertices[|vertices| - 2], vertices[|vertices| - 1]);
    heading' := heading + turn;
  }
}
