/** Worked cases of the road builder: a straight segment, a quarter turn, a
    clamped radius, two chained straights and an empty road. */
module RoadScenarios {
  import opened Geometry
  import opened RoadSegments
  import opened RoadMesh

  /** A segment's vertex count: two for the seed, two for a straight part,
      and two per facet plus two for the exact final pair of a turn. */
  lemma SegmentVertexCount(s: SegmentSpec, m: Trig)
    ensures var n := |SegmentVertices(s, m)|;
      n == 2 + (if s.length > 0.0 then 2 else 0) + (if s.theta != 0.0 then 2 * (ArcSteps(s.theta) + 1) else 0) &&
      n >= 2 && n % 2 == 0
  {
    var n := |SegmentVertices(s, m)|;
    assert n == 2 * Stations(s);
    DoubleIsEven(Stations(s));
  }

  /** A 90 degree turn is 18 facets and the exact final pair. */
  lemma QuarterTurnSteps()
    ensures ArcSteps(90.0) == 18 && ArcSteps(-90.0) == 18
  {
    assert 90.0 / 5.0 == 18.0;
    assert -(-90.0) / 5.0 == 18.0;
  }

  /** A straight segment's local list is its leading and trailing edge. */
  lemma StraightVertices(s: SegmentSpec, m: Trig)
    requires s.theta == 0.0 && s.length > 0.0
    ensures SegmentVertices(s, m) == [Vec3(-s.width, 0.0, 0.0), Vec3(s.width, 0.0, 0.0),
      Vec3(-s.width, 0.0, s.length), Vec3(s.width, 0.0, s.length)]
  {
    SegmentStart(s, m);
  }

  /** A straight road of one segment lies unrotated at the origin, and the
      next segment would start at the centre of its trailing edge. */
  lemma SingleStraight(s: SegmentSpec, m: Trig)
    requires ExactAtZero(m) && s.theta == 0.0 && s.length > 0.0
    ensures Assemble([s], m) == Assembly(SegmentVertices(s, m), Pose(Vec3(0.0, 0.0, s.length), 0.0))
  {
    StraightVertices(s, m);
    FirstSegmentUnmoved(s, m);
    PoseAccumulates([s], m);
    assert [s][..0] == [];
  }

  /** The straight segment of length 10 and half-width 2 from z = 0 to z = 10. */
  lemma StraightSegment(s: SegmentSpec, m: Trig)
    requires ExactAtZero(m) && s == SegmentSpec(10.0, 0.0, 0.0, 2.0)
    ensures Assemble([s], m).vertices
      == [Vec3(-2.0, 0.0, 0.0), Vec3(2.0, 0.0, 0.0), Vec3(-2.0, 0.0, 10.0), Vec3(2.0, 0.0, 10.0)]
  {
    StraightVertices(s, m);
    SingleStraight(s, m);
  }

  /** Four vertices are meshed as one quad, with UVs over two stations. */
  lemma OneQuad()
    ensures StripIndices(4) == [0, 2, 1, 1, 2, 3]
    ensures StripUVs(4) == [UV(0.0, 0.0), UV(1.0, 0.0), UV(0.0, 1.0), UV(1.0, 1.0)]
  {
    assert QuadCount(4) == 1;
    assert StationUVs(2) == StationUVs(1) + [UV(0.0, 1.0), UV(1.0, 1.0)];
  }

  /** A quarter turn to the right of radius 10 and half-width 1: 40 vertices,
      ending at (10, 0, 11) and (10, 0, 9) when cosine and sine of the right
      angle are exact. */
  lemma QuarterTurn(m: Trig)
    requires Cos(m, 90.0 * m.deg2rad) == 0.0 && Sin(m, 90.0 * m.deg2rad) == 1.0
    ensures var v := SegmentVertices(SegmentSpec(0.0, 10.0, 90.0, 1.0), m);
      |v| == 40 && v[38] == Vec3(10.0, 0.0, 11.0) && v[39] == Vec3(10.0, 0.0, 9.0)
  {
    var s := SegmentSpec(0.0, 10.0, 90.0, 1.0);
    QuarterTurnSteps();
    SegmentVertexCount(s, m);
    FinalPairExact(s, m);
    var v := SegmentVertices(s, m);
    var t := 90.0 * m.deg2rad;
    assert v[38..] == ClockwisePair(10.0, 1.0, 0.0, t, m);
    assert v[38] == v[38..][0] && v[39] == v[38..][1];
  }

  /** A radius of 0.5 under a half-width of 2 builds the same turn as a
      radius of 2. */
  lemma SmallRadiusClamped(m: Trig)
    ensures SegmentVertices(SegmentSpec(0.0, 0.5, 10.0, 2.0), m)
      == SegmentVertices(SegmentSpec(0.0, 2.0, 10.0, 2.0), m)
  {
    ClampInvisible(SegmentSpec(0.0, 0.5, 10.0, 2.0), m);
  }

  /** Placing with heading zero is a pure translation. */
  lemma PlaceUnrotated(p: Pose, local: seq<Vec3>, m: Trig)
    requires ExactAtZero(m) && p.heading == 0.0
    ensures forall k :: 0 <= k < |local| ==> Place(p, local, m)[k] == Plus(local[k], p.position)
  {
    forall k | 0 <= k < |local|
      ensures Place(p, local, m)[k] == Plus(local[k], p.position)
    {
      RotateByZero(m, local[k]);
    }
  }

  /** The second of two equal straight segments is welded onto the first's
      trailing edge and placed at its centre, unrotated. */
  lemma StraightAfterStraight(s: SegmentSpec, m: Trig)
    requires ExactAtZero(m) && s.theta == 0.0 && s.length > 0.0
    ensures var local := SegmentVertices(s, m);
      Assemble([s, s], m).vertices == local[..2] + Place(Pose(Vec3(0.0, 0.0, s.length), 0.0), local, m)
  {
    SingleStraight(s, m);
    AssembleStep([s, s], 1, m);
    assert [s, s][..1] == [s] && [s, s][..2] == [s, s];
  }

  /** Two equal straight segments share their joint: 6 vertices, not 8, at
      z = 0, the length and twice the length (for length 5 and half-width 1,
      at z = 0, 5 and 10). */
  lemma TwoStraights(s: SegmentSpec, m: Trig)
    requires ExactAtZero(m) && s.theta == 0.0 && s.length > 0.0
    ensures var w := s.width; var l := s.length;
      Assemble([s, s], m).vertices == [Vec3(-w, 0.0, 0.0), Vec3(w, 0.0, 0.0),
        Vec3(-w, 0.0, l), Vec3(w, 0.0, l), Vec3(-w, 0.0, l + l), Vec3(w, 0.0, l + l)]
  {
    var w := s.width;
    var l := s.length;
    var local := SegmentVertices(s, m);
    StraightVertices(s, m);
    StraightAfterStraight(s, m);
    var pose := Pose(Vec3(0.0, 0.0, l), 0.0);
    var placed := Place(pose, local, m);
    PlaceUnrotated(pose, local, m);
    assert placed == [Vec3(-w, 0.0, l), Vec3(w, 0.0, l), Vec3(-w, 0.0, l + l), Vec3(w, 0.0, l + l)];
  }

  /** No segments: no vertices, no triangles, no UVs. */
  lemma EmptyRoad(m: Trig)
    ensures Assemble([], m) == Assembly([], StartPose)
    ensures StripIndices(0) == [] && StripUVs(0) == []
  {
  }
}
