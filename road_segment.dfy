/** One road segment and the local vertex list it produces
    (`RoadSegment.makeVertices` in Assets/Scripts/RoadScript.cs). */
module RoadSegments {
  import opened Geometry

  /** The values of a segment's four fields: straight length, turn radius,
      turn angle in degrees (positive is clockwise) and half of the road width. */
  datatype SegmentSpec = SegmentSpec(length: real, radius: real, theta: real, width: real)

  /** The minimum turning radius rule: a radius below the half-width is raised to it. */
  function ClampRadius(radius: real, width: real): (r: real)
    ensures r >= width && r >= radius
    ensures r == radius || r == width
  {
    if radius < width then width else radius
  }

  /** The segment as it is after its radius has been clamped. */
  function Clamped(s: SegmentSpec): (c: SegmentSpec)
    ensures c.length == s.length && c.theta == s.theta && c.width == s.width
    ensures c.radius >= c.width
    ensures s.radius >= s.width ==> c == s
  {
    s.(radius := ClampRadius(s.radius, s.width))
  }

  /** C#'s `(int)` cast of a real: truncation toward zero. */
  function Truncate(x: real): (n: int)
    ensures 0.0 <= x ==> 0 <= n
  {
    if x >= 0.0 then x.Floor else -((-x).Floor)
  }

  /** The cast keeps the integer part: it never moves away from zero and
      drops less than one. */
  lemma TruncateBounds(x: real)
    ensures 0.0 <= x ==> Truncate(x) as real <= x < Truncate(x) as real + 1.0
    ensures x < 0.0 ==> Truncate(x) as real - 1.0 < x <= Truncate(x) as real
  {
  }

  /** The number of subdivided facets before the exact final pair: the loop
      bound `(int)(theta / DIV_THETA)`, or `(int)(-theta / DIV_THETA)` for a
      counter-clockwise turn, where `DIV_THETA` is 5 degrees. */
  function ArcSteps(theta: real): (n: nat)
    ensures theta == 0.0 ==> n == 0
  {
    if theta > 0.0 then Truncate(theta / 5.0)
    else if theta < 0.0 then Truncate(-theta / 5.0)
    else 0
  }

  /** The facets are the whole multiples of the 5 degree step that fit in
      the turn: `5 * n <= |theta| < 5 * (n + 1)`. */
  lemma ArcStepsBounds(theta: real)
    ensures theta != 0.0 ==>
      5.0 * ArcSteps(theta) as real <= Abs(theta) < 5.0 * (ArcSteps(theta) as real + 1.0)
    ensures theta == 0.0 ==> ArcSteps(theta) == 0
  {
    if theta > 0.0 {
      TruncateBounds(theta / 5.0);
    } else if theta < 0.0 {
      TruncateBounds(-theta / 5.0);
    }
  }

  /** A turn has as many facets to the left as to the right. */
  lemma ArcStepsSymmetric(theta: real)
    ensures ArcSteps(-theta) == ArcSteps(theta)
  {
  }

  function Abs(x: real): real
  {
    if x < 0.0 then -x else x
  }

  /** The leading edge at local z = 0, left then right. */
  function Seed(width: real): (r: seq<Vec3>)
    ensures |r| == 2 && r[0].z == 0.0 && r[1].z == 0.0
  {
    [Vec3(-width, 0.0, 0.0), Vec3(width, 0.0, 0.0)]
  }

  /** The trailing edge of the straight run, present only for a positive length. */
  function Straight(length: real, width: real): (r: seq<Vec3>)
    ensures |r| == if length > 0.0 then 2 else 0
    ensures length > 0.0 ==> r[0].z == length && r[1].z == length
  {
    if length > 0.0 then [Vec3(-width, 0.0, length), Vec3(width, 0.0, length)] else []
  }

  /** The road's centre line starts at the segment's origin, and the straight
      part ends on the forward axis at z = length. */
  lemma EdgeCentres(width: real, length: real)
    ensures Midpoint(Seed(width)[0], Seed(width)[1]) == Origin
    ensures length > 0.0 ==>
      Midpoint(Straight(length, width)[0], Straight(length, width)[1]) == Vec3(0.0, 0.0, length)
  {
  }

  /** The outer vertex of a clockwise turn at angle t (radians), on a circle
      of radius `radius + width` centred at `(radius, 0, length)`. */
  function ClockwiseOuter(radius: real, width: real, length: real, t: real, m: Trig): (v: Vec3)
    ensures v.y == 0.0
    ensures Cos(m, t) == 1.0 && Sin(m, t) == 0.0 ==> v == Vec3(-width, 0.0, length)
  {
    Vec3(radius - (radius + width) * Cos(m, t), 0.0, (radius + width) * Sin(m, t) + length)
  }

  /** The inner vertex of a clockwise turn, on the circle of radius `radius - width`. */
  function ClockwiseInner(radius: real, width: real, length: real, t: real, m: Trig): (v: Vec3)
    ensures v.y == 0.0
    ensures Cos(m, t) == 1.0 && Sin(m, t) == 0.0 ==> v == Vec3(width, 0.0, length)
  {
    Vec3(radius - (radius - width) * Cos(m, t), 0.0, (radius - width) * Sin(m, t) + length)
  }

  /** The inner vertex of a counter-clockwise turn, centred at `(-radius, 0, length)`. */
  function CounterClockwiseInner(radius: real, width: real, length: real, t: real, m: Trig): (v: Vec3)
    ensures v.y == 0.0
    ensures Cos(m, t) == 1.0 && Sin(m, t) == 0.0 ==> v == Vec3(-width, 0.0, length)
  {
    Vec3(-radius + (radius - width) * Cos(m, t), 0.0, (radius - width) * Sin(m, t) + length)
  }

  /** The outer vertex of a counter-clockwise turn. */
  function CounterClockwiseOuter(radius: real, width: real, length: real, t: real, m: Trig): (v: Vec3)
    ensures v.y == 0.0
    ensures Cos(m, t) == 1.0 && Sin(m, t) == 0.0 ==> v == Vec3(width, 0.0, length)
  {
    Vec3(-radius + (radius + width) * Cos(m, t), 0.0, (radius + width) * Sin(m, t) + length)
  }

  /** A clockwise arc pair at angle t: outer vertex (the left edge), then inner. */
  function ClockwisePair(radius: real, width: real, length: real, t: real, m: Trig): seq<Vec3>
  {
    [ClockwiseOuter(radius, width, length, t, m), ClockwiseInner(radius, width, length, t, m)]
  }

  /** A counter-clockwise arc pair at angle t: inner vertex (the left edge), then outer. */
  function CounterClockwisePair(radius: real, width: real, length: real, t: real, m: Trig): seq<Vec3>
  {
    [CounterClockwiseInner(radius, width, length, t, m), CounterClockwiseOuter(radius, width, length, t, m)]
  }

  /** The arc pair of segment s at angle t, in the turn's own direction. */
  function ArcPair(s: SegmentSpec, t: real, m: Trig): seq<Vec3>
  {
    if s.theta > 0.0 then ClockwisePair(s.radius, s.width, s.length, t, m)
    else CounterClockwisePair(s.radius, s.width, s.length, t, m)
  }

  /** The angle of the i-th subdivided facet, `DIV_THETA * i` degrees in radians. */
  function StepAngle(i: nat, m: Trig): (a: real)
    ensures i == 0 ==> a == 0.0
  {
    (5.0 * i as real) * m.deg2rad
  }

  /** Consecutive facets are one 5 degree step apart. */
  lemma StepAngleSpacing(i: nat, m: Trig)
    ensures StepAngle(i + 1, m) == StepAngle(i, m) + 5.0 * m.deg2rad
  {
  }

  /** The exact final angle of the turn, `theta` (or `-theta`) degrees in radians. */
  function FinalAngle(theta: real, m: Trig): (a: real)
    ensures a == Abs(theta) * m.deg2rad
  {
    if theta > 0.0 then theta * m.deg2rad else -theta * m.deg2rad
  }

  /** The first n subdivided facet pairs of the arc of s. */
  function ArcFacets(s: SegmentSpec, n: nat, m: Trig): (r: seq<Vec3>)
    ensures |r| == 2 * n
  {
    if n == 0 then [] else ArcFacets(s, n - 1, m) + ArcPair(s, StepAngle(n - 1, m), m)
  }

  /** One more facet is one more pair, in the turn's own direction. */
  lemma FacetStep(s: SegmentSpec, i: nat, m: Trig)
    requires s.theta != 0.0
    ensures ArcFacets(s, i + 1, m) == ArcFacets(s, i, m) +
      if s.theta > 0.0 then ClockwisePair(s.radius, s.width, s.length, StepAngle(i, m), m)
      else CounterClockwisePair(s.radius, s.width, s.length, StepAngle(i, m), m)
  {
  }

  /** The curve part of a segment whose radius is already clamped. */
  function ArcVertices(s: SegmentSpec, m: Trig): seq<Vec3>
  {
    if s.theta == 0.0 then []
    else ArcFacets(s, ArcSteps(s.theta), m) + ArcPair(s, FinalAngle(s.theta, m), m)
  }

  /** The number of left/right pairs (stations) of a segment: the seed, the
      straight end for a positive length, and for a turn its subdivided facets
      and the exact final pair. */
  function Stations(s: SegmentSpec): nat
  {
    1 + (if s.length > 0.0 then 1 else 0) + (if s.theta != 0.0 then ArcSteps(s.theta) + 1 else 0)
  }

  /** The local vertex list `makeVertices` returns for a segment with these
      field values: the seed pair, the straight pair, then the arc, with the
      radius clamped first. It holds one left and one right vertex per station;
      a 90 degree turn without a straight part, for one, has 40 vertices. */
  function SegmentVertices(s: SegmentSpec, m: Trig): (r: seq<Vec3>)
    ensures |r| == 2 * Stations(s)
  {
    Seed(s.width) + Straight(s.length, s.width) + ArcVertices(Clamped(s), m)
  }

  /** The k-th subdivided pair sits at exactly k times the step angle,
      whatever the number of facets that follow it. */
  lemma {:induction false} ArcFacetAt(s: SegmentSpec, n: nat, k: nat, m: Trig)
    requires k < n
    ensures ArcFacets(s, n, m)[2 * k] == ArcPair(s, StepAngle(k, m), m)[0]
    ensures ArcFacets(s, n, m)[2 * k + 1] == ArcPair(s, StepAngle(k, m), m)[1]
  {
    if k < n - 1 {
      ArcFacetAt(s, n - 1, k, m);
    }
  }

  /** Every segment starts with its seed pair; a positive length adds the
      straight pair right after it; a segment without a turn is nothing more. */
  lemma SegmentStart(s: SegmentSpec, m: Trig)
    ensures SegmentVertices(s, m)[..2] == [Vec3(-s.width, 0.0, 0.0), Vec3(s.width, 0.0, 0.0)]
    ensures s.length > 0.0 ==>
      SegmentVertices(s, m)[2..4] == [Vec3(-s.width, 0.0, s.length), Vec3(s.width, 0.0, s.length)]
    ensures s.theta == 0.0 ==> SegmentVertices(s, m) == Seed(s.width) + Straight(s.length, s.width)
  {
    var v := SegmentVertices(s, m);
    assert v == Seed(s.width) + Straight(s.length, s.width) + ArcVertices(Clamped(s), m);
    assert v[..2] == Seed(s.width);
    if s.length > 0.0 {
      assert v[2..4] == Straight(s.length, s.width);
    }
  }

  /** The last pair of a turning segment is the arc formula evaluated at the
      exact turn angle: outer/inner for a clockwise turn, inner/outer for a
      counter-clockwise one, with the clamped radius. */
  lemma FinalPairExact(s: SegmentSpec, m: Trig)
    requires s.theta != 0.0
    ensures var v := SegmentVertices(s, m); var r := ClampRadius(s.radius, s.width);
      v[|v| - 2..] == if s.theta > 0.0
        then ClockwisePair(r, s.width, s.length, s.theta * m.deg2rad, m)
        else CounterClockwisePair(r, s.width, s.length, -s.theta * m.deg2rad, m)
  {
    var v := SegmentVertices(s, m);
    var c := Clamped(s);
    var pre := Seed(s.width) + Straight(s.length, s.width) + ArcFacets(c, ArcSteps(s.theta), m);
    var last := ArcPair(c, FinalAngle(s.theta, m), m);
    assert v == pre + last;
    assert v[|v| - 2..] == last;
    assert c.radius == ClampRadius(s.radius, s.width);
    assert c.theta == s.theta && c.width == s.width && c.length == s.length;
    if s.theta > 0.0 {
      assert FinalAngle(s.theta, m) == s.theta * m.deg2rad;
      assert last == ClockwisePair(c.radius, s.width, s.length, s.theta * m.deg2rad, m);
    } else {
      assert FinalAngle(s.theta, m) == -s.theta * m.deg2rad;
      assert last == CounterClockwisePair(c.radius, s.width, s.length, -s.theta * m.deg2rad, m);
    }
  }

  /** Every subdivided facet lies strictly inside the turn, and the last one is
      less than two steps short of it. */
  lemma StepAnglesWithinTurn(theta: real, k: nat)
    requires k < ArcSteps(theta)
    ensures 5.0 * k as real < Abs(theta)
    ensures k + 1 == ArcSteps(theta) ==> Abs(theta) - 5.0 * k as real < 10.0
  {
    ArcStepsBounds(theta);
  }

  /** The angle-zero facet of a turn that has at least one facet repeats the
      station just before it: the seed pair when the length is zero, the
      straight pair when it is positive (a zero-area quad in the strip). */
  lemma FirstFacetRepeatsStation(s: SegmentSpec, m: Trig)
    requires ExactAtZero(m)
    requires s.length >= 0.0 && s.theta != 0.0 && ArcSteps(s.theta) >= 1
    ensures var v := SegmentVertices(s, m); var j := if s.length > 0.0 then 4 else 2;
      |v| >= j + 2 && v[j] == v[j - 2] && v[j + 1] == v[j - 1]
  {
    var v := SegmentVertices(s, m);
    var c := Clamped(s);
    var j := if s.length > 0.0 then 4 else 2;
    var pre := Seed(s.width) + Straight(s.length, s.width);
    assert |pre| == j;
    var arc := ArcFacets(c, ArcSteps(s.theta), m) + ArcPair(c, FinalAngle(s.theta, m), m);
    assert v == pre + arc;
    ArcFacetAt(c, ArcSteps(s.theta), 0, m);
    assert StepAngle(0, m) == 0.0;
    assert v[j] == arc[0] && v[j + 1] == arc[1];
    assert v[j] == Vec3(-s.width, 0.0, s.length);
  }

  /** Clamping does not change the vertices: a segment with a radius below its
      half-width yields exactly what it yields with radius equal to the
      half-width, so generating twice gives the same list. */
  lemma ClampInvisible(s: SegmentSpec, m: Trig)
    ensures SegmentVertices(Clamped(s), m) == SegmentVertices(s, m)
    ensures s.radius < s.width ==> SegmentVertices(s, m) == SegmentVertices(s.(radius := s.width), m)
  {
  }

  /** A road segment whose fields the inspector sets and whose radius
      `makeVertices` overwrites. */
  class RoadSegment {
    var length: real
    var radius: real
    var theta: real
    var width: real

    /** A new segment with the field initialisers' values. */
    constructor ()
      ensures length == 0.0 && radius == 0.0 && theta == 0.0 && width == 1.6
    {
      length, radius, theta, width := 0.0, 0.0, 0.0, 1.6;
    }

    /** The segment's current field values. */
    function Spec(): SegmentSpec
      reads this
    {
      SegmentSpec(length, radius, theta, width)
    }

    /** `makeVertices`: builds the local vertex list and, on the way, raises
        the radius field to the half-width when it is below it. */
    method MakeVertices(m: Trig) returns (vertices: seq<Vec3>)
      modifies this
      ensures Spec() == Clamped(old(Spec()))
      ensures radius >= width && (old(radius) >= width ==> radius == old(radius))
      ensures vertices == SegmentVertices(old(Spec()), m)
    {
      vertices := [];
      vertices := vertices + [Vec3(-width, 0.0, 0.0)];
      vertices := vertices + [Vec3(width, 0.0, 0.0)];

      if length > 0.0 {
        vertices := vertices + [Vec3(-width, 0.0, length)];
        vertices := vertices + [Vec3(width, 0.0, length)];
      }
      assert vertices == Seed(width) + Straight(length, width);

      if radius < width {
        radius := width;
      }
      assert Spec() == Clamped(old(Spec()));

      if theta > 0.0 {
        vertices := AddClockwiseArc(vertices, m);
      } else if theta < 0.0 {
        vertices := AddCounterClockwiseArc(vertices, m);
      }
    }

    /** The clockwise branch of `makeVertices`: outer/inner pairs at the
        subdivided angles, then at `theta` exactly. */
    method AddClockwiseArc(before: seq<Vec3>, m: Trig) returns (vertices: seq<Vec3>)
      requires theta > 0.0
      ensures vertices == before + ArcVertices(Spec(), m)
    {
      vertices := AddClockwiseFacets(before, m);
      var t := theta * m.deg2rad;
      ghost var previous := vertices;
      var vOut := ClockwiseOuter(radius, width, length, t, m);
      vertices := vertices + [vOut];
      var vIn := ClockwiseInner(radius, width, length, t, m);
      vertices := vertices + [vIn];
      assert t == FinalAngle(theta, m) && ArcPair(Spec(), t, m) == ClockwisePair(radius, width, length, t, m);
      assert vertices == previous + ClockwisePair(radius, width, length, t, m);
    }

    /** The subdivision loop of the clockwise branch: one pair per whole
        5 degree step of the turn. */
    method AddClockwiseFacets(before: seq<Vec3>, m: Trig) returns (vertices: seq<Vec3>)
      requires theta > 0.0
      ensures vertices == before + ArcFacets(Spec(), ArcSteps(theta), m)
    {
      vertices := before;
      var i := 0;
      while i < Truncate(theta / 5.0)
        invariant 0 <= i <= ArcSteps(theta)
        invariant vertices == before + ArcFacets(Spec(), i, m)
      {
        var t := (5.0 * i as real) * m.deg2rad;
        ghost var previous := vertices;
        var vOut := ClockwiseOuter(radius, width, length, t, m);
        vertices := vertices + [vOut];
        var vIn := ClockwiseInner(radius, width, length, t, m);
        vertices := vertices + [vIn];
        assert t == StepAngle(i, m);
        FacetStep(Spec(), i, m);
        assert vertices == previous + ClockwisePair(radius, width, length, t, m);
        i := i + 1;
      }
    }

    /** The counter-clockwise branch of `makeVertices`: inner/outer pairs at
        the subdivided angles of `-theta`, then at `-theta` exactly. */
    method AddCounterClockwiseArc(before: seq<Vec3>, m: Trig) returns (vertices: seq<Vec3>)
      requires theta < 0.0
      ensures vertices == before + ArcVertices(Spec(), m)
    {
      vertices := AddCounterClockwiseFacets(before, m);
      var t := -theta * m.deg2rad;
      ghost var previous := vertices;
      var vIn := CounterClockwiseInner(radius, width, length, t, m);
      vertices := vertices + [vIn];
      var vOut := CounterClockwiseOuter(radius, width, length, t, m);
      vertices := vertices + [vOut];
      assert t == FinalAngle(theta, m) && ArcPair(Spec(), t, m) == CounterClockwisePair(radius, width, length, t, m);
      assert vertices == previous + CounterClockwisePair(radius, width, length, t, m);
    }

    /** The subdivision loop of the counter-clockwise branch: one pair per whole
        5 degree step of the turn. */
    method AddCounterClockwiseFacets(before: seq<Vec3>, m: Trig) returns (vertices: seq<Vec3>)
      requires theta < 0.0
      ensures vertices == before + ArcFacets(Spec(), ArcSteps(theta), m)
    {
      vertices := before;
      var i := 0;
      while i < Truncate(-theta / 5.0)
        invariant 0 <= i <= ArcSteps(theta)
        invariant vertices == before + ArcFacets(Spec(), i, m)
      {
        var t := (5.0 * i as real) * m.deg2rad;
        ghost var previous := vertices;
        var vIn := CounterClockwiseInner(radius, width, length, t, m);
        vertices := vertices + [vIn];
        var vOut := CounterClockwiseOuter(radius, width, length, t, m);
        vertices := vertices + [vOut];
        assert t == StepAngle(i, m);
        FacetStep(Spec(), i, m);
        assert vertices == previous + CounterClockwisePair(radius, width, length, t, m);
        i := i + 1;
      }
    }
  }
}
