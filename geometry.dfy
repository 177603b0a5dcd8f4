/** Vectors, texture coordinates and the trigonometry the road builder borrows
    from its game engine. Coordinates are real numbers; the engine's single
    precision floats and their rounding are not modelled. */
module Geometry {

  /** A point or displacement in 3D space (the engine's `Vector3`). */
  datatype Vec3 = Vec3(x: real, y: real, z: real)

  /** A texture coordinate (the engine's `Vector2`). */
  datatype UV = UV(u: real, v: real)

  /** The engine's trigonometry, left uninterpreted: cosine and sine of an
      angle given in radians, and the degree-to-radian factor `Deg2Rad`. */
  datatype Trig = Trig(cos: real -> real, sin: real -> real, deg2rad: real)

  /** `Mathf.Cos`. */
  function Cos(m: Trig, t: real): real
  {
    m.cos(t)
  }

  /** `Mathf.Sin`. */
  function Sin(m: Trig, t: real): real
  {
    m.sin(t)
  }

  /** The only facts about the trigonometry some lemmas rely on. */
  predicate ExactAtZero(m: Trig)
  {
    Cos(m, 0.0) == 1.0 && Sin(m, 0.0) == 0.0
  }

  const Origin := Vec3(0.0, 0.0, 0.0)

  function Plus(a: Vec3, b: Vec3): Vec3
  {
    Vec3(a.x + b.x, a.y + b.y, a.z + b.z)
  }

  /** `(a + b) / 2`, the centre of a left/right vertex pair. */
  function Midpoint(a: Vec3, b: Vec3): (c: Vec3)
    ensures Plus(c, c) == Plus(a, b)
  {
    Vec3((a.x + b.x) / 2.0, (a.y + b.y) / 2.0, (a.z + b.z) / 2.0)
  }

  /** `Quaternion.AngleAxis(degrees, Vector3.up) * v`: rotation about the
      vertical axis in the engine's left-handed frame, where a positive angle
      turns forward (+z) towards right (+x), i.e. clockwise seen from above. */
  function RotateY(m: Trig, degrees: real, v: Vec3): (r: Vec3)
    ensures r.y == v.y
  {
    var a := degrees * m.deg2rad;
    Vec3(v.x * Cos(m, a) + v.z * Sin(m, a), v.y, v.z * Cos(m, a) - v.x * Sin(m, a))
  }

  /** A rotation by zero degrees leaves every vector where it is. */
  lemma RotateByZero(m: Trig, v: Vec3)
    requires ExactAtZero(m)
    ensures RotateY(m, 0.0, v) == v
  {
    assert 0.0 * m.deg2rad == 0.0;
  }
}
