/**
  The slice of the engine's spatial registry that the card core reads and writes:
  entity handles, 2D/3D translations and the per-entity transform component.
  Coordinates are real numbers; the engine's 32-bit floating point rounding is not modelled.
 */
module Spatial {

  /** An entity handle of the engine, compared only for equality. */
  type Entity = nat

  datatype Vec2 = Vec2(x: real, y: real)

  datatype Vec3 = Vec3(x: real, y: real, z: real)

  /** The xy part of a translation (the engine's `truncate`). */
  function Truncate(v: Vec3): (r: Vec2)
  {
    Vec2(v.x, v.y)
  }

  /** A 2D point placed at depth z (the engine's `extend`). */
  function Extend(v: Vec2, z: real): (r: Vec3)
  {
    Vec3(v.x, v.y, z)
  }

  lemma TruncateExtend(v: Vec2, z: real)
    ensures Truncate(Extend(v, z)) == v && Extend(v, z).z == z
  {
  }

  /** Linear interpolation `a + (b - a) * s`, with no clamping of `s`. */
  function Lerp(a: Vec2, b: Vec2, s: real): (r: Vec2)
  {
    Vec2(a.x + (b.x - a.x) * s, a.y + (b.y - a.y) * s)
  }

  lemma LerpEnds(a: Vec2, b: Vec2)
    ensures Lerp(a, b, 0.0) == a && Lerp(a, b, 1.0) == b
  {
  }

  /** The translation part of an entity's transform component, updated in place by systems. */
  class Transform {
    var translation: Vec3

    constructor (translation: Vec3)
      ensures this.translation == translation
    {
      this.translation := translation;
    }
  }
}
