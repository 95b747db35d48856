/**
 * The two geometric value types the bodies need: a 3-vector with
 * component-wise translation, and an axis-aligned bounding box.
 */
module Geometry {

  datatype Vector = Vector(x: real, y: real, z: real)

  /** `Vector()`: the origin. */
  const Origin := Vector(0.0, 0.0, 0.0)

  /** `v.t(dx, dy, dz)`: component-wise translation. */
  function T(v: Vector, dx: real, dy: real, dz: real): (r: Vector)
    ensures r.x - v.x == dx && r.y - v.y == dy && r.z - v.z == dz
  {
    Vector(v.x + dx, v.y + dy, v.z + dz)
  }

  /** `v.tx(d)`: translation along X only. */
  function Tx(v: Vector, d: real): (r: Vector)
    ensures r == T(v, d, 0.0, 0.0)
    ensures r.y == v.y && r.z == v.z
  {
    Vector(v.x + d, v.y, v.z)
  }

  function Ty(v: Vector, d: real): (r: Vector)
    ensures r == T(v, 0.0, d, 0.0)
    ensures r.x == v.x && r.z == v.z
  {
    Vector(v.x, v.y + d, v.z)
  }

  function Tz(v: Vector, d: real): (r: Vector)
    ensures r == T(v, 0.0, 0.0, d)
    ensures r.x == v.x && r.y == v.y
  {
    Vector(v.x, v.y, v.z + d)
  }

  /** Translations compose by adding their offsets, and the zero offset is the identity. */
  lemma TranslateCompose(v: Vector, a: Vector, b: Vector)
    ensures T(T(v, a.x, a.y, a.z), b.x, b.y, b.z) == T(v, a.x + b.x, a.y + b.y, a.z + b.z)
    ensures T(v, 0.0, 0.0, 0.0) == v
  {
  }

  /** The translations from the origin that the vector tests exercise. */
  lemma TranslateExamples()
    ensures Tx(Origin, 1.0) == Vector(1.0, 0.0, 0.0)
    ensures Ty(Origin, 1.0) == Vector(0.0, 1.0, 0.0)
    ensures Tz(Origin, 1.0) == Vector(0.0, 0.0, 1.0)
    ensures T(Origin, 1.0, 2.0, 3.0) == Vector(1.0, 2.0, 3.0)
  {
  }

  /**
   * A bounding box. `Default` is the box `BBox()` makes without arguments,
   * whose corners are not part of this model.
   */
  datatype BBox = Default | Box(lo: Vector, hi: Vector)

  /** The box is well formed: its low corner is below its high corner on every axis. */
  predicate Ordered(b: BBox)
    requires b.Box?
  {
    b.lo.x <= b.hi.x && b.lo.y <= b.hi.y && b.lo.z <= b.hi.z
  }

  /** The centre of a box. */
  function Center(b: BBox): (c: Vector)
    requires b.Box?
    ensures c.x - b.lo.x == b.hi.x - c.x
    ensures c.y - b.lo.y == b.hi.y - c.y
    ensures c.z - b.lo.z == b.hi.z - c.z
  {
    Vector((b.lo.x + b.hi.x) / 2.0, (b.lo.y + b.hi.y) / 2.0, (b.lo.z + b.hi.z) / 2.0)
  }
}
