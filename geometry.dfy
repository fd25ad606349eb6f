// Three-component vectors as the animation loop uses them: a position or a
// velocity, added componentwise and compared against a cubic bound.

module Geometry {

  /** A three.js Vector3, with exact reals in place of JavaScript doubles. */
  datatype Vec3 = Vec3(x: real, y: real, z: real)

  /** Vector3.add: the componentwise sum. */
  function Add(a: Vec3, b: Vec3): (s: Vec3)
    ensures s.x - a.x == b.x && s.y - a.y == b.y && s.z - a.z == b.z
  {
    Vec3(a.x + b.x, a.y + b.y, a.z + b.z)
  }

  /** Math.abs on a real. */
  function Abs(r: real): (a: real)
    ensures a >= 0.0 && (a == r || a == -r)
  {
    if r < 0.0 then -r else r
  }

  /** Half the side of the cube in which lasers live. */
  const BOUND: real := 10.0

  /** Some coordinate of `p` has absolute value above BOUND: `p` lies
      outside the closed cube [-BOUND, BOUND]^3. */
  predicate OutOfBounds(p: Vec3)
    ensures OutOfBounds(p) <==>
      !(-BOUND <= p.x <= BOUND && -BOUND <= p.y <= BOUND && -BOUND <= p.z <= BOUND)
  {
    Abs(p.x) > BOUND || Abs(p.y) > BOUND || Abs(p.z) > BOUND
  }
}
