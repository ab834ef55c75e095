/** The two-component vector the box is built on: the Vector2D class of the
    friendly-vectors library, reduced to the operations the box uses. */
module Vectors {

  datatype Vec = Vec(x: real, y: real)

  const Origin := Vec(0.0, 0.0)

  function Add(a: Vec, b: Vec): Vec {
    Vec(a.x + b.x, a.y + b.y)
  }

  function Sub(a: Vec, b: Vec): Vec {
    Vec(a.x - b.x, a.y - b.y)
  }

  function Neg(a: Vec): Vec {
    Vec(-a.x, -a.y)
  }

  /** Componentwise product, the way `scale` multiplies the extents. */
  function Mul(a: Vec, b: Vec): Vec {
    Vec(a.x * b.x, a.y * b.y)
  }

  function Dot(a: Vec, b: Vec): real {
    a.x * b.x + a.y * b.y
  }

  /** `magnitude() === 0`, stated without the square root. */
  predicate IsZero(a: Vec) {
    a.x == 0.0 && a.y == 0.0
  }

  function Abs(r: real): real {
    if r < 0.0 then -r else r
  }

  /** Math.min and Math.max on two (non-NaN) numbers. */
  function Least(a: real, b: real): real {
    if a <= b then a else b
  }

  function Greatest(a: real, b: real): real {
    if a >= b then a else b
  }

  function ComponentMin(a: Vec, b: Vec): Vec {
    Vec(Least(a.x, b.x), Least(a.y, b.y))
  }

  function ComponentMax(a: Vec, b: Vec): Vec {
    Vec(Greatest(a.x, b.x), Greatest(a.y, b.y))
  }
}
