/** Plain value types standing for the graphics toolkit's vectors and rectangles. */
module Geometry {

  /** A 2D vector of reals (the toolkit's float vector); arithmetic is componentwise. */
  datatype Vec2 = Vec2(x: real, y: real)

  function Add(a: Vec2, b: Vec2): Vec2 { Vec2(a.x + b.x, a.y + b.y) }

  function Sub(a: Vec2, b: Vec2): Vec2 { Vec2(a.x - b.x, a.y - b.y) }

  function Scale(a: Vec2, k: real): Vec2 { Vec2(a.x * k, a.y * k) }

  /** An integer rectangle selecting one frame of a sprite sheet. */
  datatype IntRect = IntRect(left: int, top: int, width: int, height: int)

  /** An axis-aligned rectangle in world coordinates (y grows downwards). */
  datatype FloatRect = FloatRect(left: real, top: real, width: real, height: real)
}
