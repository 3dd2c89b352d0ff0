/**
 * SFML's small geometry types as the core uses them: integer and real
 * vectors and the axis-aligned rectangle with its containment test.
 */
module Geometry {

  datatype Vector2i = Vector2i(x: int, y: int)
  datatype Vector2f = Vector2f(x: real, y: real)
  datatype FloatRect = FloatRect(left: real, top: real, width: real, height: real)

  function Min(a: real, b: real): real { if a <= b then a else b }
  function Max(a: real, b: real): real { if a <= b then b else a }

  /** sf::Rect::contains (SFML 2): inclusive on the low edges, exclusive on the high ones. */
  predicate RectContains(r: FloatRect, p: Vector2f) {
    var minX := Min(r.left, r.left + r.width);
    var maxX := Max(r.left, r.left + r.width);
    var minY := Min(r.top, r.top + r.height);
    var maxY := Max(r.top, r.top + r.height);
    minX <= p.x < maxX && minY <= p.y < maxY
  }

  /** The integer point as a real one, as Rect<float>::contains(x, y) converts it. */
  function ToFloat(p: Vector2i): Vector2f {
    Vector2f(p.x as real, p.y as real)
  }
}
