/** Bounding boxes, their centres and the distance between centres
    (`center_of` and `dist` in ocr/field_extractor.py). */
module Geometry {

  /** An OCR bounding box `(x0, y0, x1, y1)` in image coordinates. */
  datatype Box = Box(x0: real, y0: real, x1: real, y1: real)

  datatype Point = Point(x: real, y: real)

  /** `center_of`: the midpoint of the box, as far from each edge as from the opposite one. */
  function CenterOf(b: Box): (c: Point)
    ensures c.x - b.x0 == b.x1 - c.x && c.y - b.y0 == b.y1 - c.y
  {
    Point((b.x0 + b.x1) / 2.0, (b.y0 + b.y1) / 2.0)
  }

  /** The square of `dist(a, b)` (`math.hypot` of the coordinate differences).
      Squaring is monotone on non-negative numbers, so it orders candidates
      exactly as the distance does (`DistSqOrdersAsDist`). */
  function DistSq(a: Point, b: Point): (d: real)
    ensures d >= 0.0
    ensures a == b ==> d == 0.0
  {
    var dx, dy := a.x - b.x, a.y - b.y;
    SquareNonNegative(dx);
    SquareNonNegative(dy);
    dx * dx + dy * dy
  }

  /** Ordering candidates by `dist` or by its square picks the same ones:
      for the non-negative distances `h1`, `h2` whose squares are the squared
      distances, `h1 < h2` exactly when `DistSq(a, b) < DistSq(a, c)`, and
      they are equal exactly when the squares are. */
  lemma DistSqOrdersAsDist(a: Point, b: Point, c: Point, h1: real, h2: real)
    requires 0.0 <= h1 && 0.0 <= h2
    requires h1 * h1 == DistSq(a, b) && h2 * h2 == DistSq(a, c)
    ensures h1 < h2 <==> DistSq(a, b) < DistSq(a, c)
    ensures h1 == h2 <==> DistSq(a, b) == DistSq(a, c)
  {
    SquareMonotone(h1, h2);
    SquareMonotone(h2, h1);
  }

  /** Squaring is strictly monotone on the non-negative reals. */
  lemma SquareMonotone(u: real, v: real)
    requires 0.0 <= u && 0.0 <= v
    ensures u < v <==> u * u < v * v
  {
    assert v * v - u * u == (v - u) * (u + v);
    if u < v {
      assert 0.0 < v - u && 0.0 < u + v;
      assert 0.0 < (v - u) * (u + v);
    } else {
      assert 0.0 <= u - v && 0.0 <= u + v;
      assert 0.0 <= (u - v) * (u + v);
    }
  }

  lemma SquareNonNegative(r: real)
    ensures r * r >= 0.0
  {
    if r < 0.0 {
      var s := -r;
      assert r * r == s * s;
    }
  }

}
