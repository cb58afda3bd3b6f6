/**
 * Box centres and the distance test of the proximity reveal (index.js:67-117).
 * The source compares Math.sqrt of the squared distance with a radius; the
 * model compares the squared distance with the squared radius, and
 * DistanceTest shows the two tests agree for every non-negative radius.
 */
module Geometry {

  /** What getBoundingClientRect reports for an element, in viewport pixels. */
  datatype Rect = Rect(left: real, top: real, width: real, height: real)

  function CenterX(r: Rect): real { r.left + r.width / 2.0 }

  function CenterY(r: Rect): real { r.top + r.height / 2.0 }

  /** The square of a real, never negative. */
  function Square(a: real): (s: real)
    ensures s >= 0.0
  {
    if a < 0.0 then
      PositiveSquare(-a);
      a * a
    else if a > 0.0 then
      PositiveSquare(a);
      a * a
    else
      a * a
  }

  lemma PositiveSquare(a: real)
    requires a > 0.0
    ensures a * a > 0.0
  {
  }

  /** The square of the Euclidean distance from (x, y) to the centre of r. */
  function SquaredDistance(x: real, y: real, r: Rect): (d2: real)
    ensures d2 >= 0.0
    ensures x == CenterX(r) && y == CenterY(r) ==> d2 == 0.0
  {
    Square(x - CenterX(r)) + Square(y - CenterY(r))
  }

  /** The point (x, y) lies strictly closer than radius to the centre of r. */
  predicate Within(x: real, y: real, r: Rect, radius: real)
  {
    SquaredDistance(x, y, r) < Square(radius)
  }

  /** For non-negative reals, comparing squares is comparing the numbers. */
  lemma SquareLess(d: real, radius: real)
    requires d >= 0.0 && radius >= 0.0
    ensures d < radius <==> Square(d) < Square(radius)
  {
    var gap, sum := radius - d, radius + d;
    assert Square(radius) - Square(d) == gap * sum;
    if d < radius {
      assert gap > 0.0 && sum > 0.0;
    } else {
      assert gap <= 0.0 && sum >= 0.0;
      assert gap * sum == -((-gap) * sum);
    }
  }

  /**
   * Whatever non-negative d squares to the squared distance (that is, the
   * distance Math.sqrt returns), "d < radius" holds exactly when Within does.
   */
  lemma DistanceTest(x: real, y: real, r: Rect, radius: real, d: real)
    requires radius >= 0.0 && d >= 0.0 && Square(d) == SquaredDistance(x, y, r)
    ensures d < radius <==> Within(x, y, r, radius)
  {
    SquareLess(d, radius);
  }

  /** A point within the smaller radius is within the larger one. */
  lemma WithinGrows(x: real, y: real, r: Rect, small: real, large: real)
    requires 0.0 <= small <= large
    ensures Within(x, y, r, small) ==> Within(x, y, r, large)
  {
    SquareLess(small, large);
  }
}
