/** Points, rectangles and distances of the diagram plane, over exact reals. */
module Geometry {

  /** A coordinate pair (sprotty's Point and RoutedPoint). */
  datatype Point = Point(x: real, y: real)

  /** sprotty's Bounds: a top-left corner and an extent. */
  datatype Bounds = Bounds(x: real, y: real, width: real, height: real)

  /** The squared Euclidean distance, `Math.pow(dx, 2) + Math.pow(dy, 2)`. */
  function SqDist(p: Point, q: Point): real
  {
    (p.x - q.x) * (p.x - q.x) + (p.y - q.y) * (p.y - q.y)
  }

  /** Squares are never negative. */
  lemma SquareNonNegative(a: real)
    ensures a * a >= 0.0
  {
    if a < 0.0 {
      assert a * a == (-a) * (-a);
    }
  }

  /** Dividing a square by its root gives the root back. */
  lemma DivideSquare(a: real)
    requires a != 0.0
    ensures (a * a) / a == a
    ensures 0.0 / a == 0.0
  {
  }

  /** Only zero squares to zero. */
  lemma ZeroSquare(a: real)
    requires a * a == 0.0
    ensures a == 0.0
  {
    if a != 0.0 {
      DivideSquare(a);
    }
  }

  /** Squared distances are never negative. */
  lemma SqDistNonNegative(p: Point, q: Point)
    ensures SqDist(p, q) >= 0.0
  {
    SquareNonNegative(p.x - q.x);
    SquareNonNegative(p.y - q.y);
  }

  /** Two points at squared distance zero coincide. */
  lemma SqDistZero(p: Point, q: Point)
    requires SqDist(p, q) == 0.0
    ensures p == q
  {
    var a, b := p.x - q.x, p.y - q.y;
    SquareNonNegative(a);
    SquareNonNegative(b);
    assert a * a == 0.0;
    assert b * b == 0.0;
    ZeroSquare(a);
    ZeroSquare(b);
  }

  /**
   * `Math.sqrt` is the host's: the model takes it as a parameter and asks only
   * that it returns the non-negative square root of every non-negative number.
   */
  ghost predicate IsSqrt(sqrt: real -> real)
  {
    forall v :: v >= 0.0 ==> sqrt(v) >= 0.0 && sqrt(v) * sqrt(v) == v
  }
}
