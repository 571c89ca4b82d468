/**
 * Geometry primitives of the editor: a point in logical curve space, its
 * exact equality and linear interpolation. Coordinates are `real`: the C++
 * `double`s are modelled without rounding.
 */
module Geometry {

  /** A point of the logical curve plane: its two coordinates. */
  datatype Point = Point(x: real, y: real)

  /** The value-initialised `Point()`, which is also what `bezier` returns on error. */
  const Origin := Point(0.0, 0.0)

  /** `operator==` on points: exact coordinate equality, no tolerance. */
  function Equal(p: Point, q: Point): (r: bool)
    ensures r <==> p == q
  {
    p.x == q.x && p.y == q.y
  }

  /** `std::vector<Point>`'s `operator==`: equal sizes and pointwise `Equal`. */
  function EqualPoints(a: seq<Point>, b: seq<Point>): (r: bool)
    ensures r <==> a == b
  {
    if |a| != |b| then false
    else
      var pointwise := forall i :: 0 <= i < |a| ==> Equal(a[i], b[i]);
      assert pointwise ==> a == b by {
        if pointwise {
          forall i | 0 <= i < |a| ensures a[i] == b[i] { assert Equal(a[i], b[i]); }
        }
      }
      pointwise
  }

  /** One coordinate of `lerp`: `u + t * (v - u)`. */
  function Mix(u: real, v: real, t: real): real
  {
    u + t * (v - u)
  }

  /**
   * `lerp(p1, p2, t)`: the point `p1 + t * (p2 - p1)`, coordinate by
   * coordinate, for any real `t`; it starts at `p1` and ends at `p2`.
   */
  function Lerp(p1: Point, p2: Point, t: real): (r: Point)
    ensures t == 0.0 ==> r == p1
    ensures t == 1.0 ==> r == p2
  {
    Point(Mix(p1.x, p2.x, t), Mix(p1.y, p2.y, t))
  }

  /** Interpolating backwards at `1 - t` gives the same point as forwards at `t`. */
  lemma LerpReversed(p1: Point, p2: Point, t: real)
    ensures Lerp(p2, p1, 1.0 - t) == Lerp(p1, p2, t)
  {
  }
}
