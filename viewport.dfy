/**
 * Coordinate mapping and hit testing: the logical-to-screen transform under
 * the pan offset and uniform scale (with the Y axis flipped), the `(int)`
 * truncation the editor applies to it, and the first-match point picking
 * with a 5-pixel square tolerance.
 */
module Viewport {
  import opened Wrappers
  import opened Geometry

  /** The view parameters every projection takes: `displayScale`, the offsets and the screen size. */
  datatype View = View(scale: real, offsetX: real, offsetY: real, width: int, height: int)

  /** C's `(int)` conversion of a floating value: truncation toward zero. */
  function Trunc(r: real): (i: int)
    ensures 0.0 <= r ==> 0 <= i && i as real <= r < i as real + 1.0
    ensures r < 0.0 ==> i <= 0 && i as real - 1.0 < r <= i as real
  {
    if r >= 0.0 then r.Floor else -((-r).Floor)
  }

  /** Screen column of a point: `(int)(displayScale * x + displayOffsetX)`. */
  function ScreenX(p: Point, v: View): (r: int)
    ensures var e := v.scale * p.x + v.offsetX;
            e - 1.0 < r as real < e + 1.0 && (0.0 <= e ==> r as real <= e) && (e < 0.0 ==> e <= r as real)
  {
    Trunc(v.scale * p.x + v.offsetX)
  }

  /** Screen row of a point: `(int)(screenHeight - displayScale * y + displayOffsetY)`; logical y grows upward. */
  function ScreenY(p: Point, v: View): (r: int)
    ensures var e := v.height as real - v.scale * p.y + v.offsetY;
            e - 1.0 < r as real < e + 1.0 && (0.0 <= e ==> r as real <= e) && (e < 0.0 ==> e <= r as real)
  {
    Trunc(v.height as real - v.scale * p.y + v.offsetY)
  }

  /** The picking tolerance, in pixels, in each axis. */
  const Tolerance := 5

  function Abs(i: int): nat
  {
    if i < 0 then -i else i
  }

  /**
   * A pointer at (mx, my) is on a point when both axis distances to its
   * projection are at most 5: the pointer lies in the 11 x 11 pixel box
   * around the projection.
   */
  predicate Near(p: Point, mx: int, my: int, v: View)
    ensures Near(p, mx, my, v) <==>
      ScreenX(p, v) - Tolerance <= mx <= ScreenX(p, v) + Tolerance &&
      ScreenY(p, v) - Tolerance <= my <= ScreenY(p, v) + Tolerance
  {
    Abs(mx - ScreenX(p, v)) <= Tolerance && Abs(my - ScreenY(p, v)) <= Tolerance
  }

  /** The first index at or after `from` whose point the pointer is on, if any. */
  function FirstNear(pts: seq<Point>, mx: int, my: int, v: View, from: nat): (r: Option<nat>)
    decreases |pts| - from
    ensures r.Some? ==> from <= r.value < |pts| && Near(pts[r.value], mx, my, v)
    ensures r.Some? ==> forall j :: from <= j < r.value ==> !Near(pts[j], mx, my, v)
    ensures r.None? <==> forall j :: from <= j < |pts| ==> !Near(pts[j], mx, my, v)
  {
    if from >= |pts| then None
    else if Near(pts[from], mx, my, v) then Some(from)
    else FirstNear(pts, mx, my, v, from + 1)
  }

  /**
   * The picking scan of the drag code: walk the points in order and stop at
   * the first one the pointer is on.
   */
  method Pick(pts: seq<Point>, mx: int, my: int, v: View) returns (r: Option<nat>)
    ensures r == FirstNear(pts, mx, my, v, 0)
  {
    r := None;
    var i := 0;
    while i < |pts|
      invariant 0 <= i <= |pts|
      invariant FirstNear(pts, mx, my, v, 0) == FirstNear(pts, mx, my, v, i)
    {
      var x := ScreenX(pts[i], v);
      var y := ScreenY(pts[i], v);
      if Abs(mx - x) <= Tolerance && Abs(my - y) <= Tolerance {
        r := Some(i);
        break;
      }
      i := i + 1;
    }
  }

  /** Points the pointer is on ahead of the first match never win: the lowest index does. */
  lemma PickPrefersLowestIndex(pts: seq<Point>, mx: int, my: int, v: View, i: nat, j: nat)
    requires i < j < |pts|
    requires Near(pts[i], mx, my, v) && Near(pts[j], mx, my, v)
    ensures FirstNear(pts, mx, my, v, 0).Some?
    ensures FirstNear(pts, mx, my, v, 0).value <= i
  {
  }

  /** Moving a point by (dx / s, -dy / s) moves its unrounded projection by exactly (dx, dy). */
  lemma ShiftFollowsPointer(p: Point, dx: int, dy: int, v: View)
    requires v.scale != 0.0
    ensures var q := Point(p.x + dx as real / v.scale, p.y - dy as real / v.scale);
            v.scale * q.x + v.offsetX == v.scale * p.x + v.offsetX + dx as real &&
            v.height as real - v.scale * q.y + v.offsetY == v.height as real - v.scale * p.y + v.offsetY + dy as real
  {
  }
}
