/**
 * The edits the editor makes to its curve set. Only the last curve of the
 * set is ever edited; these functions are what the session's intents apply.
 */
module CurveSet {
  import opened Geometry
  import opened Evaluator
  import opened Sampler

  /** The curve `main` starts with and the N key adds: control (0,1), anchors (0,0) and (1,1), order 2. */
  function Template(): (r: Curve)
    ensures WellFormed(r) && r.order == 2
  {
    Curve([Point(0.0, 1.0)], [Origin, Point(1.0, 1.0)], 2)
  }

  /** The invariant every curve of the editor keeps: a consistent order and exactly two anchors. */
  predicate WellFormed(c: Curve)
  {
    ValidOrder(c) && |c.anchors| == 2
  }

  predicate AllWellFormed(cs: seq<Curve>)
  {
    forall k :: 0 <= k < |cs| ==> WellFormed(cs[k])
  }

  /** A set of well-formed curves can be sampled, and no curve of it is ever reported as having an invalid order. */
  lemma WellFormedEvaluable(cs: seq<Curve>)
    requires AllWellFormed(cs)
    ensures AllEvaluable(cs)
    ensures forall k, t :: 0 <= k < |cs| ==> BezierChecked(cs[k], t).Some?
  {
  }

  /** The active curve: the last one of the set. */
  function Last(cs: seq<Curve>): Curve
    requires |cs| > 0
  {
    cs[|cs| - 1]
  }

  /** The last curve's control points, or none when the set is empty. */
  function LastControls(cs: seq<Curve>): seq<Point>
  {
    if |cs| > 0 then Last(cs).controls else []
  }

  /** The last curve's anchor points, or none when the set is empty. */
  function LastAnchors(cs: seq<Curve>): seq<Point>
  {
    if |cs| > 0 then Last(cs).anchors else []
  }

  /** The number of values of the unsigned `size_t` of a 64-bit build. */
  const SizeRange: nat := 0x1_0000_0000_0000_0000

  /**
   * `curves.size() - 1` as the source computes it, in unsigned arithmetic:
   * the last index of a non-empty set, and the largest `size_t` for an
   * empty one.
   */
  function LastSlot(n: nat): (r: nat)
    requires n < SizeRange
    ensures r < SizeRange
  {
    (n + SizeRange - 1) % SizeRange
  }

  /**
   * The slot the source indexes is inside the set exactly when the set is
   * non-empty: after C empties it, `curves[curves.size() - 1]` reads past
   * the end.
   */
  lemma LastSlotInRange(n: nat)
    requires n < SizeRange
    ensures LastSlot(n) < n <==> n > 0
    ensures n > 0 ==> LastSlot(n) == n - 1
    ensures n == 0 ==> LastSlot(n) == SizeRange - 1
  {
    if n > 0 {
      assert n + SizeRange - 1 == (n - 1) + SizeRange;
    }
  }

  /**
   * The duplicate test of the N key: the set is non-empty and its last curve
   * has the template's control and anchor points, compared with `operator==`
   * on the point vectors. The order is not compared.
   */
  predicate LastIsTemplate(cs: seq<Curve>)
    ensures LastIsTemplate(cs) <==>
      |cs| > 0 && Last(cs).controls == [Point(0.0, 1.0)] && Last(cs).anchors == [Origin, Point(1.0, 1.0)]
  {
    |cs| > 0 && EqualPoints(Last(cs).controls, Template().controls)
    && EqualPoints(Last(cs).anchors, Template().anchors)
  }

  /**
   * N: append the template curve unless the last curve already has its
   * points. Earlier curves are untouched, the last curve afterwards has the
   * template's points, and the set is unchanged exactly on a duplicate.
   */
  function WithCurve(cs: seq<Curve>): (r: seq<Curve>)
    ensures |cs| <= |r| && r[..|cs|] == cs
    ensures |r| == |cs| || (|r| == |cs| + 1 && r[|cs|] == Template())
    ensures LastIsTemplate(r)
    ensures r == cs <==> LastIsTemplate(cs)
  {
    if LastIsTemplate(cs) then cs else cs + [Template()]
  }

  /** Adding a curve twice in a row adds it once: the second attempt is a duplicate. */
  lemma WithCurveIdempotent(cs: seq<Curve>)
    ensures WithCurve(WithCurve(cs)) == WithCurve(cs)
  {
  }

  /** After the set is cleared, adding a curve gives exactly the template curve. */
  lemma WithCurveAfterClear()
    ensures WithCurve([]) == [Template()]
  {
  }

  /** Adding a curve keeps every curve well-formed. */
  lemma WithCurveWellFormed(cs: seq<Curve>)
    requires AllWellFormed(cs)
    ensures AllWellFormed(WithCurve(cs))
  {
  }

  /**
   * P: append the control point (0,0) to the last curve and set its order to
   * the new number of control points plus one.
   */
  function WithControlPoint(cs: seq<Curve>): (r: seq<Curve>)
    requires |cs| > 0
    ensures |r| == |cs| && r[..|cs| - 1] == cs[..|cs| - 1]
    ensures Last(r).controls == Last(cs).controls + [Origin]
    ensures Last(r).anchors == Last(cs).anchors
    ensures ValidOrder(Last(r))
  {
    var c := Last(cs);
    cs[..|cs| - 1] + [c.(controls := c.controls + [Origin], order := |c.controls| + 2)]
  }

  /** Adding a control point keeps every curve well-formed, whatever order the last curve had. */
  lemma WithControlPointWellFormed(cs: seq<Curve>)
    requires |cs| > 0 && |Last(cs).anchors| == 2
    requires forall k :: 0 <= k < |cs| - 1 ==> WellFormed(cs[k])
    ensures AllWellFormed(WithControlPoint(cs))
  {
    var r := WithControlPoint(cs);
    forall k | 0 <= k < |r| ensures WellFormed(r[k]) {
      if k < |cs| - 1 {
        assert r[k] == r[..|cs| - 1][k] == cs[..|cs| - 1][k] == cs[k];
      }
    }
  }

  /** One drag step of a point: `x += dx / displayScale`, `y -= dy / displayScale`. */
  function Nudge(p: Point, dx: int, dy: int, scale: real): (r: Point)
    requires scale != 0.0
    ensures scale * (r.x - p.x) == dx as real && scale * (p.y - r.y) == dy as real
  {
    Point(p.x + dx as real / scale, p.y - dy as real / scale)
  }

  /** The set with point `i` of `pts` of the last curve replaced, where `pts` is its controls or its anchors. */
  function MoveIn(pts: seq<Point>, i: int, dx: int, dy: int, scale: real): (r: seq<Point>)
    requires scale != 0.0
    ensures |r| == |pts|
    ensures forall j :: 0 <= j < |pts| && j != i ==> r[j] == pts[j]
    ensures 0 <= i < |pts| ==> r[i] == Nudge(pts[i], dx, dy, scale)
  {
    if 0 <= i < |pts| then pts[i := Nudge(pts[i], dx, dy, scale)] else pts
  }

  /**
   * A drag step on control point `i` of the last curve. Only that point moves;
   * an index that is not a control point of the last curve moves nothing.
   */
  function MoveControl(cs: seq<Curve>, i: int, dx: int, dy: int, scale: real): (r: seq<Curve>)
    requires scale != 0.0
    ensures |r| == |cs| && forall k :: 0 <= k < |cs| - 1 ==> r[k] == cs[k]
    ensures |cs| > 0 ==> Last(r) == Last(cs).(controls := MoveIn(Last(cs).controls, i, dx, dy, scale))
  {
    if |cs| == 0 then cs
    else
      var c := Last(cs);
      cs[..|cs| - 1] + [c.(controls := MoveIn(c.controls, i, dx, dy, scale))]
  }

  /** A drag step on anchor point `i` of the last curve; only that anchor moves. */
  function MoveAnchor(cs: seq<Curve>, i: int, dx: int, dy: int, scale: real): (r: seq<Curve>)
    requires scale != 0.0
    ensures |r| == |cs| && forall k :: 0 <= k < |cs| - 1 ==> r[k] == cs[k]
    ensures |cs| > 0 ==> Last(r) == Last(cs).(anchors := MoveIn(Last(cs).anchors, i, dx, dy, scale))
  {
    if |cs| == 0 then cs
    else
      var c := Last(cs);
      cs[..|cs| - 1] + [c.(anchors := MoveIn(c.anchors, i, dx, dy, scale))]
  }

  /** Dragging keeps every curve well-formed: orders and point counts do not change. */
  lemma MoveWellFormed(cs: seq<Curve>, i: int, dx: int, dy: int, scale: real)
    requires scale != 0.0 && AllWellFormed(cs)
    ensures AllWellFormed(MoveControl(cs, i, dx, dy, scale))
    ensures AllWellFormed(MoveAnchor(cs, i, dx, dy, scale))
  {
  }
}
