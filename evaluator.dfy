/**
 * The curve evaluator: `bezier(c, t)`, a de Casteljau evaluator for curves of
 * any order. A curve is its anchor points, its interior control points and an
 * explicit `order` that must equal the number of control points plus one.
 */
module Evaluator {
  import opened Wrappers
  import opened Geometry

  /** A curve: its interior control points, its anchor points and its declared order. */
  datatype Curve = Curve(controls: seq<Point>, anchors: seq<Point>, order: int)

  /** The check `bezier` makes before evaluating: `order >= 1` and `order == controlPoints.size() + 1`. */
  predicate ValidOrder(c: Curve)
  {
    1 <= c.order && c.order == |c.controls| + 1
  }

  /** What `bezier` needs of its argument: a curve that passes the order check has both anchors. */
  predicate Evaluable(c: Curve)
  {
    ValidOrder(c) ==> |c.anchors| >= 2
  }

  /** The working sequence `bezier` lays out: first anchor, every control point, second anchor. */
  function Layout(c: Curve): (r: seq<Point>)
    requires |c.anchors| >= 2
    ensures |r| == |c.controls| + 2
    ensures r[0] == c.anchors[0] && r[|r| - 1] == c.anchors[1]
    ensures forall i :: 0 <= i < |c.controls| ==> r[i + 1] == c.controls[i]
  {
    [c.anchors[0]] + c.controls + [c.anchors[1]]
  }

  /** One de Casteljau round: each adjacent pair is replaced by its interpolation at `t`. */
  function Step(pts: seq<Point>, t: real): (r: seq<Point>)
    requires |pts| >= 1
    ensures |r| == |pts| - 1
    ensures forall j {:trigger r[j]} :: 0 <= j < |r| ==> r[j] == Lerp(pts[j], pts[j + 1], t)
  {
    if |pts| == 1 then [] else [Lerp(pts[0], pts[1], t)] + Step(pts[1..], t)
  }

  /** The sequence left after `k` rounds; every round shortens it by one. */
  function Level(pts: seq<Point>, t: real, k: nat): (r: seq<Point>)
    requires k < |pts|
    ensures |r| == |pts| - k
  {
    if k == 0 then pts else Step(Level(pts, t, k - 1), t)
  }

  /** The de Casteljau point of a control polygon: the single point left after `|pts| - 1` rounds. */
  function DeCasteljau(pts: seq<Point>, t: real): Point
    requires |pts| >= 1
  {
    Level(pts, t, |pts| - 1)[0]
  }

  /**
   * `bezier(c, t)` with its "Invalid order" report made visible: `None` is a
   * curve the order check rejects, which `bezier` reports on the console;
   * otherwise the de Casteljau point of its layout.
   */
  function BezierChecked(c: Curve, t: real): (r: Option<Point>)
    requires Evaluable(c)
    ensures r.None? <==> !ValidOrder(c)
  {
    if c.order < 1 || c.order != |c.controls| + 1 then None
    else Some(DeCasteljau(Layout(c), t))
  }

  /** `bezier(c, t)`: a rejected curve yields the default point `Point()`. */
  function Bezier(c: Curve, t: real): (r: Point)
    requires Evaluable(c)
    ensures !ValidOrder(c) ==> r == Origin
  {
    match BezierChecked(c, t)
    case None => Origin
    case Some(p) => p
  }

  // ---------------------------------------------------------------------------
  // Properties of the evaluator

  /** At `t = 0` every round drops the last point. */
  lemma {:induction false} LevelAtZero(pts: seq<Point>, k: nat)
    requires k < |pts|
    ensures Level(pts, 0.0, k) == pts[..|pts| - k]
  {
    if k > 0 {
      LevelAtZero(pts, k - 1);
      var prev := Level(pts, 0.0, k - 1);
      forall j | 0 <= j < |prev| - 1 ensures Step(prev, 0.0)[j] == prev[j] {
        assert Step(prev, 0.0)[j] == Lerp(prev[j], prev[j + 1], 0.0);
      }
    }
  }

  /** At `t = 1` every round drops the first point. */
  lemma {:induction false} LevelAtOne(pts: seq<Point>, k: nat)
    requires k < |pts|
    ensures Level(pts, 1.0, k) == pts[k..]
  {
    if k > 0 {
      LevelAtOne(pts, k - 1);
      var prev := Level(pts, 1.0, k - 1);
      forall j | 0 <= j < |prev| - 1 ensures Step(prev, 1.0)[j] == prev[j + 1] {
        assert Step(prev, 1.0)[j] == Lerp(prev[j], prev[j + 1], 1.0);
      }
    }
  }

  /** A valid curve starts at its first anchor. */
  lemma BezierAtZero(c: Curve)
    requires ValidOrder(c) && |c.anchors| >= 2
    ensures Bezier(c, 0.0) == c.anchors[0]
  {
    LevelAtZero(Layout(c), c.order);
  }

  /** A valid curve ends at its second anchor (in exact arithmetic). */
  lemma BezierAtOne(c: Curve)
    requires ValidOrder(c) && |c.anchors| >= 2
    ensures Bezier(c, 1.0) == c.anchors[1]
  {
    LevelAtOne(Layout(c), c.order);
  }

  /** A curve of order 1 is the straight segment between its anchors. */
  lemma BezierOrderOne(c: Curve, t: real)
    requires c.order == 1 && |c.controls| == 0 && |c.anchors| >= 2
    ensures Bezier(c, t) == Lerp(c.anchors[0], c.anchors[1], t)
  {
    var pts := Layout(c);
    assert pts == [c.anchors[0], c.anchors[1]];
    assert Level(pts, t, 0) == pts;
    assert Level(pts, t, 1) == Step(pts, t);
  }

  /** The quadratic Bernstein polynomial on one coordinate, a reference independent of de Casteljau. */
  function Bernstein2(p0: real, p1: real, p2: real, t: real): real
  {
    (1.0 - t) * (1.0 - t) * p0 + 2.0 * (1.0 - t) * t * p1 + t * t * p2
  }

  /** The cubic Bernstein polynomial on one coordinate. */
  function Bernstein3(p0: real, p1: real, p2: real, p3: real, t: real): real
  {
    (1.0 - t) * (1.0 - t) * (1.0 - t) * p0 + 3.0 * (1.0 - t) * (1.0 - t) * t * p1
    + 3.0 * (1.0 - t) * t * t * p2 + t * t * t * p3
  }

  /** Two rounds of interpolation on one coordinate expand to the quadratic Bernstein form. */
  lemma QuadraticMix(p0: real, p1: real, p2: real, t: real)
    ensures Mix(Mix(p0, p1, t), Mix(p1, p2, t), t) == Bernstein2(p0, p1, p2, t)
  {
  }

  /** The first half of the cubic expansion: `(1 - t)` times the quadratic form of the first three points. */
  lemma CubicFront(p0: real, p1: real, p2: real, t: real)
    ensures (1.0 - t) * Bernstein2(p0, p1, p2, t)
         == (1.0 - t) * (1.0 - t) * (1.0 - t) * p0 + 2.0 * (1.0 - t) * (1.0 - t) * t * p1 + (1.0 - t) * t * t * p2
  {
  }

  /** The second half of the cubic expansion: `t` times the quadratic form of the last three points. */
  lemma CubicBack(p1: real, p2: real, p3: real, t: real)
    ensures t * Bernstein2(p1, p2, p3, t)
         == (1.0 - t) * (1.0 - t) * t * p1 + 2.0 * (1.0 - t) * t * t * p2 + t * t * t * p3
  {
  }

  /** Three rounds of interpolation on one coordinate expand to the cubic Bernstein form. */
  lemma CubicMix(p0: real, p1: real, p2: real, p3: real, t: real)
    ensures Mix(Mix(Mix(p0, p1, t), Mix(p1, p2, t), t), Mix(Mix(p1, p2, t), Mix(p2, p3, t), t), t)
         == Bernstein3(p0, p1, p2, p3, t)
  {
    QuadraticMix(p0, p1, p2, t);
    QuadraticMix(p1, p2, p3, t);
    var a, b := Bernstein2(p0, p1, p2, t), Bernstein2(p1, p2, p3, t);
    assert Mix(a, b, t) == (1.0 - t) * a + t * b;
    CubicFront(p0, p1, p2, t);
    CubicBack(p1, p2, p3, t);
  }

  /** A curve of order 2 agrees with the quadratic Bernstein form. */
  lemma BezierQuadratic(c: Curve, t: real)
    requires c.order == 2 && |c.controls| == 1 && |c.anchors| >= 2
    ensures var p0, p1, p2 := c.anchors[0], c.controls[0], c.anchors[1];
            Bezier(c, t) == Point(Bernstein2(p0.x, p1.x, p2.x, t), Bernstein2(p0.y, p1.y, p2.y, t))
  {
    var pts := Layout(c);
    assert pts == [c.anchors[0], c.controls[0], c.anchors[1]];
    assert Level(pts, t, 0) == pts;
    var l1 := Level(pts, t, 1);
    assert l1 == Step(pts, t);
    var l2 := Level(pts, t, 2);
    assert l2 == Step(l1, t);
    assert Bezier(c, t) == Lerp(Lerp(pts[0], pts[1], t), Lerp(pts[1], pts[2], t), t);
    QuadraticMix(pts[0].x, pts[1].x, pts[2].x, t);
    QuadraticMix(pts[0].y, pts[1].y, pts[2].y, t);
  }

  /** A curve of order 3 agrees with the cubic Bernstein form. */
  lemma BezierCubic(c: Curve, t: real)
    requires c.order == 3 && |c.controls| == 2 && |c.anchors| >= 2
    ensures var p0, p1, p2, p3 := c.anchors[0], c.controls[0], c.controls[1], c.anchors[1];
            Bezier(c, t) == Point(Bernstein3(p0.x, p1.x, p2.x, p3.x, t), Bernstein3(p0.y, p1.y, p2.y, p3.y, t))
  {
    var pts := Layout(c);
    assert pts == [c.anchors[0], c.controls[0], c.controls[1], c.anchors[1]];
    assert Level(pts, t, 0) == pts;
    var l1 := Level(pts, t, 1);
    assert l1 == Step(pts, t);
    var l2 := Level(pts, t, 2);
    assert l2 == Step(l1, t);
    var l3 := Level(pts, t, 3);
    assert l3 == Step(l2, t);
    var a, b, d := Lerp(pts[0], pts[1], t), Lerp(pts[1], pts[2], t), Lerp(pts[2], pts[3], t);
    assert l1[0] == a && l1[1] == b && l1[2] == d;
    assert Bezier(c, t) == Lerp(Lerp(a, b, t), Lerp(b, d, t), t);
    CubicMix(pts[0].x, pts[1].x, pts[2].x, pts[3].x, t);
    CubicMix(pts[0].y, pts[1].y, pts[2].y, pts[3].y, t);
  }

  // ---------------------------------------------------------------------------
  // The loops of `bezier`

  /**
   * `bezier` as a program: lay out the working vector, then run `order`
   * rounds of pairwise interpolation. Each round here makes one point fewer
   * than it reads, so no read falls outside the working vector.
   */
  method EvaluateBezier(c: Curve, t: real) returns (r: Point)
    requires Evaluable(c)
    ensures r == Bezier(c, t)
  {
    if c.order < 1 || c.order != |c.controls| + 1 {
      return Origin;
    }
    var temp := [c.anchors[0]];
    var i := 0;
    while i < c.order - 1
      invariant 0 <= i <= c.order - 1
      invariant temp == [c.anchors[0]] + c.controls[..i]
    {
      temp := temp + [c.controls[i]];
      i := i + 1;
    }
    temp := temp + [c.anchors[1]];
    assert temp == Layout(c);

    var k := 1;
    while k <= c.order
      invariant 1 <= k <= c.order + 1
      invariant temp == Level(Layout(c), t, k - 1)
    {
      var next: seq<Point> := [];
      var j := 0;
      while j < |temp| - 1
        invariant 0 <= j <= |temp| - 1
        invariant |next| == j
        invariant forall m :: 0 <= m < j ==> next[m] == Lerp(temp[m], temp[m + 1], t)
      {
        next := next + [Lerp(temp[j], temp[j + 1], t)];
        j := j + 1;
      }
      assert next == Step(temp, t);
      temp := next;
      k := k + 1;
    }
    r := temp[0];
  }

  // ---------------------------------------------------------------------------
  // The rounds as the source writes them

  /** Reading index `i` of a vector, where a read past the end yields `junk`. */
  function ReadOr(s: seq<Point>, i: nat, junk: Point): Point
  {
    if i < |s| then s[i] else junk
  }

  /**
   * One round as main.cpp writes it: the inner loop always makes `width`
   * (= `order`) points, reading index `i + 1` even past the end of the
   * working vector; such a read yields `junk`.
   */
  function OverlongRound(temp: seq<Point>, t: real, width: nat, junk: Point): (r: seq<Point>)
    ensures |r| == width
    ensures forall i {:trigger r[i]} :: 0 <= i < width && i + 1 < |temp| ==> r[i] == Lerp(temp[i], temp[i + 1], t)
  {
    seq(width, i requires 0 <= i < width => Lerp(ReadOr(temp, i, junk), ReadOr(temp, i + 1, junk), t))
  }

  /** `k` rounds as written, where round `k` reads `junk(k)` past the end. */
  function OverlongRounds(pts: seq<Point>, t: real, width: nat, k: nat, junk: nat -> Point): (r: seq<Point>)
    ensures k > 0 ==> |r| == width
  {
    if k == 0 then pts else OverlongRound(OverlongRounds(pts, t, width, k - 1, junk), t, width, junk(k))
  }

  /**
   * From round 2 on, the working vector has `order` points, and the last
   * point of the round is interpolated towards the value read at index
   * `order`, past its end.
   */
  lemma OverlongReadsPastEnd(c: Curve, t: real, junk: nat -> Point, k: nat)
    requires ValidOrder(c) && |c.anchors| >= 2
    requires 2 <= k <= c.order
    ensures |OverlongRounds(Layout(c), t, c.order, k - 1, junk)| == c.order
    ensures OverlongRounds(Layout(c), t, c.order, k, junk)[c.order - 1]
         == Lerp(OverlongRounds(Layout(c), t, c.order, k - 1, junk)[c.order - 1], junk(k), t)
  {
    var before := OverlongRounds(Layout(c), t, c.order, k - 1, junk);
    assert OverlongRounds(Layout(c), t, c.order, k, junk) == OverlongRound(before, t, c.order, junk(k));
    assert ReadOr(before, c.order, junk(k)) == junk(k);
  }

  /**
   * After `k` rounds as written, the first `order + 1 - k` points are the
   * true round-`k` points, whatever the out-of-range reads returned.
   */
  lemma {:induction false} OverlongAgrees(pts: seq<Point>, t: real, k: nat, junk: nat -> Point)
    requires k < |pts|
    ensures forall j :: 0 <= j < |pts| - k ==>
      j < |OverlongRounds(pts, t, |pts| - 1, k, junk)| &&
      OverlongRounds(pts, t, |pts| - 1, k, junk)[j] == Level(pts, t, k)[j]
  {
    if k > 0 {
      OverlongAgrees(pts, t, k - 1, junk);
      var before := OverlongRounds(pts, t, |pts| - 1, k - 1, junk);
      var level := Level(pts, t, k - 1);
      assert |before| >= |pts| - k + 1;
      var after := OverlongRounds(pts, t, |pts| - 1, k, junk);
      assert after == OverlongRound(before, t, |pts| - 1, junk(k));
      assert Level(pts, t, k) == Step(level, t);
      forall j | 0 <= j < |pts| - k
        ensures j < |after| && after[j] == Level(pts, t, k)[j]
      {
        assert before[j] == level[j] && before[j + 1] == level[j + 1];
        assert after[j] == Lerp(before[j], before[j + 1], t);
      }
    } else {
      assert OverlongRounds(pts, t, |pts| - 1, 0, junk) == pts == Level(pts, t, 0);
    }
  }

  /** The point `bezier` returns, index 0 after `order` over-long rounds, is the de Casteljau point. */
  lemma OverlongResult(c: Curve, t: real, junk: nat -> Point)
    requires ValidOrder(c) && |c.anchors| >= 2
    ensures OverlongRounds(Layout(c), t, c.order, c.order, junk)[0] == Bezier(c, t)
  {
    OverlongAgrees(Layout(c), t, c.order, junk);
  }

  /** On the default quadratic curve, the point past index 0 after two rounds depends on the out-of-range read. */
  lemma OverlongTailIsGarbage(junk1: nat -> Point, junk2: nat -> Point)
    requires junk1(2) == Origin && junk2(2) == Point(4.0, 4.0)
    ensures var pts := [Point(0.0, 0.0), Point(0.0, 1.0), Point(1.0, 1.0)];
            OverlongRounds(pts, 0.5, 2, 2, junk1)[1] != OverlongRounds(pts, 0.5, 2, 2, junk2)[1]
  {
    var pts := [Point(0.0, 0.0), Point(0.0, 1.0), Point(1.0, 1.0)];
    var a1 := OverlongRounds(pts, 0.5, 2, 1, junk1);
    var a2 := OverlongRounds(pts, 0.5, 2, 1, junk2);
    assert a1 == OverlongRound(pts, 0.5, 2, junk1(1));
    assert a1[1] == Point(0.5, 1.0) && a2[1] == Point(0.5, 1.0);
    var b1 := OverlongRounds(pts, 0.5, 2, 2, junk1);
    var b2 := OverlongRounds(pts, 0.5, 2, 2, junk2);
    assert b1 == OverlongRound(a1, 0.5, 2, Origin);
    assert b2 == OverlongRound(a2, 0.5, 2, Point(4.0, 4.0));
    assert b1[1] == Lerp(a1[1], Origin, 0.5);
    assert b2[1] == Lerp(a2[1], Point(4.0, 4.0), 0.5);
  }
}
