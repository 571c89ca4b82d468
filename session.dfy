/**
 * The editing session: the state `main` keeps across frames, lifted into a
 * class with one method per user intent. Each method is what one branch of
 * the frame loop does when its key is down (or, for the held keys D and
 * SPACE, what the frame does whether or not the key is down).
 *
 * The session keeps two invariants: every curve is well-formed (its order is
 * its number of control points plus one, and it has two anchors), and the
 * sample buffer holds exactly the samples of the curve set at the current
 * sample count.
 */
module Session {
  import opened Wrappers
  import opened Geometry
  import opened Evaluator
  import opened Sampler
  import opened Viewport
  import opened Raster
  import opened CurveSet
  import opened Panning

  const ScreenWidth := 1920
  const ScreenHeight := 1080

  /** The factor the arrow keys scale the view and the sample count by. */
  const Growth := 1.1

  const White: seq<Byte> := [255, 255, 255]
  const Red: seq<Byte> := [255, 0, 0]
  const Green: seq<Byte> := [0, 255, 0]

  /** Radius of the stamp of a curve sample and of a point marker. */
  const SampleRadius := 1
  const MarkerRadius := 5

  /**
   * The drag-session state: the previous pointer (`prevMouseX/Y`, none for
   * the (-1, -1) sentinel), whether a control point or an anchor is engaged,
   * and the last picked control and anchor indices.
   */
  datatype Drag = Drag(prev: Option<(int, int)>, control: bool, anchor: bool, controlIndex: int, anchorIndex: int)

  /**
   * The previous pointer position of a drag, as `prevMouseX/Y`; the pair
   * (-1, -1) is the "no drag under way" sentinel, so a pointer reading of
   * (-1, -1) also counts as none.
   */
  function Observe(mx: int, my: int): (r: Option<(int, int)>)
    ensures r.None? <==> (mx == -1 && my == -1)
    ensures r.Some? ==> r.value == (mx, my)
  {
    if mx == -1 && my == -1 then None else Some((mx, my))
  }

  /** The index a drag step re-picks: the first point at the previous pointer, or the index kept from before. */
  function Repick(pts: seq<Point>, prev: (int, int), v: View, kept: int): (r: int)
    ensures r == kept || (0 <= r < |pts| && Near(pts[r], prev.0, prev.1, v))
    ensures (exists j :: 0 <= j < |pts| && Near(pts[j], prev.0, prev.1, v)) ==>
      0 <= r < |pts| && Near(pts[r], prev.0, prev.1, v) && forall j :: 0 <= j < r ==> !Near(pts[j], prev.0, prev.1, v)
    ensures (forall j :: 0 <= j < |pts| ==> !Near(pts[j], prev.0, prev.1, v)) ==> r == kept
  {
    match FirstNear(pts, prev.0, prev.1, v, 0)
    case Some(i) => i
    case None => kept
  }

  /**
   * A zoom between two drag frames makes the re-pick miss: the template's
   * control point is under the pointer at (480, 10) at the initial view, but
   * after one zoom step its row is -70, so the re-pick keeps the index it had,
   * -1 when no earlier frame picked one.
   */
  lemma ZoomedRepickMisses()
    ensures Repick(Template().controls, (480, 10), View(800.0, 480.0, -270.0, ScreenWidth, ScreenHeight), -1) == 0
    ensures Repick(Template().controls, (480, 10), View(800.0 * Growth, 480.0, -270.0, ScreenWidth, ScreenHeight), -1) == -1
  {
    var p := Point(0.0, 1.0);
    var v0 := View(800.0, 480.0, -270.0, ScreenWidth, ScreenHeight);
    var v1 := View(800.0 * Growth, 480.0, -270.0, ScreenWidth, ScreenHeight);
    assert ScreenX(p, v0) == 480 && ScreenY(p, v0) == 10;
    assert ScreenY(p, v1) == -70;
    assert Template().controls == [p];
  }

  /** `vector::resize(n)`: keep the first values, value-initialise the new ones. */
  method Resize(a: array<Point>, n: nat) returns (b: array<Point>)
    ensures fresh(b) && b.Length == n
    ensures forall k :: 0 <= k < n ==> b[k] == if k < a.Length then a[k] else Origin
  {
    b := new Point[n];
    var k := 0;
    while k < n
      invariant 0 <= k <= n
      invariant forall j :: 0 <= j < k ==> b[j] == if j < a.Length then a[j] else Origin
    {
      b[k] := if k < a.Length then a[k] else Origin;
      k := k + 1;
    }
  }

  class Editor {
    var curves: seq<Curve>
    var numPoints: nat
    var curvePoints: array<Point>
    var scale: real
    var offsetX: real
    var offsetY: real
    var showPoints: bool
    var panning: bool
    var panAnchorX: int
    var panAnchorY: int
    var dragPrev: Option<(int, int)>
    var draggingControl: bool
    var draggingAnchor: bool
    var controlIndex: int
    var anchorIndex: int

    ghost predicate Valid()
      reads this, curvePoints
    {
      && 0.0 < scale
      && AllWellFormed(curves)
      && curvePoints.Length == numPoints * |curves|
      && curvePoints[..] == Samples(curves, numPoints)
    }

    /** The view every projection of this frame uses. */
    function CurrentView(): View
      reads this
    {
      View(scale, offsetX, offsetY, ScreenWidth, ScreenHeight)
    }

    /** The state panning works on. */
    function PanState(): Pan
      reads this
    {
      Pan(panning, panAnchorX, panAnchorY, offsetX, offsetY)
    }

    /** The drag-session state: previous pointer, engagement flags and the two picked indices. */
    function DragState(): Drag
      reads this
    {
      Drag(dragPrev, draggingControl, draggingAnchor, controlIndex, anchorIndex)
    }

    /** The initial state of `main` (lines 96-140). */
    constructor ()
      ensures Valid() && fresh(curvePoints)
      ensures curves == [Template()] && numPoints == 1000
      ensures scale == 800.0 && offsetX == 480.0 && offsetY == -270.0 && showPoints
      ensures PanState() == Pan(false, -1, -1, 480.0, -270.0)
      ensures DragState() == Drag(None, false, false, -1, -1)
    {
      curves := [Template()];
      numPoints := 1000;
      curvePoints := new Point[1000];
      scale := 800.0;
      offsetX := ScreenWidth as real / 4.0;
      offsetY := -ScreenHeight as real / 4.0;
      showPoints := true;
      panning := false;
      panAnchorX, panAnchorY := -1, -1;
      dragPrev := None;
      draggingControl, draggingAnchor := false, false;
      controlIndex, anchorIndex := -1, -1;
      new;
      CalculatePoints(curves, numPoints, curvePoints);
    }

    /**
     * P: add the control point (0,0) to the last curve, set its order and
     * recompute the samples. With no curve at all nothing happens.
     */
    method AddControlPoint()
      requires Valid()
      modifies this, curvePoints
      ensures Valid() && curvePoints == old(curvePoints)
      ensures curves == if |old(curves)| > 0 then WithControlPoint(old(curves)) else old(curves)
      ensures numPoints == old(numPoints) && CurrentView() == old(CurrentView()) && showPoints == old(showPoints)
      ensures PanState() == old(PanState()) && DragState() == old(DragState())
    {
      if |curves| > 0 {
        WithControlPointWellFormed(curves);
        curves := WithControlPoint(curves);
        WellFormedEvaluable(curves);
        CalculatePoints(curves, numPoints, curvePoints);
      }
    }

    /**
     * N: append the template curve unless the last curve already has its
     * points; on success grow the buffer to `numPoints * |curves|` and
     * recompute the samples.
     */
    method AddCurve()
      requires Valid()
      modifies this, curvePoints
      ensures Valid()
      ensures curves == WithCurve(old(curves))
      ensures curves == old(curves) ==> curvePoints == old(curvePoints)
      ensures curves != old(curves) ==> fresh(curvePoints)
      ensures numPoints == old(numPoints) && CurrentView() == old(CurrentView()) && showPoints == old(showPoints)
      ensures PanState() == old(PanState()) && DragState() == old(DragState())
    {
      if LastIsTemplate(curves) {
        // rejected as a duplicate: reported, nothing changes
      } else {
        WithCurveWellFormed(curves);
        curves := curves + [Template()];
        WellFormedEvaluable(curves);
        curvePoints := Resize(curvePoints, numPoints * |curves|);
        CalculatePoints(curves, numPoints, curvePoints);
      }
    }

    /** D: one frame of panning, with `held` telling whether the key is down. */
    method PanStep(held: bool, mx: int, my: int)
      requires Valid()
      modifies this
      ensures Valid()
      ensures PanState() == PanTick(old(PanState()), held, mx, my)
      ensures curves == old(curves) && numPoints == old(numPoints) && curvePoints == old(curvePoints)
      ensures scale == old(scale) && showPoints == old(showPoints) && DragState() == old(DragState())
    {
      if held {
        if !panning {
          panAnchorX, panAnchorY := mx, my;
          panning := true;
        } else {
          offsetX := offsetX + (mx - panAnchorX) as real;
          offsetY := offsetY + (my - panAnchorY) as real;
          panAnchorX, panAnchorY := mx, my;
        }
      } else {
        panning := false;
        panAnchorX, panAnchorY := -1, -1;
      }
    }

    /**
     * The value a pixel channel has after a frame's drawing: anchor markers
     * drawn last win over control markers, which win over curve samples;
     * channels not painted keep their value from before.
     */
    static function Shade(samples: seq<Point>, markers: bool, controls: seq<Point>, anchors: seq<Point>, v: View,
                          px: int, py: int, ch: int, before: Byte): Byte
      requires 0 <= ch
    {
      if ch < 3 && markers && StampedBy(anchors, |anchors|, MarkerRadius, v, px, py) then Green[ch]
      else if ch < 3 && markers && StampedBy(controls, |controls|, MarkerRadius, v, px, py) then Red[ch]
      else if ch < 3 && StampedBy(samples, |samples|, SampleRadius, v, px, py) then White[ch]
      else before
    }

    /**
     * The drawing of a frame (lines 218-232): every sample in white, then,
     * while markers are shown, the control points of the last curve in red
     * and its anchors in green. With no curve there is no marker to draw.
     */
    method Render(image: array3<Byte>)
      requires Valid() && Fits(image, CurrentView())
      ensures forall px, py, ch :: 0 <= px < image.Length0 && 0 <= py < image.Length1 && 0 <= ch < image.Length2 ==>
        image[px, py, ch] == Shade(curvePoints[..], showPoints && |curves| > 0, LastControls(curves), LastAnchors(curves),
                                   CurrentView(), px, py, ch, old(image[px, py, ch]))
      modifies image
    {
      DrawPoints(SampleRadius, image, curvePoints[..], White, CurrentView());
      if showPoints && |curves| > 0 {
        DrawPoints(MarkerRadius, image, LastControls(curves), Red, CurrentView());
        DrawPoints(MarkerRadius, image, LastAnchors(curves), Green, CurrentView());
      }
    }

    /** H: show or hide the point markers, and clear the image. */
    method ToggleMarkers(image: array3<Byte>)
      requires Valid()
      modifies this, image
      ensures Valid()
      ensures showPoints == !old(showPoints)
      ensures curves == old(curves) && numPoints == old(numPoints) && curvePoints == old(curvePoints)
      ensures CurrentView() == old(CurrentView()) && PanState() == old(PanState()) && DragState() == old(DragState())
      ensures forall px, py, ch :: 0 <= px < image.Length0 && 0 <= py < image.Length1 && 0 <= ch < image.Length2 ==>
        image[px, py, ch] == 0
    {
      showPoints := !showPoints;
      Fill(image, 0);
    }

    /** Arrow up: zoom in by 1.1, raise the sample count by 1.1 (truncated), resize and recompute. */
    method ZoomIn()
      requires Valid()
      modifies this
      ensures Valid() && fresh(curvePoints)
      ensures scale == old(scale) * Growth
      ensures numPoints == Trunc(old(numPoints) as real * Growth)
      ensures curves == old(curves) && offsetX == old(offsetX) && offsetY == old(offsetY)
      ensures showPoints == old(showPoints) && PanState() == old(PanState()) && DragState() == old(DragState())
    {
      scale := scale * Growth;
      numPoints := Trunc(numPoints as real * Growth);
      curvePoints := Resize(curvePoints, numPoints * |curves|);
      CalculatePoints(curves, numPoints, curvePoints);
    }

    /** Arrow down: zoom out by 1.1, lower the sample count by 1.1 (truncated), resize and recompute. */
    method ZoomOut()
      requires Valid()
      modifies this
      ensures Valid() && fresh(curvePoints)
      ensures scale == old(scale) / Growth
      ensures numPoints == Trunc(old(numPoints) as real / Growth)
      ensures curves == old(curves) && offsetX == old(offsetX) && offsetY == old(offsetY)
      ensures showPoints == old(showPoints) && PanState() == old(PanState()) && DragState() == old(DragState())
    {
      scale := scale / Growth;
      numPoints := Trunc(numPoints as real / Growth);
      curvePoints := Resize(curvePoints, numPoints * |curves|);
      CalculatePoints(curves, numPoints, curvePoints);
    }

    /**
     * SPACE: one frame of point dragging, with `held` telling whether the key
     * is down. Dragging works only while the markers are shown: the frame
     * ends the drag session when the key is up or the markers are hidden,
     * starts one when no previous pointer is remembered, and otherwise
     * follows the pointer.
     */
    method DragStep(held: bool, mx: int, my: int)
      requires Valid()
      modifies this, curvePoints
      ensures Valid() && curvePoints == old(curvePoints)
      ensures numPoints == old(numPoints) && CurrentView() == old(CurrentView()) && showPoints == old(showPoints)
      ensures PanState() == old(PanState())
      ensures !(held && old(showPoints)) ==>
        curves == old(curves) && DragState() == Drag(None, false, false, old(controlIndex), old(anchorIndex))
      ensures held && old(showPoints) && old(dragPrev).None? ==>
        curves == old(curves) && DragState() == Engaged(old(curves), old(CurrentView()), old(DragState()), mx, my)
      ensures held && old(showPoints) && old(dragPrev).Some? ==>
        && dragPrev == Observe(mx, my)
        && draggingControl == old(draggingControl) && draggingAnchor == old(draggingAnchor)
        && (controlIndex, anchorIndex) == Repicked(old(curves), old(CurrentView()), old(DragState()))
        && curves == Followed(old(curves), old(scale), old(DragState()), controlIndex, anchorIndex, mx, my)
    {
      if held && showPoints {
        if dragPrev.None? {
          Engage(mx, my);
        } else {
          Follow(mx, my);
        }
      } else {
        dragPrev := None;
        draggingControl := false;
        draggingAnchor := false;
      }
    }

    /**
     * The drag state after a first held frame: the pointer is remembered, a
     * control point is engaged if the pointer is on one, and an anchor only
     * if no control point is engaged. Flags already set stay set.
     */
    static function Engaged(cs: seq<Curve>, v: View, before: Drag, mx: int, my: int)
      : (r: Drag)
      ensures r.prev == Observe(mx, my) && r.controlIndex == before.controlIndex && r.anchorIndex == before.anchorIndex
      ensures r.control <==> before.control || FirstNear(LastControls(cs), mx, my, v, 0).Some?
      ensures r.anchor <==> before.anchor || (!r.control && FirstNear(LastAnchors(cs), mx, my, v, 0).Some?)
    {
      var control := before.control || FirstNear(LastControls(cs), mx, my, v, 0).Some?;
      var anchor := before.anchor || (!control && FirstNear(LastAnchors(cs), mx, my, v, 0).Some?);
      Drag(Observe(mx, my), control, anchor, before.controlIndex, before.anchorIndex)
    }

    /**
     * The indices after a later held frame: the engaged kind of point is
     * re-picked at the previous pointer position; the other index is kept.
     */
    static function Repicked(cs: seq<Curve>, v: View, before: Drag): (r: (int, int))
      requires before.prev.Some?
      ensures before.control ==> r == (Repick(LastControls(cs), before.prev.value, v, before.controlIndex), before.anchorIndex)
      ensures !before.control && before.anchor ==>
        r == (before.controlIndex, Repick(LastAnchors(cs), before.prev.value, v, before.anchorIndex))
      ensures !before.control && !before.anchor ==> r == (before.controlIndex, before.anchorIndex)
    {
      var prev := before.prev.value;
      if before.control then (Repick(LastControls(cs), prev, v, before.controlIndex), before.anchorIndex)
      else if before.anchor then (before.controlIndex, Repick(LastAnchors(cs), prev, v, before.anchorIndex))
      else (before.controlIndex, before.anchorIndex)
    }

    /** The curves after a later held frame: the engaged point moves by the pointer's movement over the scale. */
    static function Followed(cs: seq<Curve>, scale: real, before: Drag,
                             ci: int, ai: int, mx: int, my: int): (r: seq<Curve>)
      requires before.prev.Some? && scale != 0.0
      ensures |r| == |cs| && forall k :: 0 <= k < |cs| - 1 ==> r[k] == cs[k]
      ensures !before.control && !before.anchor ==> r == cs
      ensures before.control && |cs| > 0 ==>
        var prev := before.prev.value;
        Last(r) == Last(cs).(controls := MoveIn(Last(cs).controls, ci, mx - prev.0, my - prev.1, scale))
      ensures !before.control && before.anchor && |cs| > 0 ==>
        var prev := before.prev.value;
        Last(r) == Last(cs).(anchors := MoveIn(Last(cs).anchors, ai, mx - prev.0, my - prev.1, scale))
    {
      var prev := before.prev.value;
      if before.control then MoveControl(cs, ci, mx - prev.0, my - prev.1, scale)
      else if before.anchor then MoveAnchor(cs, ai, mx - prev.0, my - prev.1, scale)
      else cs
    }

    /** First held frame of a drag (lines 264-294). */
    method Engage(mx: int, my: int)
      requires Valid() && dragPrev.None?
      modifies this
      ensures Valid()
      ensures curves == old(curves) && curvePoints == old(curvePoints) && numPoints == old(numPoints)
      ensures CurrentView() == old(CurrentView()) && showPoints == old(showPoints) && PanState() == old(PanState())
      ensures DragState() == Engaged(curves, CurrentView(), old(DragState()), mx, my)
    {
      dragPrev := Observe(mx, my);
      var hit := Pick(LastControls(curves), mx, my, CurrentView());
      if hit.Some? {
        draggingControl := true;
      }
      if !draggingControl {
        hit := Pick(LastAnchors(curves), mx, my, CurrentView());
        if hit.Some? {
          draggingAnchor := true;
        }
      }
    }

    /**
     * The picking and moving of a later held frame, on values: the engaged
     * kind of point is re-picked at the previous pointer position and the
     * picked point of the last curve follows the pointer.
     */
    static method Track(cs: seq<Curve>, scale: real, v: View, before: Drag,
                        mx: int, my: int) returns (r: seq<Curve>, ci: int, ai: int)
      requires before.prev.Some? && 0.0 < scale && AllWellFormed(cs)
      ensures (ci, ai) == Repicked(cs, v, before)
      ensures r == Followed(cs, scale, before, ci, ai, mx, my)
      ensures AllWellFormed(r)
    {
      var prev := before.prev.value;
      var dx, dy := mx - prev.0, my - prev.1;
      r, ci, ai := cs, before.controlIndex, before.anchorIndex;
      if before.control {
        var hit := Pick(LastControls(cs), prev.0, prev.1, v);
        if hit.Some? {
          ci := hit.value;
        }
        MoveWellFormed(cs, ci, dx, dy, scale);
        r := MoveControl(cs, ci, dx, dy, scale);
      } else if before.anchor {
        var hit := Pick(LastAnchors(cs), prev.0, prev.1, v);
        if hit.Some? {
          ai := hit.value;
        }
        MoveWellFormed(cs, ai, dx, dy, scale);
        r := MoveAnchor(cs, ai, dx, dy, scale);
      }
    }

    /** Later held frame of a drag (lines 296-338). */
    method Follow(mx: int, my: int)
      requires Valid() && dragPrev.Some?
      modifies this, curvePoints
      ensures Valid() && curvePoints == old(curvePoints)
      ensures numPoints == old(numPoints) && CurrentView() == old(CurrentView()) && showPoints == old(showPoints)
      ensures PanState() == old(PanState())
      ensures dragPrev == Observe(mx, my)
      ensures draggingControl == old(draggingControl) && draggingAnchor == old(draggingAnchor)
      ensures (controlIndex, anchorIndex) == Repicked(old(curves), CurrentView(), old(DragState()))
      ensures curves == Followed(old(curves), scale, old(DragState()), controlIndex, anchorIndex, mx, my)
    {
      curves, controlIndex, anchorIndex := Track(curves, scale, CurrentView(), DragState(), mx, my);
      Recompute();
      dragPrev := Observe(mx, my);
    }

    /** `calculatePoints(curves, num_points, curvePoints)` on a buffer of the right size. */
    method Recompute()
      requires 0.0 < scale && AllWellFormed(curves) && curvePoints.Length == numPoints * |curves|
      modifies curvePoints
      ensures Valid()
    {
      WellFormedEvaluable(curves);
      CalculatePoints(curves, numPoints, curvePoints);
    }

    /** C: clear the image, the curve set and the sample buffer. */
    method Clear(image: array3<Byte>)
      requires Valid()
      modifies this, image
      ensures Valid()
      ensures curves == [] && curvePoints.Length == 0
      ensures numPoints == old(numPoints) && CurrentView() == old(CurrentView()) && showPoints == old(showPoints)
      ensures PanState() == old(PanState()) && DragState() == old(DragState())
      ensures forall px, py, ch :: 0 <= px < image.Length0 && 0 <= py < image.Length1 && 0 <= ch < image.Length2 ==>
        image[px, py, ch] == 0
    {
      Fill(image, 0);
      curves := [];
      curvePoints := new Point[0];
    }
  }
}
