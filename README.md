# Bézier curve editor — a Dafny model

This project models `main.cpp`, a small interactive editor for Bézier curves.
The editor keeps a list of curves. Each curve has two anchor points, some
control points and an order, and is drawn as a polyline of samples. The last
curve of the list is the one being edited. Keys add a control point (P), add a
curve (N), pan the view (D), show or hide the point markers (H), zoom (arrow
keys), drag a marker with the pointer (SPACE) and clear everything (C).

The model has these parts, one module each:

- `Geometry` (`geometry.dfy`): points over `real`, exact point equality, and linear interpolation.
- `Evaluator` (`evaluator.dfy`): the de Casteljau evaluator `bezier`.
  - As a recursive function with its error case, endpoint interpolation, the order-1 case, and agreement with the Bernstein form for orders 2 and 3.
  - As a looping method proved equal to that function.
  - As the over-long loop that the source actually runs (see Findings).
- `Sampler` (`sampler.dfy`): `calculatePoints`, which fills a caller-owned array with one block of samples per curve.
- `Viewport` (`viewport.dfy`): the projection to the screen, with the Y flip and C truncation, and picking the first point within 5 px of the pointer.
- `Raster` (`raster.dfy`): `drawPointToImage`, which stamps a clipped square into a width × height × channel byte image, plus the loops that draw a list of points and `image.fill`.
- `CurveSet` (`edits.dfy`): the edits made to the curve list, as functions on values.
- `Panning` (`panning.dfy`): the pan state machine of the D key.
- `Session` (`session.dfy`): the state `main` keeps across frames, as class `Editor` with one method per intent.
  - The class invariant `Valid()` says three things: the scale is positive, every curve is well-formed, and the sample array holds exactly `Samples(curves, numPoints)`.

Coordinates are `real`, so properties such as "the curve ends at its second
anchor" hold in exact arithmetic. C's `(int)` cast is modelled as truncation
toward zero (`Viewport.Trunc`).

The drag re-pick at lines 303-310 and 318-325 scans the `controlPoints` /
`anchorPoints` snapshot. That snapshot always equals the last curve's points
at that point of the frame:

- a frame that follows a drag has `showPoints` set at line 223, so line 224 has refreshed the snapshot in the same frame;
- a frame that starts a drag refreshes it at line 266;
- nothing between those lines and the drag code edits the curves.

The model therefore re-picks on the last curve's points directly.

## Model

| member | source | states |
|---|---|---|
| Geometry.Equal | main.cpp:17-20 | point equality holds exactly when both coordinates are equal |
| Geometry.EqualPoints | main.cpp:173 | `vector<Point>` equality holds exactly when the lengths agree and the points agree pairwise |
| Geometry.Lerp | main.cpp:28-33 | interpolation gives the first point at t = 0 and the second at t = 1 |
| Geometry.LerpReversed | main.cpp:28-33 | interpolating from p2 to p1 at 1 - t is interpolating from p1 to p2 at t |
| Evaluator.Step | main.cpp:52-54 | one round of de Casteljau has one point fewer, and point j is the interpolation of points j and j+1 |
| Evaluator.Level | main.cpp:51-57 | after k rounds, k points fewer remain |
| Evaluator.Bezier | main.cpp:35-64 | a curve that fails the order check evaluates to the default point (0,0); any other curve evaluates to its de Casteljau point |
| Evaluator.ValidOrder | main.cpp:36 | the order check: `order >= 1` and `order` equals the number of controls plus one |
| Evaluator.Layout | main.cpp:43-48 | the working vector is anchor0, then every control point in order, then anchor1 |
| Evaluator.DeCasteljau | main.cpp:50-61 | the point left at index 0 after one round fewer than there are points |
| Evaluator.BezierChecked | main.cpp:36-39 | the "Invalid order" report (`None`) is made exactly when the curve fails the order check |
| Evaluator.LevelAtZero | main.cpp:51-57 | at t = 0, every round drops the last point of the working vector |
| Evaluator.LevelAtOne | main.cpp:51-57 | at t = 1, every round drops the first point of the working vector |
| Evaluator.BezierAtZero | main.cpp:41-63 | a valid curve evaluates to its first anchor at t = 0 |
| Evaluator.BezierAtOne | main.cpp:41-63 | a valid curve evaluates to its second anchor at t = 1 |
| Evaluator.BezierOrderOne | main.cpp:51-61 | an order-1 curve evaluates to `lerp(anchor0, anchor1, t)` |
| Evaluator.BezierQuadratic | main.cpp:41-63 | an order-2 curve equals the quadratic Bernstein polynomial of its three points, in each coordinate |
| Evaluator.BezierCubic | main.cpp:41-63 | an order-3 curve equals the cubic Bernstein polynomial of its four points, in each coordinate |
| Evaluator.EvaluateBezier | main.cpp:41-63 | the loops (layout, then `order` rounds of pairwise lerp over a shrinking range) return exactly `Bezier(c, t)`, including (0,0) for a rejected curve |
| Evaluator.OverlongRound | main.cpp:52-54 | one round as written produces `order` points, and each in-range one is the lerp of its two neighbours |
| Evaluator.OverlongRounds | main.cpp:51-57 | after at least one round as written, the working vector has `order` points |
| Evaluator.OverlongReadsPastEnd | main.cpp:52-53 | from round 2 on, the working vector has `order` points, and the round's last point is the lerp of the last point and the value read at index `order`, past the end |
| Evaluator.OverlongAgrees | main.cpp:51-57 | after k rounds as written, the first `order + 1 - k` points are the true de Casteljau points, whatever the out-of-range reads return |
| Evaluator.OverlongResult | main.cpp:59-61 | the point returned, index 0 after `order` rounds as written, is `Bezier(c, t)` |
| Evaluator.OverlongTailIsGarbage | main.cpp:51-57 | on the start-up curve at t = 0.5, the point at index 1 after two rounds depends on the value read past the end |
| Sampler.Param | main.cpp:83-89 | the parameter of sample i, computed as `i * (1.0 / n)` |
| Sampler.ParamIsFraction | main.cpp:83-89 | the parameter `i * (1.0 / n)` of sample i is the fraction i / n |
| Sampler.Samples | main.cpp:81-93 | the buffer content has `num_points` samples per curve |
| Sampler.SamplesAt | main.cpp:86-91 | sample i of curve c is at index `i + c*num_points`, inside the content, and equals `bezier(cs[c], i*(1/num_points))` with a parameter in [0, 1) |
| Sampler.ParamBelowOne | main.cpp:83-89 | the parameters `i * (1/n)` with i < n lie in [0, 1), so t = 1 is never sampled |
| Sampler.SamplesAppend | main.cpp:86-92 | the content for a list of curves is the content for any prefix followed by the content for the rest: a curve's block depends on that curve alone |
| Sampler.CalculatePoints | main.cpp:81-93 | the first `num_points` times the number of curves buffer cells become the samples, and no later cell is written |
| Viewport.Trunc | main.cpp:67-68 | `(int)` truncates toward zero: the result is the integer part, between 0 and the argument |
| Viewport.ScreenX | main.cpp:67 | the screen column is the exact projection `scale*x + offsetX` truncated toward zero, less than one pixel from it |
| Viewport.ScreenY | main.cpp:68 | the screen row is the exact flipped projection `screenHeight - scale*y + offsetY` truncated toward zero, less than one pixel from it |
| Viewport.Near | main.cpp:275-277 | the pointer is on a point exactly when it lies in the 11 x 11 pixel box around the point's projection |
| Viewport.FirstNear | main.cpp:274-283 | the result is the first point within 5 px in both axes, and there is none exactly when no point is that close |
| Viewport.Pick | main.cpp:274-283 | the scanning loop with `break` returns the first such point (`FirstNear`) |
| Viewport.PickPrefersLowestIndex | main.cpp:275-282 | when two points are under the pointer, the lower index wins |
| Viewport.ShiftFollowsPointer | main.cpp:312-314 | moving a point by (dx/scale, -dy/scale) moves its unrounded projection by exactly (dx, dy) |
| Raster.InSquare | main.cpp:70-72 | a pixel is painted when it is within the radius of the centre in both axes and on the screen |
| Raster.Stamped | main.cpp:67-72 | the same, around the projection of a point |
| Raster.DrawPointToImage | main.cpp:66-79 | channels 0-2 get `color` exactly on the on-screen pixels within `radius` of the projected point in both axes, and every other value is unchanged |
| Raster.DrawPoints | main.cpp:219-221 | a drawing loop over a list paints exactly the pixels some stamp covers, and leaves the rest unchanged |
| Raster.Fill | main.cpp:352 | every value of the image becomes the fill value |
| CurveSet.WellFormedEvaluable | main.cpp:36-48 | a well-formed curve has the two anchors the layout reads and is never reported as having an invalid order, at any t |
| CurveSet.LastSlot | main.cpp:145 | `curves.size() - 1` is a `size_t` value |
| CurveSet.LastSlotInRange | main.cpp:145 | the index `curves.size() - 1` is inside the list exactly when the list is non-empty; for the empty list it is the largest `size_t` |
| CurveSet.Template | main.cpp:169-170 | the curve N adds (control (0,1), anchors (0,0) and (1,1)) is well-formed, with order 2 |
| CurveSet.LastIsTemplate | main.cpp:172-173 | the duplicate test holds exactly when the list is non-empty and its last curve has the template's controls and anchors |
| CurveSet.WithCurve | main.cpp:167-194 | N keeps all existing curves; it appends the template or nothing; afterwards the last curve has the template's points; the list is unchanged exactly when its last curve already has those points (order not compared) |
| CurveSet.WithCurveIdempotent | main.cpp:172-174 | pressing N twice adds at most one curve |
| CurveSet.WithCurveAfterClear | main.cpp:186-193 | N on an empty list gives the one-curve template list |
| CurveSet.WithCurveWellFormed | main.cpp:176-181 | adding a curve keeps every curve well-formed |
| CurveSet.WithControlPoint | main.cpp:157-161 | P appends (0,0) to the last curve's controls, keeps its anchors and the earlier curves, and sets the order to the number of controls plus one |
| CurveSet.WithControlPointWellFormed | main.cpp:157-161 | adding a control point keeps every curve well-formed, whatever the last curve's order was |
| CurveSet.Nudge | main.cpp:313-314 | the displacement of a dragged point, multiplied by the scale, is (dx, -dy), the pointer's movement |
| CurveSet.MoveIn | main.cpp:312-314 | only point i moves, by (dx/scale, -dy/scale); an index outside the list moves nothing |
| CurveSet.MoveControl | main.cpp:312-314 | a control drag changes only the last curve's controls |
| CurveSet.MoveAnchor | main.cpp:327-329 | an anchor drag changes only the last curve's anchors |
| CurveSet.MoveWellFormed | main.cpp:312-329 | dragging keeps every curve well-formed |
| Panning.PanTick | main.cpp:196-217 | panning is active exactly while D is held; a held frame anchors at the pointer and, when panning was already active, adds the pointer's movement since the anchor to the offsets; a release resets the anchor to (-1,-1); the offsets change only on a held frame after the first |
| Panning.PanHeldActive | main.cpp:202-211 | while panning is under way, the offsets move by the pointer's total movement since the anchor, which ends at the last pointer |
| Panning.PanTelescopes | main.cpp:196-211 | over held frames starting from rest, the offset change is the last pointer position minus the first |
| Session.Observe | main.cpp:264 | a pointer reading is "no drag under way" exactly when it is the (-1,-1) sentinel |
| Session.Repick | main.cpp:303-310 | when some point is under the previous pointer, a re-pick returns the first such index; when none is, it returns the kept index unchanged |
| Session.ZoomedRepickMisses | main.cpp:246-248 | after one zoom step, a re-pick at the pointer that engaged the start-up control point finds nothing and keeps -1 |
| Session.Resize | main.cpp:180 | `resize` keeps the first values and value-initialises the new ones to (0,0) |
| Session.Editor.constructor | main.cpp:96-140 | the start-up state: one template curve, 1000 samples per curve computed, scale 800, offsets (480, -270), markers shown, no drag or pan under way |
| Session.Editor.AddControlPoint | main.cpp:143-165 | P applies `WithControlPoint` and recomputes the samples; on an empty list it changes nothing |
| Session.Editor.AddCurve | main.cpp:167-194 | N applies `WithCurve`; if a curve was added, the buffer is reallocated to `num_points` samples per curve and recomputed |
| Session.Editor.PanStep | main.cpp:196-217 | one frame of D is `PanTick`, and it changes nothing else |
| Session.Editor.Shade | main.cpp:219-231 | the value a pixel channel has after the frame's stamps: anchor markers over control markers over samples over the old value |
| Session.Editor.Render | main.cpp:218-232 | each pixel channel ends as green if an anchor marker covers it, else red for a control marker, else white for a curve sample, else unchanged; markers only while shown and when a curve exists |
| Session.Editor.ToggleMarkers | main.cpp:234-237 | H flips `showPoints`, clears the image and changes nothing else |
| Session.Editor.ZoomIn | main.cpp:246-251 | arrow up multiplies the scale by 1.1 and sets the sample count to `(int)(num_points * 1.1)`, the product truncated toward zero; the buffer is re-sized and recomputed |
| Session.Editor.ZoomOut | main.cpp:252-257 | arrow down divides both by 1.1, with the same truncation, re-sizing and recomputing |
| Session.Editor.Engaged | main.cpp:264-294 | definition of the drag state after the first held frame, to which `Engage` and `DragStep` are tied: the pointer is remembered, controls engage if the pointer is on one (by `FirstNear`), anchors only when no control is engaged, and the indices are kept |
| Session.Editor.Repicked | main.cpp:301-325 | definition of the indices after a later held frame, to which `Track` and `DragStep` are tied (the first-match and kept-on-miss promises are those of `Repick`): with a control engaged, the control index is `Repick` of the last curve's controls at the previous pointer; otherwise, with an anchor engaged, the anchor index is `Repick` of its anchors; the other index is kept |
| Session.Editor.Followed | main.cpp:300-331 | a later frame moves the picked point of the engaged kind of the last curve by the pointer's movement (through `MoveIn`), keeps every earlier curve, and moves nothing when nothing is engaged |
| Session.Editor.Track | main.cpp:296-331 | the picking and moving loops compute exactly `Repicked` and `Followed`, and keep the curves well-formed |
| Session.Editor.Engage | main.cpp:264-294 | the first held frame's scans leave the drag state `Engaged` and change nothing else |
| Session.Editor.Follow | main.cpp:295-339 | a later held frame re-picks, moves, recomputes the samples and remembers the pointer |
| Session.Editor.DragStep | main.cpp:259-348 | one frame of SPACE: release when the key is up or the markers are hidden, otherwise engage or follow as above |
| Session.Editor.Recompute | main.cpp:334 | recomputing the samples restores the buffer invariant |
| Session.Editor.Clear | main.cpp:351-355 | C leaves the image zero and the curve list and sample buffer empty, and changes nothing else |

## Left out

- The CImg window, `display.display`, `display.wait`, `is_closed` and the key polling (lines 109-110, 142, 239-244). Each intent is a method, and whether its key is down is a parameter or the choice of method.
- The pointer position is a parameter of the methods that read it.
- `Panning.PanTick`, `Session.Editor.PanStep`, `Session.Editor.Follow` and `Session.Editor.DragStep` take one pointer reading `(mx, my)` per frame and use it for both of the frame's reads. A held frame of the source reads the pointer twice: D at lines 205-206 for the offsets and again at 209-210 for the new anchor; SPACE at 297-298 for the move and again at 337-338 for `prevMouse`, with `calculatePoints` (line 334) in between. The window may update the pointer between the two calls. The model, and `Panning.PanTelescopes` with it, assumes both readings agree, so it does not capture movement between them: in the source that movement is lost to the pan offsets, and during a drag it leaves the dragged point behind the remembered pointer, so the next re-pick can miss without any zoom (a second route to the third Findings row).
- The order of the intents within one frame of the loop (lines 142-360) is not a member. Each intent is modelled on its own.
- The Q key (lines 242-244) ends the program and has no state to model.
- Console output (lines 37, 148-155, 174): the text is not modelled. The decisions it reports are kept: the rejection of line 37 is `Evaluator.BezierChecked` returning `None`, and the duplicate of line 174 is `CurveSet.LastIsTemplate`.
- The `#pragma comment` lines (6-8), the unused `order` and `dt` variables (106, 114), the scratch vector `t` of `calculatePoints` (82, written at 89 and read at 90, kept by nothing), and the final `image.fill(0)` of each frame (359), which is the same operation as `Raster.Fill`.
- Floating point: coordinates, the scale and the offsets are exact reals.
  - `Evaluator.BezierAtOne` holds in exact arithmetic only; in doubles the end point can be off by rounding.
  - `Geometry.Equal` is exact real equality, not IEEE equality (NaN and signed zero are not modelled).
- Session.Editor.ZoomOut: `num_points /= 1.1` is modelled as the truncation of the exact quotient. The double 1.1 is slightly above 11/10, so the double quotient can fall just below an integer and truncate one lower: 33 gives 29 in doubles and 30 in the model, 1100 gives 999 and 1000. For `num_points *= 1.1` (`Session.Editor.ZoomIn`) the double product truncates to the same integer as the exact one, so the model agrees with the doubles. Overflow of `int` after many zooms is not modelled.
- `CurveSet.LastSlot` takes `size_t` to be 64 bits wide. A 32-bit build (the `#pragma comment(lib, …)` lines point to MSVC, which also targets 32-bit) wraps to 2^32 - 1 instead; either value is past the end of an empty list.
- Integer widths: `int` values (pointer coordinates, indices, `num_points * curves.size()`) are unbounded. A cast of an out-of-range double to `int` is undefined in C and is modelled as plain truncation.
- Undefined behaviour of the source is replaced by guarded behaviour (see Findings). With an empty curve list:
  - P changes nothing;
  - the first drag frame engages nothing;
  - markers are not drawn.
  - An index that is not in the list moves no point.
- `Session.Observe`: a pointer reading of exactly (-1, -1) is indistinguishable from the "no drag" sentinel, as in the source.

## Findings

| source | as written | input that shows it | evidently intended | confidence | as-written member | corrected member |
|---|---|---|---|---|---|---|
| main.cpp:52-53 | every round of `bezier` runs `i < order`, so from round 2 on it reads `tempPoints[order]` past the end of an `order`-point vector | any curve of order 2 or more, e.g. the start-up curve at any t | round k computes `order + 1 - k` points; the returned point is unchanged | not executed | Evaluator.OverlongReadsPastEnd | Evaluator.EvaluateBezier |
| main.cpp:145, 158, 224, 266 | `curves[curves.size() - 1]` is indexed without checking that the list is non-empty | press C, then let one frame pass with markers shown (the default): line 224 reads index `SIZE_MAX` | with no curve, there is nothing to draw, extend or pick | not executed | CurveSet.LastSlotInRange | Session.Editor.Render |
| main.cpp:303-314 | when the re-pick finds no point, `controlPointIndex` keeps its old value, -1 on a first drag, and line 313 writes `controlPoints[-1]` | engage the start-up control point with the pointer at (480, 10), then hold arrow-up and SPACE in the next frame: the point's row becomes -70 and the re-pick misses | an index outside the list moves nothing | not executed | Session.ZoomedRepickMisses | CurveSet.MoveIn |
