/**
 * Panning with the D key: while the key is held, every frame adds the
 * pointer's movement since the previous frame to the view offset.
 */
module Panning {

  /** `isDraggingScreen`, `initialMouseX/Y` and the view offsets. */
  datatype Pan = Pan(active: bool, anchorX: int, anchorY: int, offsetX: real, offsetY: real)

  /**
   * One frame of panning: a release clears the anchor to (-1, -1); the first
   * held frame anchors at the pointer; a later held frame adds the pointer's
   * movement since the anchor to the offsets and re-anchors.
   */
  function PanTick(s: Pan, held: bool, mx: int, my: int): (r: Pan)
    ensures r.active == held
    ensures held ==> r.anchorX == mx && r.anchorY == my
    ensures !held ==> r.anchorX == -1 && r.anchorY == -1
    ensures held && s.active ==>
      r.offsetX - s.offsetX == (mx - s.anchorX) as real && r.offsetY - s.offsetY == (my - s.anchorY) as real
    ensures !(held && s.active) ==> r.offsetX == s.offsetX && r.offsetY == s.offsetY
  {
    if !held then s.(active := false, anchorX := -1, anchorY := -1)
    else if !s.active then s.(active := true, anchorX := mx, anchorY := my)
    else Pan(true, mx, my, s.offsetX + (mx - s.anchorX) as real, s.offsetY + (my - s.anchorY) as real)
  }

  /** Consecutive frames with the key held, at the given pointer positions. */
  function PanHeld(s: Pan, pointer: seq<(int, int)>): Pan
    decreases |pointer|
  {
    if pointer == [] then s
    else PanHeld(PanTick(s, true, pointer[0].0, pointer[0].1), pointer[1..])
  }

  /** While panning is under way, the offsets move by the pointer's total movement since the anchor. */
  lemma {:induction false} PanHeldActive(s: Pan, pointer: seq<(int, int)>)
    requires s.active && |pointer| > 0
    decreases |pointer|
    ensures var e := PanHeld(s, pointer);
            var last := pointer[|pointer| - 1];
            e.active && e.anchorX == last.0 && e.anchorY == last.1 &&
            e.offsetX == s.offsetX + (last.0 - s.anchorX) as real &&
            e.offsetY == s.offsetY + (last.1 - s.anchorY) as real
  {
    var next := PanTick(s, true, pointer[0].0, pointer[0].1);
    if |pointer| > 1 {
      PanHeldActive(next, pointer[1..]);
    }
  }

  /**
   * Over a run of held frames starting from rest, the total change of the
   * offsets is the last pointer position minus the one where panning began.
   */
  lemma PanTelescopes(s: Pan, pointer: seq<(int, int)>)
    requires !s.active && |pointer| > 0
    ensures var e := PanHeld(s, pointer);
            var first, last := pointer[0], pointer[|pointer| - 1];
            e.active &&
            e.offsetX == s.offsetX + (last.0 - first.0) as real &&
            e.offsetY == s.offsetY + (last.1 - first.1) as real
  {
    var started := PanTick(s, true, pointer[0].0, pointer[0].1);
    if |pointer| > 1 {
      PanHeldActive(started, pointer[1..]);
    }
  }
}
