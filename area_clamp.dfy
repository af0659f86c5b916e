/** The anti-dominance heuristic applied to an element image before rotation. */
module AreaClamp {

  /** The integer factor by which an oversized element is shrunk (`shrink_factor`). */
  const ShrinkFactor: nat := 3

  /** The source's test `element_area > max_area_ratio * canvas_area` with the ratio 0.10,
      read in exact rational arithmetic. */
  predicate Oversized(area: nat, canvasArea: nat) {
    (area as real) > 0.10 * (canvasArea as real)
  }

  /** The same test in integers, as the model computes it. */
  lemma OversizedIsIntegerTest(area: nat, canvasArea: nat)
    ensures Oversized(area, canvasArea) <==> 10 * area > canvasArea
  {
  }

  /** The element's size after the clamp, or the failure of the resize. */
  datatype Resized = Size(w: nat, h: nat) | ResizeFails

  /** The element's (width, height) after the clamp. A shrink to a zero width or height
      is refused by the resize (`ValueError`), which ends the whole run. */
  function Clamp(w: nat, h: nat, canvasArea: nat): (r: Resized)
    // the resize fails exactly when an oversized element has a side shorter than the factor
    ensures r.ResizeFails? <==> Oversized(w * h, canvasArea) && (w < ShrinkFactor || h < ShrinkFactor)
    ensures r.Size? ==> r.w <= w && r.h <= h
    ensures r.Size? && Oversized(w * h, canvasArea) ==> r == Size(w / ShrinkFactor, h / ShrinkFactor)
    ensures !Oversized(w * h, canvasArea) ==> r == Size(w, h)
    // the clamp changes the size exactly when it fires, and then shrinks both sides
    ensures r.Size? ==> (r != Size(w, h) <==> Oversized(w * h, canvasArea))
    ensures r.Size? && Oversized(w * h, canvasArea) ==> 1 <= r.w < w && 1 <= r.h < h
  {
    if 10 * (w * h) > canvasArea then
      if w / ShrinkFactor == 0 || h / ShrinkFactor == 0 then ResizeFails
      else Size(w / ShrinkFactor, h / ShrinkFactor)
    else Size(w, h)
  }

  /** When the clamp fires and the resize succeeds the area falls to at most a ninth of
      what it was. */
  lemma ClampShrinksArea(w: nat, h: nat, canvasArea: nat)
    requires Oversized(w * h, canvasArea) && w >= ShrinkFactor && h >= ShrinkFactor
    ensures var r := Clamp(w, h, canvasArea); r.Size? && 9 * (r.w * r.h) <= w * h
  {
  }

  /** The clamp shrinks only once: its result may still be oversized. */
  lemma ClampMayStayOversized()
    ensures Clamp(300, 300, 1000) == Size(100, 100) && Oversized(100 * 100, 1000)
  {
  }

  /** A thin oversized element makes the resize fail. */
  lemma ClampThinFails()
    ensures Clamp(2, 500, 100) == ResizeFails
  {
  }
}
