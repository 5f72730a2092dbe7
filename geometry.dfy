/**
 * Per-axis state of an item and the boxes of containers. All lengths are
 * integers (the model's pixels), so the source's `Math.round` and
 * `Math.floor` are the identity here.
 */
module Geometry {
  import opened Wrappers

  /**
   * One axis of an item record (`item.X` / `item.Y`): current position,
   * target of the running movement and resting place, all relative to the
   * element's static position; the measured page offset, size, margins and
   * half-size; and the flags the drag and fall steps use.
   */
  datatype AxisState = AxisState(
    pos: int, posEnd: int, posHome: int,
    offset: int, size: int, m1: int, m2: int, mSize: int, posMid: int,
    turned: bool, crashed: bool, posStart: Option<int>)
  {
    /** Space the item takes along this axis: margins plus size. */
    function Extent(): int { m1 + size + m2 }

    predicate AtHome() { pos == posHome }

    predicate Settled() { posEnd == posHome }
  }

  /** The all-zero axis record `add_item` starts from. */
  const Rest := AxisState(0, 0, 0, 0, 0, 0, 0, 0, 0, false, false, None)

  /** One axis of an element's measured box (`item_rect_changed`). */
  datatype Measure = Measure(offset: int, size: int, m1: int, m2: int, mid: int)

  datatype Rect = Rect(X: Measure, Y: Measure)

  /**
   * `item_rect_changed` on one axis: takes over the measured numbers and
   * keeps the total `mSize` equal to the extent; positions are untouched.
   */
  function Measured(s: AxisState, m: Measure): (r: AxisState)
    ensures r.mSize == r.Extent()
    ensures r.offset == m.offset && r.size == m.size && r.m1 == m.m1 && r.m2 == m.m2 && r.posMid == m.mid
    ensures r.pos == s.pos && r.posEnd == s.posEnd && r.posHome == s.posHome
    ensures r.turned == s.turned && r.crashed == s.crashed && r.posStart == s.posStart
  {
    s.(posMid := m.mid, size := m.size, m1 := m.m1, m2 := m.m2,
       mSize := m.m1 + m.size + m.m2, offset := m.offset)
  }

  /** One axis of a container box (`mv.X` / `mv.Y`): page edges and paddings. */
  datatype Span = Span(a: int, b: int, p1: int, p2: int)
  {
    /** Where the first item's outer edge goes: the near edge plus padding. */
    function Start(): int { a + p1 }
  }

  datatype Box = Box(X: Span, Y: Span)

  /** The corner distance (`Math.sqrt(dX * dX + dY * dY)`) is positive off the box. */
  ghost predicate HypotPositive(hypot: (int, int) -> real)
  {
    forall dx: int, dy: int | dx > 0 && dy > 0 :: hypot(dx, dy) > 0.0
  }

  predicate InBox(box: Box, mx: int, my: int)
  {
    box.X.a <= mx <= box.X.b && box.Y.a <= my <= box.Y.b
  }

  /**
   * The nine-region distance `find_container` uses from the point (mx, my)
   * to a container box: straight gaps beside the box, corner distances
   * diagonally, zero inside.
   */
  function BoxDistance(box: Box, mx: int, my: int, hypot: (int, int) -> real): (d: real)
    requires HypotPositive(hypot)
    ensures d >= 0.0
    ensures d == 0.0 <==> InBox(box, mx, my)
  {
    var X, Y := box.X, box.Y;
    if X.a > mx then
      if Y.a > my then hypot(X.a - mx, Y.a - my)
      else if Y.b < my then hypot(X.a - mx, my - Y.b)
      else (X.a - mx) as real
    else if X.b < mx then
      if Y.a > my then hypot(mx - X.b, Y.a - my)
      else if Y.b < my then hypot(mx - X.b, my - Y.b)
      else (mx - X.b) as real
    else if Y.a > my then (Y.a - my) as real
    else if Y.b < my then (my - Y.b) as real
    else 0.0
  }
}
