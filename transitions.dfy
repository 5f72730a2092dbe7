/**
 * Grab and release, on values: what `item_drag_start` and `item_drag_end`
 * do to the record of the dragged element and to the frame scheduler.
 * Both run `addAnim` several times; each of those may start the loop and
 * so run a frame at once.
 */
module Transitions {
  import opened Wrappers
  import opened Axes
  import opened Geometry
  import opened Records
  import opened Scheduler

  /** The duration, in milliseconds, of the hover scale-up a grab installs. */
  const ScaleMillis: nat := 200

  /** `item_rect_changed` on a record: an element that is not visible keeps its last measured values. */
  function Remeasured(it: Item, rect: Option<Rect>): Item
  {
    match rect
    case None => it
    case Some(r) => it.(X := Measured(it.X, r.X), Y := Measured(it.Y, r.Y))
  }

  /** Ready for a drag along one axis: the fall flags cleared and the start position remembered. */
  function Poised(s: AxisState): AxisState
  {
    s.(turned := false, crashed := false, posStart := Some(s.pos))
  }

  /** The grab on the record: the handle (the element itself when it has none), grabbed, re-measured, not thrown. */
  function Grabbed(it: Item, t: Elem, handle: Option<Elem>, rect: Option<Rect>): Item
  {
    Remeasured(it.(handle := Some(handle.GetOr(t)), grabbed := true), rect).(throwed := false)
  }

  /** `Poised` applied to every axis of `axes`, in order. */
  function PoisedOn(it: Item, axes: seq<Axis>): Item
    decreases |axes|
  {
    if axes == [] then it else PoisedOn(it.With(axes[0], Poised(it.At(axes[0]))), axes[1..])
  }

  /** The loop over `mv.axes` in `item_drag_start`: each axis poised, then its drag step installed. */
  function DragAxes(st: Anim, t: Elem, axes: seq<Axis>, keep: (Elem, Slot) -> bool): (r: Anim)
    requires t in st.items
    ensures r.items.Keys == st.items.Keys
    decreases |axes|
  {
    if axes == [] then st
    else
      var a := axes[0];
      var it := st.items[t];
      var st1 := st.(items := st.items[t := it.With(a, Poised(it.At(a)))]);
      DragAxes(AddAnimF(st1, t, Pos(a), PosDrag(a), keep), t, axes[1..], keep)
  }

  /**
   * `item_drag_start` past its guards: grab the record, install the hover
   * scale-up, then poise and drag every axis the container allows.
   */
  function DragStartF(st: Anim, t: Elem, handle: Option<Elem>, rect: Option<Rect>, axes: seq<Axis>,
                      keep: (Elem, Slot) -> bool): (r: Anim)
    requires t in st.items
    ensures r.items.Keys == st.items.Keys
  {
    var st1 := st.(items := st.items[t := Grabbed(st.items[t], t, handle, rect)]);
    DragAxes(AddAnimF(st1, t, Scale, ScaleTo(ScaleMillis), keep), t, axes, keep)
  }

  /** The axis state after a release: heading for its resting place. */
  function Homing(s: AxisState): AxisState
  {
    s.(posEnd := s.posHome)
  }

  /** `Homing` applied to every axis of `axes`, in order. */
  function HomingOn(it: Item, axes: seq<Axis>): Item
    decreases |axes|
  {
    if axes == [] then it else HomingOn(it.With(axes[0], Homing(it.At(axes[0]))), axes[1..])
  }

  /**
   * The loop over `mv.axes` in `item_drag_end`: each axis heads home with
   * a fall step, and the other axis gets a rotation recovery step.
   */
  function DropAxes(st: Anim, t: Elem, axes: seq<Axis>, keep: (Elem, Slot) -> bool): (r: Anim)
    requires t in st.items
    ensures r.items.Keys == st.items.Keys
    decreases |axes|
  {
    if axes == [] then st
    else
      var a := axes[0];
      var it := st.items[t];
      var st1 := st.(items := st.items[t := it.With(a, Homing(it.At(a)))]);
      var st2 := AddAnimF(st1, t, Pos(a), PosFall(a), keep);
      DropAxes(AddAnimF(st2, t, Rotate(AxisB(a)), RotateRecover(AxisB(a)), keep), t, axes[1..], keep)
  }

  /** `item_drag_end` past its guard: thrown, no longer grabbed, and every allowed axis released. */
  function DragEndF(st: Anim, t: Elem, axes: seq<Axis>, keep: (Elem, Slot) -> bool): (r: Anim)
    requires t in st.items
    ensures r.items.Keys == st.items.Keys
  {
    DropAxes(st.(items := st.items[t := st.items[t].(throwed := true, grabbed := false)]), t, axes, keep)
  }

  // ---- what the records become -------------------------------------------

  lemma CoresUpdate(m: map<Elem, Item>, t: Elem, it: Item)
    ensures Cores(m[t := it]) == Cores(m)[t := it.Core()]
  {
  }

  /** Updating one record and then installing a step on it leaves the other records' non-animation state alone. */
  lemma UpdateThenAddCores(st: Anim, t: Elem, it: Item, s: Slot, step: Step, keep: (Elem, Slot) -> bool)
    requires t in st.items
    ensures var r := AddAnimF(st.(items := st.items[t := it]), t, s, step, keep);
            && Cores(r.items) == Cores(st.items)[t := it.Core()]
            && r.items[t].Core() == it.Core()
  {
    var st1 := st.(items := st.items[t := it]);
    AddAnimKeepsCores(st1, t, s, step, keep);
    CoresUpdate(st.items, t, it);
    var r := AddAnimF(st1, t, s, step, keep);
    assert Cores(r.items)[t] == Cores(st1.items)[t];
  }

  lemma CoresOverwrite(m: map<Elem, Item>, t: Elem, x: Item, y: Item)
    ensures Cores(m)[t := x][t := y] == Cores(m)[t := y]
  {
  }

  lemma {:induction false} DragAxesCores(st: Anim, t: Elem, axes: seq<Axis>, keep: (Elem, Slot) -> bool)
    requires t in st.items
    ensures Cores(DragAxes(st, t, axes, keep).items) == Cores(st.items)[t := PoisedOn(st.items[t], axes).Core()]
    decreases |axes|
  {
    if axes != [] {
      var a := axes[0];
      var it := st.items[t];
      var it1 := it.With(a, Poised(it.At(a)));
      var st2 := AddAnimF(st.(items := st.items[t := it1]), t, Pos(a), PosDrag(a), keep);
      UpdateThenAddCores(st, t, it1, Pos(a), PosDrag(a), keep);
      DragAxesCores(st2, t, axes[1..], keep);
      PoisedOnSlots(st2.items[t], it1, axes[1..]);
      CoresOverwrite(st.items, t, it1.Core(), PoisedOn(it1, axes[1..]).Core());
    }
  }

  /** Poising only looks at the axis states, so records that agree but for their slots stay in step. */
  lemma {:induction false} PoisedOnSlots(a: Item, b: Item, axes: seq<Axis>)
    requires a.Core() == b.Core()
    ensures PoisedOn(a, axes).Core() == PoisedOn(b, axes).Core()
    decreases |axes|
  {
    if axes != [] {
      var x := axes[0];
      PoisedOnSlots(a.With(x, Poised(a.At(x))), b.With(x, Poised(b.At(x))), axes[1..]);
    }
  }

  /**
   * A grab changes only the grabbed record among the non-animation state:
   * it becomes grabbed and not thrown, takes the handle (or itself), is
   * re-measured, and every allowed axis is poised.
   */
  lemma DragStartCores(st: Anim, t: Elem, handle: Option<Elem>, rect: Option<Rect>, axes: seq<Axis>,
                       keep: (Elem, Slot) -> bool)
    requires t in st.items
    ensures Cores(DragStartF(st, t, handle, rect, axes, keep).items)
            == Cores(st.items)[t := PoisedOn(Grabbed(st.items[t], t, handle, rect), axes).Core()]
  {
    var g := Grabbed(st.items[t], t, handle, rect);
    var st2 := AddAnimF(st.(items := st.items[t := g]), t, Scale, ScaleTo(ScaleMillis), keep);
    UpdateThenAddCores(st, t, g, Scale, ScaleTo(ScaleMillis), keep);
    DragAxesCores(st2, t, axes, keep);
    PoisedOnSlots(st2.items[t], g, axes);
    CoresOverwrite(st.items, t, g.Core(), PoisedOn(g, axes).Core());
  }

  /** What a grab makes of the record. */
  lemma GrabbedFacts(it: Item, t: Elem, handle: Option<Elem>, rect: Option<Rect>, axes: seq<Axis>)
    ensures var r := PoisedOn(Grabbed(it, t, handle, rect), axes);
            && r.grabbed && !r.throwed
            && r.handle == Some(if handle.Some? then handle.value else t)
            && r.idx == it.idx && r.container == it.container
            && r.childrenContainers == it.childrenContainers
            && (forall a | a in axes :: r.At(a).posStart == Some(r.At(a).pos) && !r.At(a).turned && !r.At(a).crashed)
            && (forall a: Axis :: r.At(a).pos == it.At(a).pos && r.At(a).posHome == it.At(a).posHome
                                 && r.At(a).posEnd == it.At(a).posEnd)
  {
    PoisedOnFacts(Grabbed(it, t, handle, rect), axes);
  }

  lemma {:induction false} PoisedOnFacts(it: Item, axes: seq<Axis>)
    ensures var r := PoisedOn(it, axes);
            && r.grabbed == it.grabbed && r.throwed == it.throwed && r.handle == it.handle
            && r.idx == it.idx && r.container == it.container
            && r.childrenContainers == it.childrenContainers
            && (forall a | a in axes :: r.At(a).posStart == Some(r.At(a).pos) && !r.At(a).turned && !r.At(a).crashed)
            && (forall a: Axis :: r.At(a).pos == it.At(a).pos && r.At(a).posHome == it.At(a).posHome
                                 && r.At(a).posEnd == it.At(a).posEnd)
    decreases |axes|
  {
    if axes != [] {
      var x := axes[0];
      var it1 := it.With(x, Poised(it.At(x)));
      PoisedOnFacts(it1, axes[1..]);
      var r := PoisedOn(it, axes);
      forall a | a in axes
        ensures r.At(a).posStart == Some(r.At(a).pos) && !r.At(a).turned && !r.At(a).crashed
      {
        if a !in axes[1..] {
          assert a == x;
          PoisedOnKeeps(it1, axes[1..], a);
        }
      }
    }
  }

  /** Axes outside the list are left alone. */
  lemma {:induction false} PoisedOnKeeps(it: Item, axes: seq<Axis>, a: Axis)
    requires a !in axes
    ensures PoisedOn(it, axes).At(a) == it.At(a)
    decreases |axes|
  {
    if axes != [] {
      PoisedOnKeeps(it.With(axes[0], Poised(it.At(axes[0]))), axes[1..], a);
    }
  }

  /** Every grabbed record but that of `t` is being dragged. */
  ghost predicate DragOkBut(items: map<Elem, Item>, t: Elem)
  {
    forall u | u in items && u != t && items[u].grabbed :: HasDrag(items[u])
  }

  /**
   * Updating the record of `t` without touching its slots, then installing
   * a step on it: the queue stays in step, the other grabbed records stay
   * dragged, and so do the axes of `t` whose slot the step leaves alone.
   */
  lemma UpdateThenAddOk(st: Anim, t: Elem, it: Item, s: Slot, step: Step, keep: (Elem, Slot) -> bool)
    requires t in st.items && QueueOk(st.items, st.queue, st.running) && DragOkBut(st.items, t)
    requires it.slots == st.items[t].slots
    ensures var r := AddAnimF(st.(items := st.items[t := it]), t, s, step, keep);
            && QueueOk(r.items, r.queue, r.running) && DragOkBut(r.items, t)
            && r.items[t].grabbed == it.grabbed
            && (s.Pos? && step == PosDrag(s.axis) ==> Drags(r.items[t], s.axis))
            && (forall b: Axis | Drags(it, b) && s != Pos(b) :: Drags(r.items[t], b))
  {
    var st1 := st.(items := st.items[t := it]);
    var r := AddAnimF(st1, t, s, step, keep);
    assert QueueOk(st1.items, st1.queue, st1.running) by {
      forall u | u in st1.items && st1.items[u].slots != map[]
        ensures u in st1.queue
      {
        assert st1.items[u].slots == st.items[u].slots;
      }
    }
    AddAnimKeepsQueueOk(st1, t, s, step, keep);
    AddAnimKeepsCores(st1, t, s, step, keep);
    forall u | u in r.items && u != t && r.items[u].grabbed
      ensures HasDrag(r.items[u])
    {
      assert Cores(r.items)[u] == Cores(st1.items)[u];
      if Drags(st1.items[u], Axes.X) {
        AddAnimKeepsDrags(st1, t, s, step, keep, u, Axes.X);
      } else {
        AddAnimKeepsDrags(st1, t, s, step, keep, u, Axes.Y);
      }
    }
    assert Cores(r.items)[t] == Cores(st1.items)[t];
    if s.Pos? && step == PosDrag(s.axis) {
      AddAnimKeepsDrags(st1, t, s, step, keep, t, s.axis);
    }
    forall b: Axis | Drags(it, b) && s != Pos(b)
      ensures Drags(r.items[t], b)
    {
      AddAnimKeepsDrags(st1, t, s, step, keep, t, b);
    }
  }

  lemma {:induction false} DragAxesOk(st: Anim, t: Elem, axes: seq<Axis>, keep: (Elem, Slot) -> bool)
    requires t in st.items && QueueOk(st.items, st.queue, st.running) && DragOkBut(st.items, t)
    ensures var r := DragAxes(st, t, axes, keep);
            && QueueOk(r.items, r.queue, r.running) && DragOkBut(r.items, t)
            && r.items[t].grabbed == st.items[t].grabbed
            && (forall a: Axis | a in axes || Drags(st.items[t], a) :: Drags(r.items[t], a))
    decreases |axes|
  {
    if axes != [] {
      var a := axes[0];
      var it := st.items[t];
      var it1 := it.With(a, Poised(it.At(a)));
      var st2 := AddAnimF(st.(items := st.items[t := it1]), t, Pos(a), PosDrag(a), keep);
      UpdateThenAddOk(st, t, it1, Pos(a), PosDrag(a), keep);
      DragAxesOk(st2, t, axes[1..], keep);
      var r := DragAxes(st, t, axes, keep);
      assert r == DragAxes(st2, t, axes[1..], keep);
      assert it1.slots == it.slots && it1.grabbed == it.grabbed;
      forall b: Axis | b in axes || Drags(it, b)
        ensures Drags(r.items[t], b)
      {
        if b !in axes[1..] && b != a {
          assert Drags(it1, b);
        }
      }
    }
  }

  /**
   * A grab keeps the scheduler invariant (the loop runs exactly while
   * something is queued, every record with steps is queued, every grabbed
   * record is dragged) provided the container allows some axis, and leaves
   * the grabbed record dragged along every allowed axis.
   */
  lemma DragStartOk(st: Anim, t: Elem, handle: Option<Elem>, rect: Option<Rect>, axes: seq<Axis>,
                    keep: (Elem, Slot) -> bool)
    requires t in st.items && AnimOk(st) && axes != []
    ensures var r := DragStartF(st, t, handle, rect, axes, keep);
            && AnimOk(r)
            && r.items[t].grabbed
            && (forall a | a in axes :: Drags(r.items[t], a))
  {
    var g := Grabbed(st.items[t], t, handle, rect);
    assert g.slots == st.items[t].slots && g.grabbed;
    var st2 := AddAnimF(st.(items := st.items[t := g]), t, Scale, ScaleTo(ScaleMillis), keep);
    UpdateThenAddOk(st, t, g, Scale, ScaleTo(ScaleMillis), keep);
    DragAxesOk(st2, t, axes, keep);
    var r := DragStartF(st, t, handle, rect, axes, keep);
    assert r == DragAxes(st2, t, axes, keep);
    assert Drags(r.items[t], axes[0]) by {
      assert axes[0] in axes;
    }
    assert HasDrag(r.items[t]);
  }

  // ---- release --------------------------------------------------------------

  /** Updating a record without touching its slots, and without grabbing it, keeps the scheduler invariant. */
  lemma UpdateKeepsOk(st: Anim, t: Elem, it: Item)
    requires t in st.items && AnimOk(st)
    requires it.slots == st.items[t].slots && (it.grabbed ==> st.items[t].grabbed)
    ensures AnimOk(st.(items := st.items[t := it]))
  {
    var m := st.items[t := it];
    forall u | u in m && m[u].slots != map[]
      ensures u in st.queue
    {
      assert m[u].slots == st.items[u].slots;
    }
    forall u | u in m && m[u].grabbed
      ensures HasDrag(m[u])
    {
      assert m[u].slots == st.items[u].slots;
    }
  }

  lemma {:induction false} DropAxesOk(st: Anim, t: Elem, axes: seq<Axis>, keep: (Elem, Slot) -> bool)
    requires t in st.items && AnimOk(st) && !st.items[t].grabbed
    ensures AnimOk(DropAxes(st, t, axes, keep))
    decreases |axes|
  {
    if axes != [] {
      var a := axes[0];
      var it := st.items[t];
      var st1 := st.(items := st.items[t := it.With(a, Homing(it.At(a)))]);
      var st2 := AddAnimF(st1, t, Pos(a), PosFall(a), keep);
      var st3 := AddAnimF(st2, t, Rotate(AxisB(a)), RotateRecover(AxisB(a)), keep);
      UpdateKeepsOk(st, t, it.With(a, Homing(it.At(a))));
      AddAnimKeepsOk(st1, t, Pos(a), PosFall(a), keep);
      AddAnimKeepsCores(st1, t, Pos(a), PosFall(a), keep);
      assert Cores(st2.items)[t] == Cores(st1.items)[t];
      AddAnimKeepsOk(st2, t, Rotate(AxisB(a)), RotateRecover(AxisB(a)), keep);
      AddAnimKeepsCores(st2, t, Rotate(AxisB(a)), RotateRecover(AxisB(a)), keep);
      assert Cores(st3.items)[t] == Cores(st2.items)[t];
      DropAxesOk(st3, t, axes[1..], keep);
    }
  }

  /** A release keeps the scheduler invariant and leaves the record neither grabbed nor dragged along. */
  lemma DragEndOk(st: Anim, t: Elem, axes: seq<Axis>, keep: (Elem, Slot) -> bool)
    requires t in st.items && AnimOk(st)
    ensures var r := DragEndF(st, t, axes, keep);
            AnimOk(r) && !r.items[t].grabbed && r.items[t].throwed
  {
    var it := st.items[t].(throwed := true, grabbed := false);
    UpdateKeepsOk(st, t, it);
    var st1 := st.(items := st.items[t := it]);
    DropAxesOk(st1, t, axes, keep);
    DropAxesCores(st1, t, axes, keep);
    HomingOnFacts(it, axes);
    var r := DragEndF(st, t, axes, keep);
    assert Cores(r.items)[t] == HomingOn(it, axes).Core();
  }

  lemma {:induction false} DropAxesCores(st: Anim, t: Elem, axes: seq<Axis>, keep: (Elem, Slot) -> bool)
    requires t in st.items
    ensures Cores(DropAxes(st, t, axes, keep).items) == Cores(st.items)[t := HomingOn(st.items[t], axes).Core()]
    decreases |axes|
  {
    if axes != [] {
      var a := axes[0];
      var it := st.items[t];
      var it1 := it.With(a, Homing(it.At(a)));
      var st2 := AddAnimF(st.(items := st.items[t := it1]), t, Pos(a), PosFall(a), keep);
      var st3 := AddAnimF(st2, t, Rotate(AxisB(a)), RotateRecover(AxisB(a)), keep);
      UpdateThenAddCores(st, t, it1, Pos(a), PosFall(a), keep);
      AddAnimKeepsCores(st2, t, Rotate(AxisB(a)), RotateRecover(AxisB(a)), keep);
      assert Cores(st3.items)[t] == Cores(st2.items)[t];
      DropAxesCores(st3, t, axes[1..], keep);
      HomingOnSlots(st3.items[t], it1, axes[1..]);
      CoresOverwrite(st.items, t, it1.Core(), HomingOn(it1, axes[1..]).Core());
    }
  }

  lemma {:induction false} HomingOnSlots(a: Item, b: Item, axes: seq<Axis>)
    requires a.Core() == b.Core()
    ensures HomingOn(a, axes).Core() == HomingOn(b, axes).Core()
    decreases |axes|
  {
    if axes != [] {
      var x := axes[0];
      HomingOnSlots(a.With(x, Homing(a.At(x))), b.With(x, Homing(b.At(x))), axes[1..]);
    }
  }

  /**
   * A release changes only the released record among the non-animation
   * state: it is thrown, no longer grabbed, and heads home on every
   * allowed axis.
   */
  lemma DragEndCores(st: Anim, t: Elem, axes: seq<Axis>, keep: (Elem, Slot) -> bool)
    requires t in st.items
    ensures Cores(DragEndF(st, t, axes, keep).items)
            == Cores(st.items)[t := HomingOn(st.items[t].(throwed := true, grabbed := false), axes).Core()]
  {
    var it := st.items[t].(throwed := true, grabbed := false);
    var st1 := st.(items := st.items[t := it]);
    var p := HomingOn(it, axes).Core();
    calc {
      Cores(DragEndF(st, t, axes, keep).items);
      Cores(DropAxes(st1, t, axes, keep).items);
      { DropAxesCores(st1, t, axes, keep); }
      Cores(st1.items)[t := p];
      { CoresUpdate(st.items, t, it); }
      Cores(st.items)[t := it.Core()][t := p];
      { CoresOverwrite(st.items, t, it.Core(), p); }
      Cores(st.items)[t := p];
    }
  }

  /** What a release makes of the record: every allowed axis heads for its resting place, nothing else moves. */
  lemma {:induction false} HomingOnFacts(it: Item, axes: seq<Axis>)
    ensures var r := HomingOn(it, axes);
            && r.grabbed == it.grabbed && r.throwed == it.throwed && r.handle == it.handle
            && r.idx == it.idx && r.container == it.container
            && r.childrenContainers == it.childrenContainers
            && (forall a | a in axes :: r.At(a).posEnd == r.At(a).posHome)
            && (forall a: Axis :: r.At(a).pos == it.At(a).pos && r.At(a).posHome == it.At(a).posHome)
            && (forall a | a !in axes :: r.At(a) == it.At(a))
    decreases |axes|
  {
    if axes != [] {
      var x := axes[0];
      var it1 := it.With(x, Homing(it.At(x)));
      HomingOnFacts(it1, axes[1..]);
      var r := HomingOn(it, axes);
      forall a | a in axes
        ensures r.At(a).posEnd == r.At(a).posHome
      {
        if a !in axes[1..] {
          assert a == x;
        }
      }
    }
  }
}
