/**
 * `render_items` and the drawing half of `items_moved`, on values. A
 * visible container walks its `homes`, skipping the elements no longer in
 * the document. Each element is measured anew and given its resting place,
 * one extent after another from the container start. Unless it is grabbed,
 * it is then either snapped there, when it was resting at its old place,
 * or sent there with a fall step on both axes.
 */
module Render {
  import opened Wrappers
  import opened Seqs
  import opened Axes
  import opened Geometry
  import opened Records
  import opened Scheduler
  import opened Layout
  import opened Registry
  import opened Transitions
  import opened Reflow

  /** The elements of `h` still in the document (`target.parentElement` set), in order. */
  function Attached(h: seq<Elem>, dom: map<Elem, Container>): (r: seq<Elem>)
    ensures forall e | e in r :: e in h && e in dom
    ensures forall e | e in h && e in dom :: e in r
    decreases |h|
  {
    if h == [] then [] else (if h[0] in dom then [h[0]] else []) + Attached(h[1..], dom)
  }

  /** Resting where it was: both axes jump to the resting place (`pos = pos_end = pos_home`). */
  function Snapped(it: Item): Item
  {
    it.(X := it.X.(pos := it.X.posHome, posEnd := it.X.posHome),
        Y := it.Y.(pos := it.Y.posHome, posEnd := it.Y.posHome))
  }

  /** One axis heads home with a fresh fall step, whether or not it was already heading there. */
  function Fall(st: Anim, e: Elem, a: Axis, keep: (Elem, Slot) -> bool): (r: Anim)
    requires e in st.items
    ensures r.items.Keys == st.items.Keys
  {
    var it := st.items[e];
    AddAnimF(st.(items := st.items[e := it.With(a, Homing(it.At(a)))]), e, Pos(a), PosFall(a), keep)
  }

  /** Falling back rewrites the record of `e` alone, and of it only the resting position along `a`. */
  lemma FallCores(st: Anim, e: Elem, a: Axis, keep: (Elem, Slot) -> bool)
    requires e in st.items
    ensures Cores(Fall(st, e, a, keep).items) == Cores(st.items)[e := st.items[e].With(a, Homing(st.items[e].At(a))).Core()]
  {
    var it := st.items[e];
    UpdateThenAddCores(st, e, it.With(a, Homing(it.At(a))), Pos(a), PosFall(a), keep);
  }

  /** The record `render_items` makes of an attached element whose outer box starts at `oA` and `oB`. */
  function Shown(it: Item, ab: AxisPair, oA: int, oB: int, rect: Option<Rect>): Item
  {
    var seated := Seat(Remeasured(it, rect), ab, oA, oB);
    if seated.grabbed then seated
    else if it.AtHome() then Snapped(seated)
    else Homed(seated)
  }

  /**
   * The body of the loop of `render_items` for one attached element. The
   * `find_dropzone` call made for an element away from home is not part of
   * this step.
   */
  function Show(st: Anim, e: Elem, ab: AxisPair, oA: int, oB: int, rect: Option<Rect>,
                keep: (Elem, Slot) -> bool): (r: Anim)
    requires e in st.items
    ensures r.items.Keys == st.items.Keys
  {
    var it := st.items[e];
    var seated := Seat(Remeasured(it, rect), ab, oA, oB);
    if seated.grabbed then st.(items := st.items[e := seated])
    else if it.AtHome() then st.(items := st.items[e := Snapped(seated)])
    else Fall(Fall(st.(items := st.items[e := seated]), e, Axes.X, keep), e, Axes.Y, keep)
  }

  /** The loop of `render_items` over the rest `h` of `homes`, with the running edge `oA`. */
  function Draw(st: Anim, h: seq<Elem>, ab: AxisPair, oA: int, oB: int, dom: map<Elem, Container>,
                rects: Elem -> Option<Rect>, keep: (Elem, Slot) -> bool): (r: Anim)
    requires forall e | e in h && e in dom :: e in st.items
    ensures r.items.Keys == st.items.Keys
    decreases |h|
  {
    if h == [] then st
    else if h[0] !in dom then Draw(st, h[1..], ab, oA, oB, dom, rects, keep)
    else
      var e := h[0];
      var ext := Remeasured(st.items[e], rects(e)).At(ab.A).Extent();
      Draw(Show(st, e, ab, oA, oB, rects(e), keep), h[1..], ab, oA + ext, oB, dom, rects, keep)
  }

  /** Every attached element listed in one of the containers `cs` is registered. */
  ghost predicate Drawable(m: map<Elem, Item>, H: HomesMap, cs: seq<Container>, dom: map<Elem, Container>)
  {
    forall c, e | c in cs && e in HomesOf(H, c) && e in dom :: e in m
  }

  /** Every element a consistent registry lists is registered, so every dirty container can be drawn. */
  lemma ListedDrawable(m: map<Elem, Item>, H: HomesMap, cs: seq<Container>, dom: map<Elem, Container>)
    requires Listed(m, H)
    ensures Drawable(m, H, cs, dom)
  {
    forall c, e | c in cs && e in HomesOf(H, c) && e in dom
      ensures e in m
    {
      var j :| 0 <= j < |H[c]| && H[c][j] == e;
      assert ListedAt(m, H, c, j);
    }
  }

  /** `render_items` on container `c`: nothing while it is hidden. */
  function RenderF(st: Anim, H: HomesMap, c: Container, boxes: map<Container, Box>, dom: map<Elem, Container>,
                   rects: Elem -> Option<Rect>, keep: (Elem, Slot) -> bool): (r: Anim)
    reads c
    requires forall e | e in HomesOf(H, c) && e in dom :: e in st.items
    ensures r.items.Keys == st.items.Keys
  {
    if !c.visible then st
    else Draw(st, HomesOf(H, c), c.AB(), StartA(c, boxes), StartB(c, boxes), dom, rects, keep)
  }

  /** A visible container is drawn from its start. */
  lemma RenderShown(st: Anim, H: HomesMap, c: Container, boxes: map<Container, Box>, dom: map<Elem, Container>,
                    rects: Elem -> Option<Rect>, keep: (Elem, Slot) -> bool)
    requires c.visible && forall e | e in HomesOf(H, c) && e in dom :: e in st.items
    ensures RenderF(st, H, c, boxes, dom, rects, keep)
            == Draw(st, HomesOf(H, c), c.AB(), StartA(c, boxes), StartB(c, boxes), dom, rects, keep)
  {
  }

  /** The second loop of `items_moved`: every dirty container rendered, in order. */
  function RenderAll(st: Anim, H: HomesMap, cs: seq<Container>, boxes: map<Container, Box>,
                     dom: map<Elem, Container>, rects: Elem -> Option<Rect>, keep: (Elem, Slot) -> bool): (r: Anim)
    reads cs
    requires Drawable(st.items, H, cs, dom)
    ensures r.items.Keys == st.items.Keys
    decreases |cs|
  {
    if cs == [] then st
    else RenderAll(RenderF(st, H, cs[0], boxes, dom, rects, keep), H, cs[1..], boxes, dom, rects, keep)
  }

  /**
   * The first loop of `items_moved` (`container_rect_changed` on each dirty
   * container): a visible container's box is measured anew; a hidden one
   * keeps its last box.
   */
  function Remeasure(boxes: map<Container, Box>, cs: seq<Container>, measure: Container -> Box): map<Container, Box>
    reads cs
    decreases |cs|
  {
    if cs == [] then boxes
    else Remeasure(if cs[0].visible then boxes[cs[0] := measure(cs[0])] else boxes, cs[1..], measure)
  }

  // ---- the boxes --------------------------------------------------------------

  /** After the first loop, a visible dirty container has its fresh box and every other keeps its own. */
  lemma {:induction false} RemeasureFacts(boxes: map<Container, Box>, cs: seq<Container>, measure: Container -> Box)
    ensures forall c | c in cs && c.visible :: BoxOf(Remeasure(boxes, cs, measure), c) == measure(c)
    ensures forall c | !(c in cs && c.visible) :: BoxOf(Remeasure(boxes, cs, measure), c) == BoxOf(boxes, c)
    decreases |cs|
  {
    if cs != [] {
      var b1 := if cs[0].visible then boxes[cs[0] := measure(cs[0])] else boxes;
      RemeasureFacts(b1, cs[1..], measure);
      forall c | c in cs && c.visible
        ensures BoxOf(Remeasure(boxes, cs, measure), c) == measure(c)
      {
        if c !in cs[1..] {
          assert c == cs[0];
        }
      }
    }
  }

  // ---- the records --------------------------------------------------------------

  lemma ShowCores(st: Anim, e: Elem, ab: AxisPair, oA: int, oB: int, rect: Option<Rect>, keep: (Elem, Slot) -> bool)
    requires e in st.items
    ensures Cores(Show(st, e, ab, oA, oB, rect, keep).items) == Cores(st.items)[e := Shown(st.items[e], ab, oA, oB, rect).Core()]
  {
    var it := st.items[e];
    var seated := Seat(Remeasured(it, rect), ab, oA, oB);
    CoresUpdate(st.items, e, seated);
    if !seated.grabbed && !it.AtHome() {
      var st1 := st.(items := st.items[e := seated]);
      var st2 := Fall(st1, e, Axes.X, keep);
      FallCores(st1, e, Axes.X, keep);
      FallCores(st2, e, Axes.Y, keep);
      var x := seated.With(Axes.X, Homing(seated.X));
      assert st2.items[e].Core() == x.Core() by {
        assert Cores(st2.items)[e] == st2.items[e].Core();
      }
      var y := st2.items[e].With(Axes.Y, Homing(st2.items[e].At(Axes.Y)));
      assert y.Core() == Homed(seated).Core();
      CoresOverwrite(st.items, e, seated.Core(), x.Core());
      CoresOverwrite(st.items, e, x.Core(), y.Core());
    } else {
      CoresUpdate(st.items, e, Snapped(seated));
    }
  }

  /**
   * The record `render_items` leaves: the resting place at the running
   * edges, the measures and grab flags as measured, and heading for the
   * resting place unless grabbed; nothing the registry looks at changes.
   */
  lemma ShownFacts(it: Item, ab: AxisPair, oA: int, oB: int, rect: Option<Rect>)
    requires ab.A != ab.B
    ensures var r, s := Shown(it, ab, oA, oB, rect), Remeasured(it, rect);
            && r.At(ab.A).posHome == oA + r.At(ab.A).m1 - r.At(ab.A).offset
            && r.At(ab.B).posHome == oB + r.At(ab.B).m1 - r.At(ab.B).offset
            && r.At(ab.A).Extent() == s.At(ab.A).Extent()
            && (!r.grabbed ==> r.Settled())
            && TiesOf(r) == TiesOf(it) && r.idx == it.idx && r.container == it.container
            && r.slots == it.slots
  {
    var s := Remeasured(it, rect);
    var seated := Seat(s, ab, oA, oB);
    SeatFacts(s, ab, oA, oB);
    ShownAxis(seated, it.AtHome(), ab.A);
    ShownAxis(seated, it.AtHome(), ab.B);
  }

  /** Snapping or homing keeps an axis's resting place and box, and leaves the record heading there. */
  lemma ShownAxis(seated: Item, atHome: bool, a: Axis)
    ensures var r := if seated.grabbed then seated else if atHome then Snapped(seated) else Homed(seated);
            && r.At(a).posHome == seated.At(a).posHome && r.At(a).m1 == seated.At(a).m1
            && r.At(a).offset == seated.At(a).offset && r.At(a).Extent() == seated.At(a).Extent()
            && (!r.grabbed ==> r.Settled())
            && TiesOf(r) == TiesOf(seated) && r.idx == seated.idx && r.container == seated.container
            && r.slots == seated.slots
  {
  }

  // ---- the layout -----------------------------------------------------------------

  /**
   * The element at `j` of `p` rests one extent after another from `start`
   * along the layout axis and at `oB` across it, and, unless grabbed, is
   * heading there.
   */
  predicate RestsAt(m: map<Elem, Item>, p: seq<Elem>, j: nat, ab: AxisPair, start: int, oB: int)
    requires j < |p| && forall e | e in p :: e in m
  {
    var it := m[p[j]];
    && it.At(ab.A).posHome == HomeA(start, Exts(m, p, ab.A), j, it.At(ab.A))
    && it.At(ab.B).posHome == HomeB(oB, it.At(ab.B))
    && (!it.grabbed ==> it.Settled())
  }

  ghost predicate Rests(m: map<Elem, Item>, p: seq<Elem>, ab: AxisPair, start: int, oB: int)
  {
    && (forall e | e in p :: e in m)
    && NoDup(p)
    && (forall j | 0 <= j < |p| :: RestsAt(m, p, j, ab, start, oB))
  }

  /** Records whose slots alone changed rest as before. */
  lemma RestsFrame(m: map<Elem, Item>, m': map<Elem, Item>, p: seq<Elem>, ab: AxisPair, start: int, oB: int)
    requires Rests(m, p, ab, start, oB)
    requires forall e | e in p :: e in m' && m'[e].Core() == m[e].Core()
    ensures Rests(m', p, ab, start, oB) && Exts(m', p, ab.A) == Exts(m, p, ab.A)
  {
    forall j | 0 <= j < |p|
      ensures m'[p[j]].Core() == m[p[j]].Core()
    {
      assert p[j] in p;
    }
    assert Exts(m', p, ab.A) == Exts(m, p, ab.A);
    forall j | 0 <= j < |p|
      ensures RestsAt(m', p, j, ab, start, oB)
    {
      assert RestsAt(m, p, j, ab, start, oB);
      assert m'[p[j]].Core() == m[p[j]].Core();
    }
  }

  lemma RestsSnocEarlier(m: map<Elem, Item>, p: seq<Elem>, e: Elem, ab: AxisPair, start: int, oB: int, j: nat)
    requires Rests(m, p, ab, start, oB) && e in m && j < |p|
    ensures RestsAt(m, p + [e], j, ab, start, oB)
  {
    var E := Exts(m, p, ab.A);
    ExtsSnoc(m, p, e, ab.A);
    PrefixSumExtend(E, [m[e].At(ab.A).Extent()], j);
    assert (p + [e])[j] == p[j];
    assert RestsAt(m, p, j, ab, start, oB);
  }

  /** An element resting right after the list keeps the list at rest. */
  lemma RestsSnoc(m: map<Elem, Item>, p: seq<Elem>, e: Elem, ab: AxisPair, start: int, oB: int)
    requires Rests(m, p, ab, start, oB) && e in m && e !in p
    requires m[e].At(ab.A).posHome == start + PrefixSum(Exts(m, p, ab.A), |p|) + m[e].At(ab.A).m1 - m[e].At(ab.A).offset
    requires m[e].At(ab.B).posHome == HomeB(oB, m[e].At(ab.B))
    requires !m[e].grabbed ==> m[e].Settled()
    ensures Rests(m, p + [e], ab, start, oB)
    ensures PrefixSum(Exts(m, p + [e], ab.A), |p| + 1) == PrefixSum(Exts(m, p, ab.A), |p|) + m[e].At(ab.A).Extent()
  {
    var q := p + [e];
    assert forall u | u in q :: u in m;
    forall j | 0 <= j < |q|
      ensures RestsAt(m, q, j, ab, start, oB)
    {
      RestsSnocAt(m, p, e, ab, start, oB, j);
    }
    NoDupSnoc(p, e);
    ExtsSnoc(m, p, e, ab.A);
    PrefixSumExtend(Exts(m, p, ab.A), [m[e].At(ab.A).Extent()], |p|);
  }

  lemma RestsSnocAt(m: map<Elem, Item>, p: seq<Elem>, e: Elem, ab: AxisPair, start: int, oB: int, j: nat)
    requires Rests(m, p, ab, start, oB) && e in m && j <= |p|
    requires m[e].At(ab.A).posHome == start + PrefixSum(Exts(m, p, ab.A), |p|) + m[e].At(ab.A).m1 - m[e].At(ab.A).offset
    requires m[e].At(ab.B).posHome == HomeB(oB, m[e].At(ab.B))
    requires !m[e].grabbed ==> m[e].Settled()
    ensures RestsAt(m, p + [e], j, ab, start, oB)
  {
    if j < |p| {
      RestsSnocEarlier(m, p, e, ab, start, oB, j);
    } else {
      RestsSnocLast(m, p, e, ab, start, oB);
    }
  }

  lemma RestsSnocLast(m: map<Elem, Item>, p: seq<Elem>, e: Elem, ab: AxisPair, start: int, oB: int)
    requires (forall u | u in p :: u in m) && e in m
    requires m[e].At(ab.A).posHome == start + PrefixSum(Exts(m, p, ab.A), |p|) + m[e].At(ab.A).m1 - m[e].At(ab.A).offset
    requires m[e].At(ab.B).posHome == HomeB(oB, m[e].At(ab.B))
    requires !m[e].grabbed ==> m[e].Settled()
    ensures RestsAt(m, p + [e], |p|, ab, start, oB)
  {
    var E := Exts(m, p, ab.A);
    ExtsSnoc(m, p, e, ab.A);
    PrefixSumExtend(E, [m[e].At(ab.A).Extent()], |p|);
    assert (p + [e])[|p|] == e;
  }

  lemma OnlySeatedJoin(m: map<Elem, Item>, m1: map<Elem, Item>, m2: map<Elem, Item>, p1: seq<Elem>, p2: seq<Elem>)
    requires OnlySeated(m, m1, p1) && OnlySeated(m1, m2, p2)
    ensures OnlySeated(m, m2, p1 + p2)
  {
  }

  /** What the loop keeps: the elements drawn so far rest in order, and `oA` is the edge after them. */
  ghost predicate Drawn(m: map<Elem, Item>, p: seq<Elem>, ab: AxisPair, start: int, oA: int, oB: int)
  {
    Rests(m, p, ab, start, oB) && oA == start + PrefixSum(Exts(m, p, ab.A), |p|)
  }

  /** Drawing one element changes no other record but for its slots. */
  lemma ShowOnly(st: Anim, e: Elem, ab: AxisPair, oA: int, oB: int, rect: Option<Rect>, keep: (Elem, Slot) -> bool)
    requires e in st.items
    ensures OnlySeated(st.items, Show(st, e, ab, oA, oB, rect, keep).items, [e])
  {
    var m, r := st.items, Show(st, e, ab, oA, oB, rect, keep).items;
    ShowCores(st, e, ab, oA, oB, rect, keep);
    forall u | u in m && u !in [e] ensures r[u].Core() == m[u].Core() {
      CoresElsewhere(m, r, e, Shown(m[e], ab, oA, oB, rect).Core(), u);
    }
  }

  /** One turn of the loop for an attached element keeps the loop's invariant. */
  lemma DrawnShow(st: Anim, p: seq<Elem>, e: Elem, ab: AxisPair, start: int, oA: int, oB: int,
                  rect: Option<Rect>, keep: (Elem, Slot) -> bool)
    requires ab.A != ab.B && Drawn(st.items, p, ab, start, oA, oB) && e in st.items && e !in p
    ensures Drawn(Show(st, e, ab, oA, oB, rect, keep).items, p + [e], ab, start,
                  oA + Remeasured(st.items[e], rect).At(ab.A).Extent(), oB)
  {
    var m := st.items;
    var r := Show(st, e, ab, oA, oB, rect, keep).items;
    var S := Shown(m[e], ab, oA, oB, rect);
    ShowOnly(st, e, ab, oA, oB, rect, keep);
    RestsFrame(m, r, p, ab, start, oB);
    ShowCores(st, e, ab, oA, oB, rect, keep);
    assert r[e].Core() == S.Core() by { assert Cores(r)[e] == r[e].Core(); }
    ShownFacts(m[e], ab, oA, oB, rect);
    RestsSnoc(r, p, e, ab, start, oB);
  }

  /** One attached element drawn: the rest of the list is drawn from the state it leaves, past its extent. */
  lemma DrawStep(st: Anim, h: seq<Elem>, ab: AxisPair, oA: int, oB: int, dom: map<Elem, Container>,
                 rects: Elem -> Option<Rect>, keep: (Elem, Slot) -> bool, st1: Anim, ext: int)
    requires h != [] && h[0] in dom && forall e | e in h && e in dom :: e in st.items
    requires st1 == Show(st, h[0], ab, oA, oB, rects(h[0]), keep)
    requires ext == Remeasured(st.items[h[0]], rects(h[0])).At(ab.A).Extent()
    ensures Draw(st, h, ab, oA, oB, dom, rects, keep) == Draw(st1, h[1..], ab, oA + ext, oB, dom, rects, keep)
  {
  }

  /**
   * `render_items` lays out the attached elements of the list one after
   * the other from the start of the container, each heading for its
   * resting place unless grabbed, and leaves every other record as it was
   * but for its slots.
   */
  lemma {:induction false} DrawRests(st: Anim, h: seq<Elem>, p: seq<Elem>, ab: AxisPair, start: int, oA: int, oB: int,
                                     dom: map<Elem, Container>, rects: Elem -> Option<Rect>, keep: (Elem, Slot) -> bool)
    requires ab.A != ab.B && NoDup(h) && forall e | e in h && e in dom :: e in st.items
    requires Drawn(st.items, p, ab, start, oA, oB) && forall e | e in h :: e !in p
    ensures var r := Draw(st, h, ab, oA, oB, dom, rects, keep).items;
            && Rests(r, p + Attached(h, dom), ab, start, oB)
            && OnlySeated(st.items, r, Attached(h, dom))
    decreases |h|
  {
    if h == [] {
      assert p + Attached(h, dom) == p;
    } else if h[0] !in dom {
      assert Attached(h, dom) == Attached(h[1..], dom);
      DrawRests(st, h[1..], p, ab, start, oA, oB, dom, rects, keep);
    } else {
      var e, rest := h[0], h[1..];
      var ext := Remeasured(st.items[e], rects(e)).At(ab.A).Extent();
      var st1 := Show(st, e, ab, oA, oB, rects(e), keep);
      DrawnShow(st, p, e, ab, start, oA, oB, rects(e), keep);
      ShowOnly(st, e, ab, oA, oB, rects(e), keep);
      assert e !in rest;
      assert NoDup(rest);
      DrawRests(st1, rest, p + [e], ab, start, oA + ext, oB, dom, rects, keep);
      var r := Draw(st1, rest, ab, oA + ext, oB, dom, rects, keep).items;
      DrawStep(st, h, ab, oA, oB, dom, rects, keep, st1, ext);
      var w := Attached(rest, dom);
      assert Attached(h, dom) == [e] + w;
      ConcatAssoc(p, [e], w);
      OnlySeatedJoin(st.items, st1.items, r, [e], w);
    }
  }

  // ---- every dirty container --------------------------------------------------

  /** The attached elements of the visible containers of `cs`, container after container. */
  function ShownList(H: HomesMap, cs: seq<Container>, dom: map<Elem, Container>): seq<Elem>
    reads cs
    decreases |cs|
  {
    if cs == [] then []
    else (if cs[0].visible then Attached(HomesOf(H, cs[0]), dom) else []) + ShownList(H, cs[1..], dom)
  }

  /** No element is listed by two containers of `cs`. */
  ghost predicate Apart(H: HomesMap, cs: seq<Container>)
  {
    forall c1, c2, e | c1 in cs && c2 in cs && c1 != c2 && e in HomesOf(H, c1) :: e !in HomesOf(H, c2)
  }

  /** The bookkeeping invariant keeps the lists of two containers apart. */
  lemma OwnedApart(m: map<Elem, Item>, H: HomesMap, cs: seq<Container>)
    requires Owned(m, H)
    ensures Apart(H, cs)
  {
    forall c1, c2, e | c1 in cs && c2 in cs && c1 != c2 && e in HomesOf(H, c1)
      ensures e !in HomesOf(H, c2)
    {
      HomeIsUnique(m, H, e, c1);
      if e in HomesOf(H, c2) {
        HomeIsUnique(m, H, e, c2);
      }
    }
  }

  /** An element no container of `cs` lists is not drawn by any of them. */
  lemma {:induction false} ShownListAvoids(H: HomesMap, cs: seq<Container>, dom: map<Elem, Container>, e: Elem)
    requires forall c | c in cs :: e !in HomesOf(H, c)
    ensures e !in ShownList(H, cs, dom)
    decreases |cs|
  {
    if cs != [] {
      ShownListAvoids(H, cs[1..], dom, e);
    }
  }

  lemma RenderAllStep(st: Anim, H: HomesMap, cs: seq<Container>, boxes: map<Container, Box>,
                      dom: map<Elem, Container>, rects: Elem -> Option<Rect>, keep: (Elem, Slot) -> bool, st1: Anim)
    requires cs != [] && Drawable(st.items, H, cs, dom)
    requires st1 == RenderF(st, H, cs[0], boxes, dom, rects, keep)
    ensures Drawable(st1.items, H, cs[1..], dom)
    ensures RenderAll(st, H, cs, boxes, dom, rects, keep) == RenderAll(st1, H, cs[1..], boxes, dom, rects, keep)
  {
  }

  /** Drawing the first container, then the rest, keeps the first container at rest. */
  lemma RenderHead(st: Anim, H: HomesMap, cs: seq<Container>, boxes: map<Container, Box>,
                   dom: map<Elem, Container>, rects: Elem -> Option<Rect>, keep: (Elem, Slot) -> bool,
                   st1: Anim, r: map<Elem, Item>)
    requires cs != [] && cs[0].visible && NoDup(cs) && Apart(H, cs) && NoDup(HomesOf(H, cs[0]))
    requires forall e | e in HomesOf(H, cs[0]) && e in dom :: e in st.items
    requires st1 == Draw(st, HomesOf(H, cs[0]), cs[0].AB(), StartA(cs[0], boxes), StartB(cs[0], boxes), dom, rects, keep)
    requires OnlySeated(st1.items, r, ShownList(H, cs[1..], dom))
    ensures Rests(r, Attached(HomesOf(H, cs[0]), dom), cs[0].AB(), StartA(cs[0], boxes), StartB(cs[0], boxes))
    ensures OnlySeated(st.items, r, Attached(HomesOf(H, cs[0]), dom) + ShownList(H, cs[1..], dom))
  {
    var c, rest := cs[0], cs[1..];
    var h, ab, sA, sB := HomesOf(H, c), c.AB(), StartA(c, boxes), StartB(c, boxes);
    var w := Attached(h, dom);
    DrawRests(st, h, [], ab, sA, sA, sB, dom, rects, keep);
    assert [] + w == w;
    forall e | e in w ensures e in r && r[e].Core() == st1.items[e].Core() {
      forall c2 | c2 in rest ensures e !in HomesOf(H, c2) {
        assert c2 in cs && c != c2;
      }
      ShownListAvoids(H, rest, dom, e);
    }
    RestsFrame(st1.items, r, w, ab, sA, sB);
    OnlySeatedJoin(st.items, st1.items, r, w, ShownList(H, rest, dom));
  }

  /**
   * The drawing loop of `items_moved`: every visible dirty container has
   * its attached elements laid out from its own start, and a record no
   * visible dirty container lists keeps all but its slots.
   */
  lemma {:induction false} RenderAllRests(st: Anim, H: HomesMap, cs: seq<Container>, boxes: map<Container, Box>,
                                          dom: map<Elem, Container>, rects: Elem -> Option<Rect>,
                                          keep: (Elem, Slot) -> bool, r: map<Elem, Item>)
    requires NoDup(cs) && Apart(H, cs) && (forall c | c in cs :: NoDup(HomesOf(H, c)))
    requires Drawable(st.items, H, cs, dom)
    requires r == RenderAll(st, H, cs, boxes, dom, rects, keep).items
    ensures forall c | c in cs && c.visible ::
              Rests(r, Attached(HomesOf(H, c), dom), c.AB(), StartA(c, boxes), StartB(c, boxes))
    ensures OnlySeated(st.items, r, ShownList(H, cs, dom))
    decreases |cs|
  {
    if cs != [] {
      var c, rest := cs[0], cs[1..];
      var st1 := RenderF(st, H, c, boxes, dom, rects, keep);
      RenderAllStep(st, H, cs, boxes, dom, rects, keep, st1);
      assert NoDup(rest);
      RenderAllRests(st1, H, rest, boxes, dom, rects, keep, r);
      if c.visible {
        RenderHead(st, H, cs, boxes, dom, rects, keep, st1, r);
      }
    }
  }

  // ---- what drawing leaves alone ----------------------------------------------

  /** A drawing step keeps what `Tame` names, and every record's container, index and nested containers. */
  ghost predicate Calm(st: Anim, st': Anim)
  {
    Tame(st, st') && SameLinks(st.items, st'.items)
  }

  lemma AnimOkFall(st: Anim, e: Elem, a: Axis, keep: (Elem, Slot) -> bool, r: Anim)
    requires AnimOk(st) && e in st.items && !st.items[e].grabbed && r == Fall(st, e, a, keep)
    ensures AnimOk(r) && !r.items[e].grabbed
  {
    var it := st.items[e];
    var x := it.With(a, Homing(it.At(a)));
    AnimOkRecast(st, e, x);
    AddAnimKeepsOk(st.(items := st.items[e := x]), e, Pos(a), PosFall(a), keep);
    assert Cores(r.items)[e] == r.items[e].Core();
  }

  /** Seating and snapping rewrite positions only. */
  lemma SeatSlots(it: Item, ab: AxisPair, oA: int, oB: int, rect: Option<Rect>)
    ensures var seated := Seat(Remeasured(it, rect), ab, oA, oB);
            && seated.slots == it.slots && seated.grabbed == it.grabbed
            && Snapped(seated).slots == it.slots && Snapped(seated).grabbed == it.grabbed
  {
    var m := Remeasured(it, rect);
    assert m.slots == it.slots && m.grabbed == it.grabbed;
    var a, b := m.At(ab.A), m.At(ab.B);
    var m1 := m.With(ab.A, a.(posHome := oA + a.m1 - a.offset));
    assert m1.slots == m.slots && m1.grabbed == m.grabbed;
  }

  lemma AnimOkShow(st: Anim, e: Elem, ab: AxisPair, oA: int, oB: int, rect: Option<Rect>, keep: (Elem, Slot) -> bool,
                    r: Anim)
    requires AnimOk(st) && e in st.items && r == Show(st, e, ab, oA, oB, rect, keep)
    ensures AnimOk(r)
  {
    var it := st.items[e];
    var seated := Seat(Remeasured(it, rect), ab, oA, oB);
    SeatSlots(it, ab, oA, oB, rect);
    if seated.grabbed {
      AnimOkRecast(st, e, seated);
    } else if it.AtHome() {
      AnimOkRecast(st, e, Snapped(seated));
    } else {
      AnimOkRecast(st, e, seated);
      var st1 := st.(items := st.items[e := seated]);
      var st2 := Fall(st1, e, Axes.X, keep);
      AnimOkFall(st1, e, Axes.X, keep, st2);
      AnimOkFall(st2, e, Axes.Y, keep, r);
    }
  }

  /** Drawing one element keeps every record's grab flags, handle, container, index and nested containers. */
  lemma KeptShow(st: Anim, e: Elem, ab: AxisPair, oA: int, oB: int, rect: Option<Rect>, keep: (Elem, Slot) -> bool)
    requires ab.A != ab.B && e in st.items
    ensures var r := Show(st, e, ab, oA, oB, rect, keep).items;
            Kept(st.items, r) && SameLinks(st.items, r)
  {
    var m, r := st.items, Show(st, e, ab, oA, oB, rect, keep).items;
    var S := Shown(m[e], ab, oA, oB, rect);
    ShowCores(st, e, ab, oA, oB, rect, keep);
    ShownFacts(m[e], ab, oA, oB, rect);
    KeptCores(m, r, e, S.Core());
    forall u | u in m
      ensures r[u].container == m[u].container && r[u].idx == m[u].idx
      ensures r[u].childrenContainers == m[u].childrenContainers
    {
      if u == e {
        assert Cores(r)[e] == r[e].Core();
      } else {
        CoresElsewhere(m, r, e, S.Core(), u);
      }
    }
  }

  lemma KeptTrans(m: map<Elem, Item>, m1: map<Elem, Item>, m2: map<Elem, Item>)
    requires Kept(m, m1) && SameLinks(m, m1) && Kept(m1, m2) && SameLinks(m1, m2)
    ensures Kept(m, m2) && SameLinks(m, m2)
  {
  }

  lemma CalmTrans(st: Anim, st1: Anim, st2: Anim)
    requires Calm(st, st1) && Calm(st1, st2)
    ensures Calm(st, st2)
  {
  }

  lemma {:induction false} KeptDraw(st: Anim, h: seq<Elem>, ab: AxisPair, oA: int, oB: int, dom: map<Elem, Container>,
                                    rects: Elem -> Option<Rect>, keep: (Elem, Slot) -> bool, r: map<Elem, Item>)
    requires ab.A != ab.B && forall e | e in h && e in dom :: e in st.items
    requires r == Draw(st, h, ab, oA, oB, dom, rects, keep).items
    ensures Kept(st.items, r) && SameLinks(st.items, r)
    decreases |h|
  {
    if h == [] {
    } else if h[0] !in dom {
      KeptDraw(st, h[1..], ab, oA, oB, dom, rects, keep, r);
    } else {
      var e, rect := h[0], rects(h[0]);
      var ext := Remeasured(st.items[e], rect).At(ab.A).Extent();
      var st1 := Show(st, e, ab, oA, oB, rect, keep);
      KeptShow(st, e, ab, oA, oB, rect, keep);
      DrawStep(st, h, ab, oA, oB, dom, rects, keep, st1, ext);
      KeptDraw(st1, h[1..], ab, oA + ext, oB, dom, rects, keep, r);
      KeptTrans(st.items, st1.items, r);
    }
  }

  lemma {:induction false} AnimOkDraw(st: Anim, h: seq<Elem>, ab: AxisPair, oA: int, oB: int, dom: map<Elem, Container>,
                                      rects: Elem -> Option<Rect>, keep: (Elem, Slot) -> bool, r: Anim)
    requires forall e | e in h && e in dom :: e in st.items
    requires r == Draw(st, h, ab, oA, oB, dom, rects, keep)
    ensures AnimOk(st) ==> AnimOk(r)
    decreases |h|
  {
    if h == [] {
    } else if h[0] !in dom {
      AnimOkDraw(st, h[1..], ab, oA, oB, dom, rects, keep, r);
    } else {
      var e, rect := h[0], rects(h[0]);
      var ext := Remeasured(st.items[e], rect).At(ab.A).Extent();
      var st1 := Show(st, e, ab, oA, oB, rect, keep);
      DrawStep(st, h, ab, oA, oB, dom, rects, keep, st1, ext);
      AnimOkDraw(st1, h[1..], ab, oA + ext, oB, dom, rects, keep, r);
      if AnimOk(st) {
        AnimOkShow(st, e, ab, oA, oB, rect, keep, st1);
      }
    }
  }

  lemma CalmDraw(st: Anim, h: seq<Elem>, ab: AxisPair, oA: int, oB: int, dom: map<Elem, Container>,
                 rects: Elem -> Option<Rect>, keep: (Elem, Slot) -> bool)
    requires ab.A != ab.B && forall e | e in h && e in dom :: e in st.items
    ensures Calm(st, Draw(st, h, ab, oA, oB, dom, rects, keep))
  {
    KeptDraw(st, h, ab, oA, oB, dom, rects, keep, Draw(st, h, ab, oA, oB, dom, rects, keep).items);
    AnimOkDraw(st, h, ab, oA, oB, dom, rects, keep, Draw(st, h, ab, oA, oB, dom, rects, keep));
  }

  /**
   * Rendering changes no record's grab flags, handle, container, index or
   * nested containers, and keeps the scheduler invariant: every fall step
   * it installs is on an element that is not grabbed.
   */
  lemma {:induction false} CalmRenderAll(st: Anim, H: HomesMap, cs: seq<Container>, boxes: map<Container, Box>,
                                         dom: map<Elem, Container>, rects: Elem -> Option<Rect>,
                                         keep: (Elem, Slot) -> bool)
    requires Drawable(st.items, H, cs, dom)
    ensures Calm(st, RenderAll(st, H, cs, boxes, dom, rects, keep))
    decreases |cs|
  {
    if cs != [] {
      var c := cs[0];
      var st1 := RenderF(st, H, c, boxes, dom, rects, keep);
      RenderAllStep(st, H, cs, boxes, dom, rects, keep, st1);
      if c.visible {
        CalmDraw(st, HomesOf(H, c), c.AB(), StartA(c, boxes), StartB(c, boxes), dom, rects, keep);
      }
      CalmRenderAll(st1, H, cs[1..], boxes, dom, rects, keep);
      CalmTrans(st, st1, RenderAll(st1, H, cs[1..], boxes, dom, rects, keep));
    }
  }

  // ---- add_item ------------------------------------------------------------------

  /** `pos`, `pos_end` and `pos_home` all set to `p`. */
  function RestingAt(s: AxisState, p: int): (r: AxisState)
    ensures r.AtHome() && r.Settled() && r.posHome == p
    ensures r.offset == s.offset && r.m1 == s.m1 && r.Extent() == s.Extent()
  {
    s.(pos := p, posEnd := p, posHome := p)
  }

  /**
   * The record `add_item` makes for an element appended at `idx` to `c`: a
   * fresh one measured by `item_rect_changed`; then, when the element
   * listed before it has record `last`, `position_item_last` rests it right
   * after `last` along the layout axis and in line with it across.
   */
  function AddedItem(c: Container, idx: nat, rect: Rect, last: Option<Item>, ab: AxisPair): (it: Item)
    requires ab.B == AxisB(ab.A)
    ensures it.container == c && it.idx == Some(idx) && it.handle == None
    ensures !it.grabbed && !it.throwed && it.slots == map[] && it.childrenContainers == {}
    ensures it.AtHome() && it.Settled()
    ensures it.X.Extent() == rect.X.m1 + rect.X.size + rect.X.m2 && it.Y.Extent() == rect.Y.m1 + rect.Y.size + rect.Y.m2
    ensures last.Some? ==> it.At(ab.A).posHome == AfterLast(last.value.At(ab.A), it.At(ab.A))
    ensures last.Some? ==> it.At(ab.B).posHome == BesideLast(last.value.At(ab.B), it.At(ab.B))
  {
    var measured := Remeasured(NewItem(c, idx), Some(rect));
    if last.None? then measured
    else
      var a := RestingAt(measured.At(ab.A), AfterLast(last.value.At(ab.A), measured.At(ab.A)));
      var b := RestingAt(measured.At(ab.B), BesideLast(last.value.At(ab.B), measured.At(ab.B)));
      measured.With(ab.A, a).With(ab.B, b)
  }

  /**
   * When the elements of a container rest where `render_items` lays them
   * out, the one `add_item` appends after them rests there too: its place
   * is the next one along the layout axis and the container's cross start.
   */
  lemma AppendRests(m: map<Elem, Item>, p: seq<Elem>, t: Elem, c: Container, rect: Rect, ab: AxisPair,
                    start: int, oB: int)
    requires ab.B == AxisB(ab.A)
    requires Rests(m, p, ab, start, oB) && p != [] && t !in m
    ensures var m' := m[t := AddedItem(c, |p|, rect, Some(m[p[|p| - 1]]), ab)];
            Rests(m', p + [t], ab, start, oB)
  {
    var last := m[p[|p| - 1]];
    var it := AddedItem(c, |p|, rect, Some(last), ab);
    var m' := m[t := it];
    var E := Exts(m, p, ab.A);
    assert t !in p;
    RestsFrame(m, m', p, ab, start, oB);
    assert RestsAt(m, p, |p| - 1, ab, start, oB);
    AfterLastAgrees(start, oB, E, last.At(ab.A), last.At(ab.B), it.At(ab.A), it.At(ab.B));
    RestsSnoc(m', p, t, ab, start, oB);
  }
}
