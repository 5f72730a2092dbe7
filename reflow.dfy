/**
 * The reflow of `assign_dropzone`, on values. Every visible container, in
 * the order of `mono.containers`, rebuilds its `homes` from the old one:
 * the dragged element is skipped wherever it is met, and in the destination
 * it is seated (`setZone`) when the running index reaches the index asked
 * for, or at the end when the list runs out first. Each seated element gets
 * its new index and a resting place one after the other from the container
 * start; an element that is not grabbed and whose movement target differs
 * from its new resting place on an axis is sent there with a fall step.
 */
module Reflow {
  import opened Wrappers
  import opened Seqs
  import opened Axes
  import opened Geometry
  import opened Records
  import opened Scheduler
  import opened Layout
  import opened Registry
  import opened Transitions
  import opened Dropzone

  /**
   * The request `assign_dropzone(t, zoneIdx)` on container `dest`, as its
   * loops see it: `lands` says whether `setZone` can fire in `dest` at all.
   */
  datatype Drop = Drop(t: Elem, dest: Container, zoneIdx: nat, lands: bool)
  {
    /** `setZone` can fire in container `c`. */
    predicate Into(c: Container)
    {
      lands && dest == c
    }
  }

  /**
   * The request `assign_dropzone(t, idxIn)` on `dest`, `idxIn` being `null`
   * when None. A `null` index equals no running index, and
   * `null >= homesNew.length` holds only for an empty list: the dragged
   * element is seated first when `dest` lists nothing else, and nowhere
   * otherwise.
   */
  function DropOf(H: HomesMap, t: Elem, dest: Container, idxIn: Option<nat>): Drop
  {
    match idxIn
    case Some(k) => Drop(t, dest, k, true)
    case None => Drop(t, dest, 0, Without(HomesOf(H, dest), t) == [])
  }

  /**
   * The loop state of one container: the scheduler state, the running index
   * `idx`, the running edge `oA` along the layout axis, and `homesNew`.
   */
  datatype Cursor = Cursor(st: Anim, idx: nat, oA: int, placed: seq<Elem>)

  function SpanOf(box: Box, a: Axis): Span
  {
    if a == Axes.X then box.X else box.Y
  }

  /** Every element listed in some `homes` is registered (the source dereferences each one's record). */
  ghost predicate Registered(m: map<Elem, Item>, H: HomesMap)
  {
    forall c, e | c in H && e in H[c] :: e in m
  }

  /** The resting place of a record whose outer box starts at `oA` along the layout axis and at `oB` across it. */
  function Seat(it: Item, ab: AxisPair, oA: int, oB: int): Item
  {
    var a, b := it.At(ab.A), it.At(ab.B);
    it.With(ab.A, a.(posHome := oA + a.m1 - a.offset)).With(ab.B, b.(posHome := oB + b.m1 - b.offset))
  }

  /** One axis of a non-grabbed element heads for its resting place; a fall step is installed only when it moved. */
  function Settle(st: Anim, e: Elem, a: Axis, keep: (Elem, Slot) -> bool): (r: Anim)
    requires e in st.items
    ensures r.items.Keys == st.items.Keys
  {
    var it := st.items[e];
    var s := it.At(a);
    if s.posEnd != s.posHome then
      AddAnimF(st.(items := st.items[e := it.With(a, Homing(s))]), e, Pos(a), PosFall(a), keep)
    else
      st
  }

  /** Settling rewrites the record of `e` alone, and of it only the resting position along `a`. */
  lemma SettleCores(st: Anim, e: Elem, a: Axis, keep: (Elem, Slot) -> bool)
    requires e in st.items
    ensures Cores(Settle(st, e, a, keep).items) == Cores(st.items)[e := st.items[e].With(a, Homing(st.items[e].At(a))).Core()]
  {
    var it := st.items[e];
    var s := it.At(a);
    if s.posEnd != s.posHome {
      UpdateThenAddCores(st, e, it.With(a, Homing(s)), Pos(a), PosFall(a), keep);
    } else {
      assert it.With(a, Homing(s)) == it;
      assert st.items[e := it] == st.items;
      CoresUpdate(st.items, e, it);
    }
  }

  /** The body of the inner loop for an element other than the dragged one. */
  function Place(cur: Cursor, e: Elem, ab: AxisPair, oB: int, keep: (Elem, Slot) -> bool): (r: Cursor)
    requires e in cur.st.items
    ensures r.st.items.Keys == cur.st.items.Keys
    ensures r.placed == cur.placed + [e] && r.idx == cur.idx + 1
  {
    var it := cur.st.items[e];
    var seated := Seat(it.(idx := Some(cur.idx)), ab, cur.oA, oB);
    var st1 := cur.st.(items := cur.st.items[e := seated]);
    var st2 := if seated.grabbed then st1 else Settle(Settle(st1, e, Axes.X, keep), e, Axes.Y, keep);
    Cursor(st2, cur.idx + 1, cur.oA + it.At(ab.A).Extent(), cur.placed + [e])
  }

  /** `setZone`: the dragged element is seated at the running index, in container `c`. */
  function ZoneIn(cur: Cursor, t: Elem, c: Container, ab: AxisPair, oB: int): (r: Cursor)
    requires t in cur.st.items
    ensures r.st.items.Keys == cur.st.items.Keys
    ensures r.placed == cur.placed + [t] && r.idx == cur.idx + 1
  {
    var it := cur.st.items[t];
    var seated := Seat(it.(idx := Some(cur.idx), container := c), ab, cur.oA, oB);
    Cursor(cur.st.(items := cur.st.items[t := seated]), cur.idx + 1, cur.oA + it.At(ab.A).Extent(), cur.placed + [t])
  }

  /** The inner loop over the rest `h` of container `c`'s old `homes`. */
  function Lay(h: seq<Elem>, cur: Cursor, d: Drop, c: Container, ab: AxisPair, oB: int,
               keep: (Elem, Slot) -> bool): (r: Cursor)
    requires d.t in cur.st.items && forall e | e in h :: e in cur.st.items
    ensures r.st.items.Keys == cur.st.items.Keys
    ensures forall e | e in r.placed :: e in cur.placed || e in h || e == d.t
    decreases |h|
  {
    if h == [] then cur
    else
      var cur1 := if d.Into(c) && d.zoneIdx == cur.idx then ZoneIn(cur, d.t, c, ab, oB) else cur;
      var cur2 := if h[0] == d.t then cur1 else Place(cur1, h[0], ab, oB, keep);
      Lay(h[1..], cur2, d, c, ab, oB, keep)
  }

  /** After the inner loop: the dragged element goes last when the index asked for was not reached. */
  function Finish(cur: Cursor, d: Drop, c: Container, ab: AxisPair, oB: int): (r: Cursor)
    requires d.t in cur.st.items
    ensures r.st.items.Keys == cur.st.items.Keys
    ensures forall e | e in r.placed :: e in cur.placed || e == d.t
  {
    if d.Into(c) && d.zoneIdx >= |cur.placed| then ZoneIn(cur, d.t, c, ab, oB) else cur
  }

  /** One visible container, from the old `homes` `h` and its box. */
  function LayOut(st: Anim, h: seq<Elem>, d: Drop, c: Container, ab: AxisPair, box: Box,
                  keep: (Elem, Slot) -> bool): (r: Cursor)
    requires d.t in st.items && forall e | e in h :: e in st.items
    ensures r.st.items.Keys == st.items.Keys
    ensures forall e | e in r.placed :: e in h || e == d.t
  {
    var oB := SpanOf(box, ab.B).Start();
    var cur := Lay(h, Cursor(st, 0, SpanOf(box, ab.A).Start(), []), d, c, ab, oB, keep);
    Finish(cur, d, c, ab, oB)
  }

  function HomesOf(H: HomesMap, c: Container): seq<Elem>
  {
    if c in H then H[c] else []
  }

  /** The box of a container never measured: the model leaves it unspecified. */
  const Unmeasured: Box

  /** A container's box as last measured. */
  function BoxOf(boxes: map<Container, Box>, c: Container): Box
  {
    if c in boxes then boxes[c] else Unmeasured
  }

  /** The outer loop of `assign_dropzone` over the rest `cs` of `mono.containers`: hidden ones are skipped. */
  function ReflowF(st: Anim, H: HomesMap, cs: seq<Container>, d: Drop, boxes: map<Container, Box>,
                   keep: (Elem, Slot) -> bool): (r: (Anim, HomesMap))
    reads cs
    requires d.t in st.items && Registered(st.items, H)
    ensures r.0.items.Keys == st.items.Keys && Registered(r.0.items, r.1)
    decreases |cs|
  {
    if cs == [] then (st, H)
    else
      var c := cs[0];
      if !c.visible then ReflowF(st, H, cs[1..], d, boxes, keep)
      else
        var cur := LayOut(st, HomesOf(H, c), d, c, c.AB(), BoxOf(boxes, c), keep);
        ReflowF(cur.st, H[c := cur.placed], cs[1..], d, boxes, keep)
  }

  // ---- the new order ------------------------------------------------------

  /** One turn of the inner loop, with what it appends. */
  lemma LayStep(h: seq<Elem>, cur: Cursor, d: Drop, c: Container, ab: AxisPair, oB: int,
                keep: (Elem, Slot) -> bool) returns (cur2: Cursor)
    requires d.t in cur.st.items && forall e | e in h :: e in cur.st.items
    requires h != [] && cur.idx == |cur.placed|
    ensures cur2.st.items.Keys == cur.st.items.Keys
    ensures cur2.idx == |cur2.placed| && cur2.placed == cur.placed + OrderStep(h[0], d.t, d.Into(c), d.zoneIdx, |cur.placed|)
    ensures Lay(h, cur, d, c, ab, oB, keep) == Lay(h[1..], cur2, d, c, ab, oB, keep)
  {
    var cur1 := if d.Into(c) && d.zoneIdx == cur.idx then ZoneIn(cur, d.t, c, ab, oB) else cur;
    cur2 := if h[0] == d.t then cur1 else Place(cur1, h[0], ab, oB, keep);
  }

  /**
   * The inner loop and its tail produce the old list without the dragged
   * element, with the dragged element inserted at the index asked for
   * (counted from where the loop starts) or last, in the destination only.
   */
  lemma {:induction false} LayPlaced(h: seq<Elem>, cur: Cursor, d: Drop, c: Container, ab: AxisPair, oB: int,
                                     keep: (Elem, Slot) -> bool, laid: Cursor)
    requires d.t in cur.st.items && forall e | e in h :: e in cur.st.items
    requires cur.idx == |cur.placed| && laid == Lay(h, cur, d, c, ab, oB, keep)
    ensures var r := Finish(laid, d, c, ab, oB);
            r.idx == |r.placed| && r.placed == cur.placed + OrderFrom(h, d.t, d.Into(c), d.zoneIdx, |cur.placed|)
    decreases |h|
  {
    if h == [] {
      FinishPlaced(cur, d, c, ab, oB);
    } else {
      var cur2 := LayStep(h, cur, d, c, ab, oB, keep);
      LayPlaced(h[1..], cur2, d, c, ab, oB, keep, laid);
      OrderFromGlue(cur.placed, cur2.placed, h, d.t, d.Into(c), d.zoneIdx);
    }
  }

  /** With the old list used up, the dragged element goes last in the destination if it was not seated. */
  lemma FinishPlaced(cur: Cursor, d: Drop, c: Container, ab: AxisPair, oB: int)
    requires d.t in cur.st.items && cur.idx == |cur.placed|
    ensures var r := Finish(cur, d, c, ab, oB);
            r.idx == |r.placed| && r.placed == cur.placed + OrderFrom([], d.t, d.Into(c), d.zoneIdx, |cur.placed|)
  {
    assert Without([], d.t) == [];
    InsertAtFront([], d.t);
  }

  /** The inner loop of `LayOut`, from the container's start, with `LayOut` its `Finish`. */
  lemma LayFrom(h: seq<Elem>, st: Anim, d: Drop, c: Container, ab: AxisPair, box: Box,
                keep: (Elem, Slot) -> bool) returns (laid: Cursor)
    requires d.t in st.items && forall e | e in h :: e in st.items
    ensures laid == Lay(h, Cursor(st, 0, SpanOf(box, ab.A).Start(), []), d, c, ab, SpanOf(box, ab.B).Start(), keep)
    ensures LayOut(st, h, d, c, ab, box, keep) == Finish(laid, d, c, ab, SpanOf(box, ab.B).Start())
  {
    laid := Lay(h, Cursor(st, 0, SpanOf(box, ab.A).Start(), []), d, c, ab, SpanOf(box, ab.B).Start(), keep);
  }

  /** A visible container's new `homes` is the old one with the dragged element moved as `Placed` says. */
  lemma LayOutPlaced(st: Anim, h: seq<Elem>, d: Drop, c: Container, ab: AxisPair, box: Box,
                     keep: (Elem, Slot) -> bool)
    requires d.t in st.items && forall e | e in h :: e in st.items
    ensures LayOut(st, h, d, c, ab, box, keep).placed == Placed(h, d.t, d.Into(c), d.zoneIdx)
  {
    var cur := Cursor(st, 0, SpanOf(box, ab.A).Start(), []);
    var oB := SpanOf(box, ab.B).Start();
    LayPlaced(h, cur, d, c, ab, oB, keep, Lay(h, cur, d, c, ab, oB, keep));
  }
  // ---- the records ---------------------------------------------------------

  /** Both axes heading for their resting place. */
  function Homed(it: Item): Item
  {
    it.(X := Homing(it.X), Y := Homing(it.Y))
  }

  /** What the inner loop makes of the record of an element other than the dragged one, seated at `j`. */
  function Placing(it: Item, j: nat, ab: AxisPair, oA: int, oB: int): Item
  {
    var seated := Seat(it.(idx := Some(j)), ab, oA, oB);
    if seated.grabbed then seated else Homed(seated)
  }

  /** Placing an element changes its record as `Placing` says, and no other record but for its slots. */
  lemma PlaceCores(cur: Cursor, e: Elem, ab: AxisPair, oB: int, keep: (Elem, Slot) -> bool)
    requires e in cur.st.items
    ensures var it := cur.st.items[e];
            && Cores(Place(cur, e, ab, oB, keep).st.items) == Cores(cur.st.items)[e := Placing(it, cur.idx, ab, cur.oA, oB).Core()]
            && Place(cur, e, ab, oB, keep).oA == cur.oA + it.At(ab.A).Extent()
  {
    var it := cur.st.items[e];
    var seated := Seat(it.(idx := Some(cur.idx)), ab, cur.oA, oB);
    var st1 := cur.st.(items := cur.st.items[e := seated]);
    var r := Place(cur, e, ab, oB, keep);
    CoresUpdate(cur.st.items, e, seated);
    if seated.grabbed {
      assert r.st == st1;
    } else {
      assert r.st == Settle(Settle(st1, e, Axes.X, keep), e, Axes.Y, keep);
      SettleBothCores(st1, e, keep);
      assert st1.items[e] == seated;
      CoresOverwrite(cur.st.items, e, seated.Core(), Homed(seated).Core());
      var m1, h := Cores(st1.items), Homed(seated).Core();
      assert m1 == Cores(cur.st.items)[e := seated.Core()];
      calc {
        Cores(r.st.items);
        m1[e := h];
        Cores(cur.st.items)[e := seated.Core()][e := h];
        Cores(cur.st.items)[e := h];
      }
    }
  }

  lemma SettleBothCores(st: Anim, e: Elem, keep: (Elem, Slot) -> bool)
    requires e in st.items
    ensures Cores(Settle(Settle(st, e, Axes.X, keep), e, Axes.Y, keep).items) == Cores(st.items)[e := Homed(st.items[e]).Core()]
  {
    var it := st.items[e];
    var st2 := Settle(st, e, Axes.X, keep);
    SettleCores(st, e, Axes.X, keep);
    SettleCores(st2, e, Axes.Y, keep);
    var x := it.With(Axes.X, Homing(it.X));
    assert st2.items[e].Core() == x.Core() by {
      assert Cores(st2.items)[e] == st2.items[e].Core();
    }
    var y := st2.items[e].With(Axes.Y, Homing(st2.items[e].At(Axes.Y)));
    assert y.Core() == Homed(it).Core();
    CoresOverwrite(st.items, e, x.Core(), y.Core());
    calc {
      Cores(Settle(st2, e, Axes.Y, keep).items);
      Cores(st2.items)[e := y.Core()];
      Cores(st.items)[e := x.Core()][e := y.Core()];
      Cores(st.items)[e := Homed(it).Core()];
    }
  }

  /** Seating the dragged element changes its record and no other. */
  lemma ZoneInCores(cur: Cursor, t: Elem, c: Container, ab: AxisPair, oB: int)
    requires t in cur.st.items
    ensures var it := cur.st.items[t];
            && Cores(ZoneIn(cur, t, c, ab, oB).st.items)
               == Cores(cur.st.items)[t := Seat(it.(idx := Some(cur.idx), container := c), ab, cur.oA, oB).Core()]
            && ZoneIn(cur, t, c, ab, oB).oA == cur.oA + it.At(ab.A).Extent()
  {
    var it := cur.st.items[t];
    CoresUpdate(cur.st.items, t, Seat(it.(idx := Some(cur.idx), container := c), ab, cur.oA, oB));
  }
  // ---- the resting places --------------------------------------------------

  /** The outer extents along `a` of the records of `p`. */
  function Exts(m: map<Elem, Item>, p: seq<Elem>, a: Axis): (r: seq<int>)
    requires forall e | e in p :: e in m
    ensures |r| == |p| && forall j | 0 <= j < |p| :: r[j] == m[p[j]].At(a).Extent()
  {
    seq(|p|, j requires 0 <= j < |p| => m[p[j]].At(a).Extent())
  }

  /**
   * The element at position `j` of the new list `p` of container `c` is
   * registered there, rests one extent after another from `start` along the
   * layout axis and at `oB` across it, and, unless it is the dragged one or
   * grabbed, is heading for that resting place.
   */
  predicate LaidAt(m: map<Elem, Item>, p: seq<Elem>, t: Elem, c: Container, j: nat, ab: AxisPair, start: int, oB: int)
    requires j < |p| && forall e | e in p :: e in m
  {
    var it := m[p[j]];
    && it.idx == Some(j) && it.container == c
    && it.At(ab.A).posHome == HomeA(start, Exts(m, p, ab.A), j, it.At(ab.A))
    && it.At(ab.B).posHome == HomeB(oB, it.At(ab.B))
    && (p[j] != t && !it.grabbed ==> it.Settled())
  }

  ghost predicate Laid(m: map<Elem, Item>, p: seq<Elem>, t: Elem, c: Container, ab: AxisPair, start: int, oB: int)
  {
    && (forall e | e in p :: e in m)
    && NoDup(p)
    && (forall j | 0 <= j < |p| :: LaidAt(m, p, t, c, j, ab, start, oB))
  }

  /** Records whose slots alone changed are laid out as before. */
  lemma LaidFrame(m: map<Elem, Item>, m': map<Elem, Item>, p: seq<Elem>, t: Elem, c: Container, ab: AxisPair,
                  start: int, oB: int)
    requires Laid(m, p, t, c, ab, start, oB)
    requires forall e | e in p :: e in m' && m'[e].Core() == m[e].Core()
    ensures Laid(m', p, t, c, ab, start, oB) && Exts(m', p, ab.A) == Exts(m, p, ab.A)
  {
    forall j | 0 <= j < |p|
      ensures m'[p[j]].Core() == m[p[j]].Core()
    {
      assert p[j] in p;
    }
    assert Exts(m', p, ab.A) == Exts(m, p, ab.A);
    forall j | 0 <= j < |p|
      ensures LaidAt(m', p, t, c, j, ab, start, oB)
    {
      assert LaidAt(m, p, t, c, j, ab, start, oB);
      assert m'[p[j]].Core() == m[p[j]].Core();
    }
  }

  /** An element seated right after the list keeps the list laid out. */
  lemma LaidSnoc(m: map<Elem, Item>, p: seq<Elem>, e: Elem, t: Elem, c: Container, ab: AxisPair, start: int, oB: int)
    requires Laid(m, p, t, c, ab, start, oB) && e in m && e !in p
    requires m[e].idx == Some(|p|) && m[e].container == c
    requires m[e].At(ab.A).posHome == start + PrefixSum(Exts(m, p, ab.A), |p|) + m[e].At(ab.A).m1 - m[e].At(ab.A).offset
    requires m[e].At(ab.B).posHome == HomeB(oB, m[e].At(ab.B))
    requires e != t && !m[e].grabbed ==> m[e].Settled()
    ensures Laid(m, p + [e], t, c, ab, start, oB)
    ensures PrefixSum(Exts(m, p + [e], ab.A), |p| + 1) == PrefixSum(Exts(m, p, ab.A), |p|) + m[e].At(ab.A).Extent()
  {
    var q, x := p + [e], m[e].At(ab.A).Extent();
    var E := Exts(m, p, ab.A);
    ExtsSnoc(m, p, e, ab.A);
    forall j | 0 <= j < |q|
      ensures LaidAt(m, q, t, c, j, ab, start, oB)
    {
      if j < |p| {
        LaidSnocEarlier(m, p, e, t, c, ab, start, oB, j);
      } else {
        PrefixSumExtend(E, [x], |p|);
      }
    }
    NoDupSnoc(p, e);
    PrefixSumExtend(E, [x], |p|);
  }

  lemma ExtsSnoc(m: map<Elem, Item>, p: seq<Elem>, e: Elem, a: Axis)
    requires (forall u | u in p :: u in m) && e in m
    ensures Exts(m, p + [e], a) == Exts(m, p, a) + [m[e].At(a).Extent()]
  {
  }

  lemma LaidSnocEarlier(m: map<Elem, Item>, p: seq<Elem>, e: Elem, t: Elem, c: Container, ab: AxisPair,
                        start: int, oB: int, j: nat)
    requires Laid(m, p, t, c, ab, start, oB) && e in m && j < |p|
    ensures LaidAt(m, p + [e], t, c, j, ab, start, oB)
  {
    var E := Exts(m, p, ab.A);
    ExtsSnoc(m, p, e, ab.A);
    PrefixSumExtend(E, [m[e].At(ab.A).Extent()], j);
    assert (p + [e])[j] == p[j];
    assert LaidAt(m, p, t, c, j, ab, start, oB);
  }
  /** Seating keeps an element's measures and moves its resting place to the running edges. */
  lemma SeatFacts(it: Item, ab: AxisPair, oA: int, oB: int)
    requires ab.A != ab.B
    ensures var r, a, b := Seat(it, ab, oA, oB), it.At(ab.A), it.At(ab.B);
            && r == it.With(ab.A, a.(posHome := oA + a.m1 - a.offset)).With(ab.B, b.(posHome := oB + b.m1 - b.offset))
            && r.At(ab.A) == a.(posHome := oA + a.m1 - a.offset)
            && r.At(ab.B) == b.(posHome := oB + b.m1 - b.offset)
  {
  }

  /** What the cursor keeps while the inner loop runs over container `c`, started at `start` and `oB`. */
  ghost predicate LaidCur(cur: Cursor, t: Elem, c: Container, ab: AxisPair, start: int, oB: int)
  {
    && cur.idx == |cur.placed|
    && Laid(cur.st.items, cur.placed, t, c, ab, start, oB)
    && cur.oA == start + PrefixSum(Exts(cur.st.items, cur.placed, ab.A), |cur.placed|)
  }

  /** A record that changed at `e` only keeps the others' cores. */
  lemma CoresElsewhere(m: map<Elem, Item>, m': map<Elem, Item>, e: Elem, x: Item, u: Elem)
    requires m'.Keys == m.Keys && Cores(m') == Cores(m)[e := x] && u in m && u != e
    ensures m'[u].Core() == m[u].Core()
  {
    assert Cores(m')[u] == Cores(m)[u];
  }

  lemma LaidPlace(cur: Cursor, e: Elem, t: Elem, c: Container, ab: AxisPair, start: int, oB: int,
                  keep: (Elem, Slot) -> bool)
    requires ab.A != ab.B && LaidCur(cur, t, c, ab, start, oB)
    requires e in cur.st.items && e !in cur.placed && e != t && cur.st.items[e].container == c
    ensures LaidCur(Place(cur, e, ab, oB, keep), t, c, ab, start, oB)
  {
    var r, m := Place(cur, e, ab, oB, keep), cur.st.items;
    var m', it := r.st.items, m[e];
    var P := Placing(it, cur.idx, ab, cur.oA, oB);
    PlaceCores(cur, e, ab, oB, keep);
    forall u | u in cur.placed ensures u in m' && m'[u].Core() == m[u].Core() {
      CoresElsewhere(m, m', e, P.Core(), u);
    }
    LaidFrame(m, m', cur.placed, t, c, ab, start, oB);
    assert m'[e].Core() == P.Core() by { assert Cores(m')[e] == m'[e].Core(); }
    PlacingFacts(it, cur.idx, ab, cur.oA, oB, m'[e]);
    LaidSnoc(m', cur.placed, e, t, c, ab, start, oB);
  }

  /** A record whose core is what `Placing` makes of `it` rests at `oA` and `oB`, indexed `j`, with `it`'s extent. */
  lemma PlacingFacts(it: Item, j: nat, ab: AxisPair, oA: int, oB: int, x: Item)
    requires ab.A != ab.B && x.Core() == Placing(it, j, ab, oA, oB).Core()
    ensures x.idx == Some(j) && x.container == it.container
    ensures x.At(ab.A).posHome == oA + x.At(ab.A).m1 - x.At(ab.A).offset
    ensures x.At(ab.B).posHome == HomeB(oB, x.At(ab.B))
    ensures x.At(ab.A).Extent() == it.At(ab.A).Extent()
    ensures !x.grabbed ==> x.Settled()
  {
    SeatFacts(it.(idx := Some(j)), ab, oA, oB);
  }

  lemma LaidZoneIn(cur: Cursor, t: Elem, c: Container, ab: AxisPair, start: int, oB: int)
    requires ab.A != ab.B && LaidCur(cur, t, c, ab, start, oB)
    requires t in cur.st.items && t !in cur.placed
    ensures LaidCur(ZoneIn(cur, t, c, ab, oB), t, c, ab, start, oB)
  {
    var r, m := ZoneIn(cur, t, c, ab, oB), cur.st.items;
    var m', it := r.st.items, m[t];
    var S := Seat(it.(idx := Some(cur.idx), container := c), ab, cur.oA, oB);
    ZoneInCores(cur, t, c, ab, oB);
    forall u | u in cur.placed ensures u in m' && m'[u].Core() == m[u].Core() {
      CoresElsewhere(m, m', t, S.Core(), u);
    }
    LaidFrame(m, m', cur.placed, t, c, ab, start, oB);
    assert m'[t].Core() == S.Core() by { assert Cores(m')[t] == m'[t].Core(); }
    SeatFacts(it.(idx := Some(cur.idx), container := c), ab, cur.oA, oB);
    assert m'[t].At(ab.A).Extent() == it.At(ab.A).Extent();
    LaidSnoc(m', cur.placed, t, t, c, ab, start, oB);
  }
  /** What the inner loop over the rest `h` of container `c` may assume of its cursor. */
  ghost predicate LayReady(h: seq<Elem>, cur: Cursor, d: Drop, c: Container, ab: AxisPair, start: int, oB: int)
  {
    && ab.A != ab.B && d.t in cur.st.items
    && (forall e | e in h :: e in cur.st.items)
    && LaidCur(cur, d.t, c, ab, start, oB)
    && NoDup(h)
    && (forall e | e in h && e != d.t :: e !in cur.placed && cur.st.items[e].container == c)
    && (d.t in cur.placed <==> d.Into(c) && d.zoneIdx < |cur.placed|)
  }

  /** A step changes the records of the elements it seats and no other. */
  ghost predicate OnlySeated(m: map<Elem, Item>, m': map<Elem, Item>, placed: seq<Elem>)
  {
    m'.Keys == m.Keys && forall u | u in m && u !in placed :: m'[u].Core() == m[u].Core()
  }

  lemma ZoneInStep(cur: Cursor, d: Drop, c: Container, ab: AxisPair, start: int, oB: int)
    requires ab.A != ab.B && d.t in cur.st.items && LaidCur(cur, d.t, c, ab, start, oB)
    requires d.t in cur.placed <==> d.Into(c) && d.zoneIdx < |cur.placed|
    requires d.Into(c) && d.zoneIdx == cur.idx
    ensures var r := ZoneIn(cur, d.t, c, ab, oB);
            && LaidCur(r, d.t, c, ab, start, oB) && OnlySeated(cur.st.items, r.st.items, r.placed)
            && (d.t in r.placed <==> d.Into(c) && d.zoneIdx < |r.placed|)
  {
    var r := ZoneIn(cur, d.t, c, ab, oB);
    LaidZoneIn(cur, d.t, c, ab, start, oB);
    ZoneInCores(cur, d.t, c, ab, oB);
    var S := Seat(cur.st.items[d.t].(idx := Some(cur.idx), container := c), ab, cur.oA, oB);
    forall u | u in cur.st.items && u !in r.placed ensures r.st.items[u].Core() == cur.st.items[u].Core() {
      CoresElsewhere(cur.st.items, r.st.items, d.t, S.Core(), u);
    }
  }

  lemma PlaceStep(cur: Cursor, e: Elem, d: Drop, c: Container, ab: AxisPair, start: int, oB: int,
                  keep: (Elem, Slot) -> bool)
    requires ab.A != ab.B && d.t in cur.st.items && LaidCur(cur, d.t, c, ab, start, oB)
    requires d.t in cur.placed <==> d.Into(c) && d.zoneIdx < |cur.placed|
    requires d.Into(c) ==> d.zoneIdx != cur.idx
    requires e in cur.st.items && e !in cur.placed && e != d.t && cur.st.items[e].container == c
    ensures var r := Place(cur, e, ab, oB, keep);
            && LaidCur(r, d.t, c, ab, start, oB) && OnlySeated(cur.st.items, r.st.items, r.placed)
            && (d.t in r.placed <==> d.Into(c) && d.zoneIdx < |r.placed|)
  {
    var r := Place(cur, e, ab, oB, keep);
    LaidPlace(cur, e, d.t, c, ab, start, oB, keep);
    PlaceCores(cur, e, ab, oB, keep);
    var P := Placing(cur.st.items[e], cur.idx, ab, cur.oA, oB);
    forall u | u in cur.st.items && u !in r.placed ensures r.st.items[u].Core() == cur.st.items[u].Core() {
      CoresElsewhere(cur.st.items, r.st.items, e, P.Core(), u);
    }
  }
  lemma OnlySeatedTrans(m: map<Elem, Item>, m1: map<Elem, Item>, m2: map<Elem, Item>, p1: seq<Elem>, p2: seq<Elem>)
    requires OnlySeated(m, m1, p1) && OnlySeated(m1, m2, p2) && forall u | u in p1 :: u in p2
    ensures OnlySeated(m, m2, p2)
  {
  }

  /** What one turn of the inner loop guarantees about the cursor it leaves. */
  ghost predicate Turned(h: seq<Elem>, cur: Cursor, cur2: Cursor, d: Drop, c: Container, ab: AxisPair, start: int, oB: int)
    requires h != []
  {
    && LaidCur(cur2, d.t, c, ab, start, oB) && OnlySeated(cur.st.items, cur2.st.items, cur2.placed)
    && (d.t in cur2.placed <==> d.Into(c) && d.zoneIdx < |cur2.placed|)
    && (forall u | u in cur.placed :: u in cur2.placed)
    && (forall u | u in cur2.placed :: u in cur.placed || u == h[0] || u == d.t)
  }

  lemma TurnState(h: seq<Elem>, cur: Cursor, d: Drop, c: Container, ab: AxisPair, start: int, oB: int,
                  keep: (Elem, Slot) -> bool) returns (cur2: Cursor)
    requires h != [] && LayReady(h, cur, d, c, ab, start, oB)
    ensures cur2 == (var cur1 := if d.Into(c) && d.zoneIdx == cur.idx then ZoneIn(cur, d.t, c, ab, oB) else cur;
                     if h[0] == d.t then cur1 else Place(cur1, h[0], ab, oB, keep))
    ensures Turned(h, cur, cur2, d, c, ab, start, oB)
  {
    var e := h[0];
    var cur1 := TurnZone(h, cur, d, c, ab, start, oB);
    cur2 := if e == d.t then cur1 else Place(cur1, e, ab, oB, keep);
    if e != d.t {
      PlaceStep(cur1, e, d, c, ab, start, oB, keep);
      OnlySeatedTrans(cur.st.items, cur1.st.items, cur2.st.items, cur1.placed, cur2.placed);
    }
  }

  /** The first half of a turn: `setZone` when the running index is the one asked for. */
  lemma TurnZone(h: seq<Elem>, cur: Cursor, d: Drop, c: Container, ab: AxisPair, start: int, oB: int)
    returns (cur1: Cursor)
    requires h != [] && LayReady(h, cur, d, c, ab, start, oB)
    ensures cur1 == if d.Into(c) && d.zoneIdx == cur.idx then ZoneIn(cur, d.t, c, ab, oB) else cur
    ensures ab.A != ab.B && d.t in cur1.st.items && LaidCur(cur1, d.t, c, ab, start, oB)
    ensures OnlySeated(cur.st.items, cur1.st.items, cur1.placed)
    ensures d.t in cur1.placed <==> d.Into(c) && d.zoneIdx < |cur1.placed|
    ensures d.Into(c) ==> d.zoneIdx != cur1.idx
    ensures forall u | u in cur.placed :: u in cur1.placed
    ensures forall u | u in cur1.placed :: u in cur.placed || u == d.t
    ensures h[0] != d.t ==> h[0] in cur1.st.items && h[0] !in cur1.placed && cur1.st.items[h[0]].container == c
  {
    cur1 := if d.Into(c) && d.zoneIdx == cur.idx then ZoneIn(cur, d.t, c, ab, oB) else cur;
    assert h[0] in h;
    if d.Into(c) && d.zoneIdx == cur.idx {
      ZoneInStep(cur, d, c, ab, start, oB);
    }
  }

  lemma TurnReady(h: seq<Elem>, cur: Cursor, cur2: Cursor, d: Drop, c: Container, ab: AxisPair, start: int, oB: int)
    requires h != [] && LayReady(h, cur, d, c, ab, start, oB) && Turned(h, cur, cur2, d, c, ab, start, oB)
    ensures LayReady(h[1..], cur2, d, c, ab, start, oB)
  {
    var rest := h[1..];
    assert NoDup(rest) by {
      forall a, b | 0 <= a < b < |rest| ensures rest[a] != rest[b] {
        assert rest[a] == h[a + 1] && rest[b] == h[b + 1];
      }
    }
    forall u | u in rest && u != d.t
      ensures u in cur2.st.items && u !in cur2.placed && cur2.st.items[u].container == c
    {
      assert u in h && u != h[0];
    }
  }

  /** One turn of the inner loop keeps it ready for the rest of the list. */
  lemma LaidTurn(h: seq<Elem>, cur: Cursor, d: Drop, c: Container, ab: AxisPair, start: int, oB: int,
                 keep: (Elem, Slot) -> bool) returns (cur2: Cursor)
    requires h != [] && LayReady(h, cur, d, c, ab, start, oB)
    ensures LayReady(h[1..], cur2, d, c, ab, start, oB)
    ensures Lay(h, cur, d, c, ab, oB, keep) == Lay(h[1..], cur2, d, c, ab, oB, keep)
    ensures OnlySeated(cur.st.items, cur2.st.items, cur2.placed)
  {
    cur2 := TurnState(h, cur, d, c, ab, start, oB, keep);
    TurnReady(h, cur, cur2, d, c, ab, start, oB);
  }

  /** The tail of the inner loop seats the dragged element last when it was not seated yet. */
  lemma FinishLaid(cur: Cursor, d: Drop, c: Container, ab: AxisPair, start: int, oB: int)
    requires LayReady([], cur, d, c, ab, start, oB)
    ensures var r := Finish(cur, d, c, ab, oB);
            LaidCur(r, d.t, c, ab, start, oB) && OnlySeated(cur.st.items, r.st.items, r.placed)
  {
    if d.Into(c) && d.zoneIdx >= |cur.placed| {
      LaidZoneIn(cur, d.t, c, ab, start, oB);
      var r := ZoneIn(cur, d.t, c, ab, oB);
      ZoneInCores(cur, d.t, c, ab, oB);
      var S := Seat(cur.st.items[d.t].(idx := Some(cur.idx), container := c), ab, cur.oA, oB);
      forall u | u in cur.st.items && u !in r.placed ensures r.st.items[u].Core() == cur.st.items[u].Core() {
        CoresElsewhere(cur.st.items, r.st.items, d.t, S.Core(), u);
      }
    }
  }

  /**
   * The inner loop and its tail seat every element of the new list at its
   * index, one extent after another, and leave every other record as it was
   * but for its slots.
   */
  lemma {:induction false} LayLaid(h: seq<Elem>, cur: Cursor, d: Drop, c: Container, ab: AxisPair, start: int,
                                   oB: int, keep: (Elem, Slot) -> bool)
    requires LayReady(h, cur, d, c, ab, start, oB)
    ensures var r := Finish(Lay(h, cur, d, c, ab, oB, keep), d, c, ab, oB);
            LaidCur(r, d.t, c, ab, start, oB) && OnlySeated(cur.st.items, r.st.items, r.placed)
    decreases |h|
  {
    if h == [] {
      FinishLaid(cur, d, c, ab, start, oB);
    } else {
      var cur2 := LaidTurn(h, cur, d, c, ab, start, oB, keep);
      LayLaid(h[1..], cur2, d, c, ab, start, oB, keep);
      var laid := Lay(h[1..], cur2, d, c, ab, oB, keep);
      var r := Finish(laid, d, c, ab, oB);
      LayPlaced(h[1..], cur2, d, c, ab, oB, keep, laid);
      OnlySeatedTrans(cur.st.items, cur2.st.items, r.st.items, cur2.placed, r.placed);
    }
  }
  /**
   * One visible container: every element of its new `homes` is registered
   * there at its position, rests one outer extent after another from the
   * container's start along the layout axis and at its start across it, and
   * heads there unless grabbed; every other record keeps all but its slots.
   */
  lemma LayOutLaid(st: Anim, h: seq<Elem>, d: Drop, c: Container, ab: AxisPair, box: Box,
                   keep: (Elem, Slot) -> bool)
    requires ab.A != ab.B && d.t in st.items && (forall e | e in h :: e in st.items) && NoDup(h)
    requires forall e | e in h && e != d.t :: st.items[e].container == c
    ensures var r := LayOut(st, h, d, c, ab, box, keep);
            && Laid(r.st.items, r.placed, d.t, c, ab, SpanOf(box, ab.A).Start(), SpanOf(box, ab.B).Start())
            && OnlySeated(st.items, r.st.items, r.placed)
  {
    var start, oB := SpanOf(box, ab.A).Start(), SpanOf(box, ab.B).Start();
    var cur := Cursor(st, 0, start, []);
    assert PrefixSum(Exts(st.items, [], ab.A), 0) == 0;
    assert LayReady(h, cur, d, c, ab, start, oB);
    LayLaid(h, cur, d, c, ab, start, oB, keep);
  }
  // ---- the whole reflow ------------------------------------------------------

  /** Every element listed by a container still to be visited belongs to it, the dragged one aside. */
  ghost predicate Housed(m: map<Elem, Item>, H: HomesMap, cs: seq<Container>, t: Elem)
  {
    forall c, e | c in cs && e in HomesOf(H, c) && e != t :: e in m && m[e].container == c
  }

  /** `u` is listed by a visible container of `cs`. */
  ghost predicate Seated(u: Elem, H: HomesMap, cs: seq<Container>)
    reads cs
  {
    exists c | c in cs && c.visible :: u in HomesOf(H, c)
  }

  /** Where container `c`'s first item starts along its layout axis (`a + p1`). */
  function StartA(c: Container, boxes: map<Container, Box>): int
    reads c
  {
    SpanOf(BoxOf(boxes, c), c.AB().A).Start()
  }

  /** Where container `c`'s items start across its layout axis. */
  function StartB(c: Container, boxes: map<Container, Box>): int
    reads c
  {
    SpanOf(BoxOf(boxes, c), c.AB().B).Start()
  }

  /**
   * What the outer loop over `cs` leaves in `r`: every visible container
   * holds its old `homes` with the dragged element moved as `Placed` says,
   * laid out from its own start; every other container keeps its `homes`;
   * and a record no visible container lists keeps all but its slots.
   */
  ghost predicate Relaid(st: Anim, H: HomesMap, cs: seq<Container>, d: Drop, boxes: map<Container, Box>,
                         r: (Anim, HomesMap))
    reads cs
  {
    && r.0.items.Keys == st.items.Keys
    && (forall c | c in cs && c.visible ::
          && c in r.1 && r.1[c] == Placed(HomesOf(H, c), d.t, d.Into(c), d.zoneIdx)
          && Laid(r.0.items, r.1[c], d.t, c, c.AB(), StartA(c, boxes), StartB(c, boxes)))
    && (forall c | c in H && !(c in cs && c.visible) :: c in r.1 && r.1[c] == H[c])
    && (forall c | c in r.1 :: c in H || (c in cs && c.visible))
    && (forall u | u in st.items && !Seated(u, r.1, cs) :: r.0.items[u].Core() == st.items[u].Core())
  }

  /** An element the visible container `c` lists after its turn is listed by no other visible container later on. */
  lemma SeatedOnce(m: map<Elem, Item>, H: HomesMap, c: Container, rest: seq<Container>, d: Drop, H2: HomesMap, e: Elem)
    requires c !in rest && Housed(m, H, rest, d.t)
    requires forall u | u in HomesOf(H, c) && u != d.t :: u in m && m[u].container == c
    requires e in Placed(HomesOf(H, c), d.t, d.Into(c), d.zoneIdx)
    requires forall c2 | c2 in rest && c2.visible ::
               c2 in H2 && H2[c2] == Placed(HomesOf(H, c2), d.t, d.Into(c2), d.zoneIdx)
    ensures !Seated(e, H2, rest)
  {
    InPlaced(HomesOf(H, c), d.t, d.Into(c), d.zoneIdx, e);
    if c2 :| c2 in rest && c2.visible && e in HomesOf(H2, c2) {
      InPlaced(HomesOf(H, c2), d.t, d.Into(c2), d.zoneIdx, e);
    }
  }
  /** The visible container `c`'s layout survives the turns of the containers after it. */
  lemma RelaidHere(st: Anim, H: HomesMap, c: Container, rest: seq<Container>, d: Drop, boxes: map<Container, Box>,
                   cur: Cursor, r: (Anim, HomesMap))
    requires c.visible && c !in rest && Housed(st.items, H, rest, d.t)
    requires forall u | u in HomesOf(H, c) && u != d.t :: u in st.items && st.items[u].container == c
    requires cur.st.items.Keys == st.items.Keys && cur.placed == Placed(HomesOf(H, c), d.t, d.Into(c), d.zoneIdx)
    requires Laid(cur.st.items, cur.placed, d.t, c, c.AB(), StartA(c, boxes), StartB(c, boxes))
    requires Relaid(cur.st, H[c := cur.placed], rest, d, boxes, r)
    ensures c in r.1 && r.1[c] == cur.placed
    ensures Laid(r.0.items, cur.placed, d.t, c, c.AB(), StartA(c, boxes), StartB(c, boxes))
  {
    var H1 := H[c := cur.placed];
    assert c in H1 && c !in rest;
    forall c2 | c2 in rest && c2.visible
      ensures c2 in r.1 && r.1[c2] == Placed(HomesOf(H, c2), d.t, d.Into(c2), d.zoneIdx)
    {
      assert HomesOf(H1, c2) == HomesOf(H, c2);
    }
    forall e | e in cur.placed ensures e in r.0.items && r.0.items[e].Core() == cur.st.items[e].Core() {
      SeatedOnce(st.items, H, c, rest, d, r.1, e);
    }
    LaidFrame(cur.st.items, r.0.items, cur.placed, d.t, c, c.AB(), StartA(c, boxes), StartB(c, boxes));
  }
  /** A visible container's turn followed by the rest of the outer loop. */
  lemma RelaidVisible(st: Anim, H: HomesMap, cs: seq<Container>, d: Drop, boxes: map<Container, Box>,
                      cur: Cursor, r: (Anim, HomesMap))
    requires cs != [] && cs[0].visible && cs[0] !in cs[1..] && Housed(st.items, H, cs[1..], d.t)
    requires forall u | u in HomesOf(H, cs[0]) && u != d.t :: u in st.items && st.items[u].container == cs[0]
    requires cur.st.items.Keys == st.items.Keys && cur.placed == Placed(HomesOf(H, cs[0]), d.t, d.Into(cs[0]), d.zoneIdx)
    requires Laid(cur.st.items, cur.placed, d.t, cs[0], cs[0].AB(), StartA(cs[0], boxes), StartB(cs[0], boxes))
    requires OnlySeated(st.items, cur.st.items, cur.placed)
    requires Relaid(cur.st, H[cs[0] := cur.placed], cs[1..], d, boxes, r)
    ensures Relaid(st, H, cs, d, boxes, r)
  {
    var c, rest, H1 := cs[0], cs[1..], H[cs[0] := cur.placed];
    RelaidHere(st, H, c, rest, d, boxes, cur, r);
    forall c2 | c2 in cs && c2.visible
      ensures c2 in r.1 && r.1[c2] == Placed(HomesOf(H, c2), d.t, d.Into(c2), d.zoneIdx)
      ensures Laid(r.0.items, r.1[c2], d.t, c2, c2.AB(), StartA(c2, boxes), StartB(c2, boxes))
    {
      if c2 != c {
        assert c2 in rest && HomesOf(H1, c2) == HomesOf(H, c2);
      }
    }
    forall c2 | c2 in H && !(c2 in cs && c2.visible) ensures c2 in r.1 && r.1[c2] == H[c2] {
      assert c2 != c && c2 in H1 && !(c2 in rest && c2.visible);
    }
    forall u | u in st.items && !Seated(u, r.1, cs) ensures r.0.items[u].Core() == st.items[u].Core() {
      assert u !in HomesOf(r.1, c);
      assert !Seated(u, r.1, rest);
    }
  }
  /** A hidden container's turn changes nothing. */
  lemma RelaidHidden(st: Anim, H: HomesMap, cs: seq<Container>, d: Drop, boxes: map<Container, Box>,
                     r: (Anim, HomesMap))
    requires cs != [] && !cs[0].visible && Relaid(st, H, cs[1..], d, boxes, r)
    ensures Relaid(st, H, cs, d, boxes, r)
  {
    forall u ensures Seated(u, r.1, cs) == Seated(u, r.1, cs[1..]) {
      if Seated(u, r.1, cs) {
        var c :| c in cs && c.visible && u in HomesOf(r.1, c);
        assert c in cs[1..];
      }
    }
  }

  /** A container's turn leaves the containers after it owning their elements. */
  lemma HousedTurn(st: Anim, H: HomesMap, c: Container, rest: seq<Container>, d: Drop, cur: Cursor)
    requires c !in rest && Housed(st.items, H, rest, d.t)
    requires forall u | u in HomesOf(H, c) && u != d.t :: u in st.items && st.items[u].container == c
    requires cur.placed == Placed(HomesOf(H, c), d.t, d.Into(c), d.zoneIdx)
    requires OnlySeated(st.items, cur.st.items, cur.placed)
    ensures Housed(cur.st.items, H[c := cur.placed], rest, d.t)
  {
    forall c2, e | c2 in rest && e in HomesOf(H[c := cur.placed], c2) && e != d.t
      ensures e in cur.st.items && cur.st.items[e].container == c2
    {
      assert e in HomesOf(H, c2);
      if e in cur.placed {
        InPlaced(HomesOf(H, c), d.t, d.Into(c), d.zoneIdx, e);
      }
    }
  }

  /**
   * The outer loop of `assign_dropzone`, given containers listed once each
   * whose `homes` hold their own elements once each: every visible one ends
   * with its old `homes` reordered as `Placed` says and laid out from its
   * own start, the others keep theirs, and no record outside the new
   * `homes` changes but for its slots.
   */
  lemma {:induction false} ReflowRelaid(st: Anim, H: HomesMap, cs: seq<Container>, d: Drop,
                                        boxes: map<Container, Box>, keep: (Elem, Slot) -> bool)
    requires d.t in st.items && Registered(st.items, H) && NoDup(cs)
    requires Housed(st.items, H, cs, d.t) && forall c | c in cs :: NoDup(HomesOf(H, c))
    ensures Relaid(st, H, cs, d, boxes, ReflowF(st, H, cs, d, boxes, keep))
    decreases |cs|
  {
    if cs != [] {
      var c, rest := cs[0], cs[1..];
      assert c !in rest && NoDup(rest);
      assert Housed(st.items, H, rest, d.t);
      if !c.visible {
        ReflowRelaid(st, H, rest, d, boxes, keep);
        RelaidHidden(st, H, cs, d, boxes, ReflowF(st, H, rest, d, boxes, keep));
      } else {
        var h := HomesOf(H, c);
        var cur := LayOut(st, h, d, c, c.AB(), BoxOf(boxes, c), keep);
        var H1 := H[c := cur.placed];
        LayOutLaid(st, h, d, c, c.AB(), BoxOf(boxes, c), keep);
        LayOutPlaced(st, h, d, c, c.AB(), BoxOf(boxes, c), keep);
        HousedTurn(st, H, c, rest, d, cur);
        forall c2 | c2 in rest ensures NoDup(HomesOf(H1, c2)) {
          assert HomesOf(H1, c2) == HomesOf(H, c2);
        }
        ReflowRelaid(cur.st, H1, rest, d, boxes, keep);
        RelaidVisible(st, H, cs, d, boxes, cur, ReflowF(cur.st, H1, rest, d, boxes, keep));
      }
    }
  }
  // ---- what the reflow leaves alone -------------------------------------------

  /** The parts of a record the reflow never writes. */
  datatype Ties = Ties(grabbed: bool, throwed: bool, handle: Option<Elem>, childrenContainers: set<Container>)

  function TiesOf(it: Item): Ties
  {
    Ties(it.grabbed, it.throwed, it.handle, it.childrenContainers)
  }

  /** Same registered elements, each with the same grab flags, handle and nested containers. */
  ghost predicate Kept(m: map<Elem, Item>, m': map<Elem, Item>)
  {
    m'.Keys == m.Keys && forall e | e in m :: TiesOf(m'[e]) == TiesOf(m[e])
  }

  /** Records that changed at most their indices before a step that keeps what `Kept` names. */
  lemma KeptUnlisted(m: map<Elem, Item>, m': map<Elem, Item>, m'': map<Elem, Item>)
    requires m'.Keys == m.Keys && (forall e | e in m :: m'[e] == m[e].(idx := m'[e].idx)) && Kept(m', m'')
    ensures Kept(m, m'')
  {
    forall e | e in m ensures TiesOf(m''[e]) == TiesOf(m[e]) {
      assert TiesOf(m'[e]) == TiesOf(m[e]);
    }
  }

  /** A step of the reflow: it keeps what `Kept` names and the scheduler invariant. */
  ghost predicate Tame(st: Anim, st': Anim)
  {
    Kept(st.items, st'.items) && (AnimOk(st) ==> AnimOk(st'))
  }

  lemma TameTrans(st: Anim, st1: Anim, st2: Anim)
    requires Tame(st, st1) && Tame(st1, st2)
    ensures Tame(st, st2)
  {
  }

  lemma KeptCores(m: map<Elem, Item>, m': map<Elem, Item>, e: Elem, x: Item)
    requires e in m && m'.Keys == m.Keys && Cores(m') == Cores(m)[e := x] && TiesOf(x) == TiesOf(m[e])
    ensures Kept(m, m')
  {
    forall u | u in m ensures TiesOf(m'[u]) == TiesOf(m[u]) {
      if u == e {
        assert Cores(m')[e] == x;
      } else {
        CoresElsewhere(m, m', e, x, u);
      }
    }
  }

  /** Rewriting a record's positions, index or container keeps the scheduler invariant. */
  lemma AnimOkRecast(st: Anim, e: Elem, x: Item)
    requires AnimOk(st) && e in st.items
    requires x.slots == st.items[e].slots && x.grabbed == st.items[e].grabbed
    ensures AnimOk(st.(items := st.items[e := x]))
  {
  }

  lemma AnimOkSettle(st: Anim, e: Elem, a: Axis, keep: (Elem, Slot) -> bool)
    requires AnimOk(st) && e in st.items && !st.items[e].grabbed
    ensures AnimOk(Settle(st, e, a, keep))
  {
    var it := st.items[e];
    var s := it.At(a);
    if s.posEnd != s.posHome {
      AnimOkRecast(st, e, it.With(a, Homing(s)));
      AddAnimKeepsOk(st.(items := st.items[e := it.With(a, Homing(s))]), e, Pos(a), PosFall(a), keep);
    }
  }

  lemma AnimOkPlace(cur: Cursor, e: Elem, ab: AxisPair, oB: int, keep: (Elem, Slot) -> bool)
    requires e in cur.st.items && AnimOk(cur.st)
    ensures AnimOk(Place(cur, e, ab, oB, keep).st)
  {
    var it := cur.st.items[e];
    var seated := Seat(it.(idx := Some(cur.idx)), ab, cur.oA, oB);
    AnimOkRecast(cur.st, e, seated);
    var st1 := cur.st.(items := cur.st.items[e := seated]);
    if !seated.grabbed {
      AnimOkSettle(st1, e, Axes.X, keep);
      AnimOkSettle(Settle(st1, e, Axes.X, keep), e, Axes.Y, keep);
    }
  }

  lemma TamePlace(cur: Cursor, e: Elem, ab: AxisPair, oB: int, keep: (Elem, Slot) -> bool)
    requires e in cur.st.items
    ensures Tame(cur.st, Place(cur, e, ab, oB, keep).st)
  {
    var it := cur.st.items[e];
    PlaceCores(cur, e, ab, oB, keep);
    KeptCores(cur.st.items, Place(cur, e, ab, oB, keep).st.items, e, Placing(it, cur.idx, ab, cur.oA, oB).Core());
    if AnimOk(cur.st) {
      AnimOkPlace(cur, e, ab, oB, keep);
    }
  }

  lemma TameZoneIn(cur: Cursor, t: Elem, c: Container, ab: AxisPair, oB: int)
    requires t in cur.st.items
    ensures Tame(cur.st, ZoneIn(cur, t, c, ab, oB).st)
  {
    var it := cur.st.items[t];
    var seated := Seat(it.(idx := Some(cur.idx), container := c), ab, cur.oA, oB);
    ZoneInCores(cur, t, c, ab, oB);
    KeptCores(cur.st.items, ZoneIn(cur, t, c, ab, oB).st.items, t, seated.Core());
    if AnimOk(cur.st) {
      AnimOkRecast(cur.st, t, seated);
    }
  }

  lemma TameFinish(cur: Cursor, d: Drop, c: Container, ab: AxisPair, oB: int)
    requires d.t in cur.st.items
    ensures Tame(cur.st, Finish(cur, d, c, ab, oB).st)
  {
    if d.Into(c) && d.zoneIdx >= |cur.placed| {
      TameZoneIn(cur, d.t, c, ab, oB);
    }
  }

  lemma {:induction false} TameLay(h: seq<Elem>, cur: Cursor, d: Drop, c: Container, ab: AxisPair, oB: int,
                                   keep: (Elem, Slot) -> bool)
    requires d.t in cur.st.items && forall e | e in h :: e in cur.st.items
    ensures Tame(cur.st, Lay(h, cur, d, c, ab, oB, keep).st)
    decreases |h|
  {
    if h != [] {
      var cur1 := if d.Into(c) && d.zoneIdx == cur.idx then ZoneIn(cur, d.t, c, ab, oB) else cur;
      if d.Into(c) && d.zoneIdx == cur.idx {
        TameZoneIn(cur, d.t, c, ab, oB);
      }
      var cur2 := if h[0] == d.t then cur1 else Place(cur1, h[0], ab, oB, keep);
      if h[0] != d.t {
        TamePlace(cur1, h[0], ab, oB, keep);
        TameTrans(cur.st, cur1.st, cur2.st);
      }
      TameLay(h[1..], cur2, d, c, ab, oB, keep);
      TameTrans(cur.st, cur2.st, Lay(h[1..], cur2, d, c, ab, oB, keep).st);
    }
  }

  /**
   * The reflow changes no record's grab flags, handle or nested containers,
   * and keeps the scheduler invariant: every fall step it installs is on an
   * element that is not grabbed.
   */
  lemma {:induction false} TameReflow(st: Anim, H: HomesMap, cs: seq<Container>, d: Drop,
                                      boxes: map<Container, Box>, keep: (Elem, Slot) -> bool)
    requires d.t in st.items && Registered(st.items, H)
    ensures Tame(st, ReflowF(st, H, cs, d, boxes, keep).0)
    decreases |cs|
  {
    if cs != [] {
      var c := cs[0];
      if !c.visible {
        TameReflow(st, H, cs[1..], d, boxes, keep);
      } else {
        var ab, box, h := c.AB(), BoxOf(boxes, c), HomesOf(H, c);
        var cur0 := Cursor(st, 0, SpanOf(box, ab.A).Start(), []);
        var oB := SpanOf(box, ab.B).Start();
        TameLay(h, cur0, d, c, ab, oB, keep);
        TameFinish(Lay(h, cur0, d, c, ab, oB, keep), d, c, ab, oB);
        var cur := LayOut(st, h, d, c, ab, box, keep);
        TameTrans(st, Lay(h, cur0, d, c, ab, oB, keep).st, cur.st);
        TameReflow(cur.st, H[c := cur.placed], cs[1..], d, boxes, keep);
        TameTrans(st, cur.st, ReflowF(cur.st, H[c := cur.placed], cs[1..], d, boxes, keep).0);
      }
    }
  }
  // ---- the registry after the reflow ---------------------------------------------

  /** Container `c` is one the reflow lays out: it is known and has an `offsetParent`. */
  predicate Visits(cs: seq<Container>, c: Container)
    reads cs
  {
    c in cs && c.visible
  }

  /** The registry the reflow starts from: consistent, every container listed once and known. */
  ghost predicate Reflowable(st: Anim, H: HomesMap, cs: seq<Container>, t: Elem)
  {
    t in st.items && Owned(st.items, H) && NoDup(cs) && (forall c | c in cs :: c in H)
  }

  /**
   * When `assign_dropzone` keeps the registry consistent: a dragged element
   * that is listed (it has an index) leaves its container exactly when it is
   * seated elsewhere, that is, its container is laid out exactly when the
   * destination is laid out and seats it. A hidden container is skipped, so
   * an element it lists stays there even when a visible destination seats it
   * too (`HiddenOriginTwice`).
   */
  ghost predicate Movable(st: Anim, H: HomesMap, cs: seq<Container>, d: Drop)
    reads cs
  {
    && Reflowable(st, H, cs, d.t)
    && (st.items[d.t].idx.Some? ==> (Visits(cs, st.items[d.t].container) <==> Visits(cs, d.dest) && d.lands))
  }

  lemma MovableReady(st: Anim, H: HomesMap, cs: seq<Container>, d: Drop)
    requires Reflowable(st, H, cs, d.t)
    ensures Registered(st.items, H) && Housed(st.items, H, cs, d.t)
    ensures forall c | c in cs :: NoDup(HomesOf(H, c))
  {
    forall c, e | c in H && e in H[c] ensures e in st.items {
      HomeIsUnique(st.items, H, e, c);
    }
    forall c, e | c in cs && e in HomesOf(H, c) && e != d.t ensures e in st.items && st.items[e].container == c {
      HomeIsUnique(st.items, H, e, c);
    }
    forall c | c in cs ensures NoDup(HomesOf(H, c)) {
      OwnedNoDup(st.items, H, c);
    }
  }

  /** An element of a container the reflow skips is listed by no visible container afterwards. */
  lemma HiddenUnseated(st: Anim, H: HomesMap, cs: seq<Container>, d: Drop, boxes: map<Container, Box>,
                       r: (Anim, HomesMap), c: Container, e: Elem)
    requires Movable(st, H, cs, d) && Relaid(st, H, cs, d, boxes, r)
    requires c in H && !(c in cs && c.visible) && e in H[c]
    ensures !Seated(e, r.1, cs)
  {
    HomeIsUnique(st.items, H, e, c);
    if c2 :| c2 in cs && c2.visible && e in HomesOf(r.1, c2) {
      InPlaced(HomesOf(H, c2), d.t, d.Into(c2), d.zoneIdx, e);
      HomeIsUnique(st.items, H, e, c2);
    }
  }

  /** A registered, indexed element no visible container lists afterwards belongs to a container the reflow skips. */
  lemma UnseatedHidden(st: Anim, H: HomesMap, cs: seq<Container>, d: Drop, boxes: map<Container, Box>,
                       r: (Anim, HomesMap), e: Elem)
    requires Movable(st, H, cs, d) && Relaid(st, H, cs, d, boxes, r)
    requires e in st.items && st.items[e].idx.Some? && !Seated(e, r.1, cs)
    ensures !(st.items[e].container in cs && st.items[e].container.visible)
    ensures st.items[e].container in H && st.items[e].container in r.1 && r.1[st.items[e].container] == H[st.items[e].container]
  {
    var c0 := st.items[e].container;
    assert c0 in H && e in H[c0];
    if e == d.t && Visits(cs, d.dest) && d.lands {
      PlacedHas(HomesOf(H, d.dest), d.t, true, d.zoneIdx, e);
    } else if e != d.t && c0 in cs && c0.visible {
      PlacedHas(HomesOf(H, c0), d.t, d.Into(c0), d.zoneIdx, e);
    }
  }
  /** An element a visible container lists after the reflow is registered there at its position. */
  lemma SeatedListed(m: map<Elem, Item>, H: HomesMap, c: Container, d: Drop, boxes: map<Container, Box>, e: Elem)
    requires c in H && Laid(m, H[c], d.t, c, c.AB(), StartA(c, boxes), StartB(c, boxes)) && e in H[c]
    ensures e in m && m[e].container == c && m[e].idx.Some?
    ensures m[e].idx.value < |H[c]| && H[c][m[e].idx.value] == e
  {
    var j :| 0 <= j < |H[c]| && H[c][j] == e;
    assert LaidAt(m, H[c], d.t, c, j, c.AB(), StartA(c, boxes), StartB(c, boxes));
  }

  lemma ReflowClosed(st: Anim, H: HomesMap, cs: seq<Container>, d: Drop, boxes: map<Container, Box>,
                     r: (Anim, HomesMap))
    requires Reflowable(st, H, cs, d.t) && Relaid(st, H, cs, d, boxes, r) && Kept(st.items, r.0.items)
    ensures r.1.Keys == H.Keys && Closed(r.0.items, r.1)
  {
    forall e | e in r.0.items ensures r.0.items[e].container in r.1 {
      if Seated(e, r.1, cs) {
        var c :| c in cs && c.visible && e in HomesOf(r.1, c);
        SeatedListed(r.0.items, r.1, c, d, boxes, e);
      } else {
        assert r.0.items[e].Core() == st.items[e].Core();
      }
    }
  }

  lemma ReflowListed(st: Anim, H: HomesMap, cs: seq<Container>, d: Drop, boxes: map<Container, Box>,
                     r: (Anim, HomesMap))
    requires Movable(st, H, cs, d) && Relaid(st, H, cs, d, boxes, r)
    ensures Listed(r.0.items, r.1)
  {
    forall c, j | c in r.1 && 0 <= j < |r.1[c]| ensures ListedAt(r.0.items, r.1, c, j) {
      if c in cs && c.visible {
        assert LaidAt(r.0.items, r.1[c], d.t, c, j, c.AB(), StartA(c, boxes), StartB(c, boxes));
      } else {
        var e := H[c][j];
        HiddenUnseated(st, H, cs, d, boxes, r, c, e);
        OwnedAt(st.items, H, c, j);
        assert r.0.items[e].Core() == st.items[e].Core();
      }
    }
  }

  lemma ReflowIndexed(st: Anim, H: HomesMap, cs: seq<Container>, d: Drop, boxes: map<Container, Box>,
                      r: (Anim, HomesMap))
    requires Movable(st, H, cs, d) && Relaid(st, H, cs, d, boxes, r)
    ensures Indexed(r.0.items, r.1)
  {
    var m' := r.0.items;
    forall e | e in m' && m'[e].idx.Some?
      ensures m'[e].container in r.1 && m'[e].idx.value < |r.1[m'[e].container]| && r.1[m'[e].container][m'[e].idx.value] == e
    {
      if Seated(e, r.1, cs) {
        var c :| c in cs && c.visible && e in HomesOf(r.1, c);
        SeatedListed(m', r.1, c, d, boxes, e);
      } else {
        assert m'[e].Core() == st.items[e].Core();
        UnseatedHidden(st, H, cs, d, boxes, r, e);
      }
    }
  }
  /**
   * `assign_dropzone` into a laid-out destination keeps the registry
   * consistent (`homes[i].idx == i`, one container per element) and the
   * scheduler invariant, and writes no grab flag, handle or nested
   * container, provided the dragged element is moved consistently
   * (`Movable`: a listed one sits in a laid-out container, since a hidden
   * one is skipped and would keep listing it, `HiddenOriginTwice`). A
   * dragged element that lands is left in the destination at
   * `min(zoneIdx, length)` of the others; one that does not is listed
   * nowhere and keeps its container and its missing index.
   */
  lemma ReflowKeepsOwned(st: Anim, H: HomesMap, cs: seq<Container>, d: Drop, boxes: map<Container, Box>,
                         keep: (Elem, Slot) -> bool)
    requires Movable(st, H, cs, d) && Visits(cs, d.dest) && (d.lands || st.items[d.t].idx.None?)
    requires Registered(st.items, H)
    ensures var r := ReflowF(st, H, cs, d, boxes, keep);
            && Owned(r.0.items, r.1) && r.1.Keys == H.Keys
            && Kept(st.items, r.0.items) && (AnimOk(st) ==> AnimOk(r.0))
    ensures var r := ReflowF(st, H, cs, d, boxes, keep);
            var i := Min(d.zoneIdx, |Without(H[d.dest], d.t)|);
            d.lands ==>
              && r.1[d.dest] == Placed(H[d.dest], d.t, true, d.zoneIdx)
              && i < |r.1[d.dest]| && r.1[d.dest][i] == d.t
              && r.0.items[d.t].container == d.dest && r.0.items[d.t].idx == Some(i)
    ensures var r := ReflowF(st, H, cs, d, boxes, keep);
            !d.lands ==>
              && (forall c | c in r.1 :: d.t !in r.1[c])
              && r.0.items[d.t].container == st.items[d.t].container && r.0.items[d.t].idx == None
  {
    var r := ReflowF(st, H, cs, d, boxes, keep);
    MovableReady(st, H, cs, d);
    ReflowRelaid(st, H, cs, d, boxes, keep);
    TameReflow(st, H, cs, d, boxes, keep);
    ReflowClosed(st, H, cs, d, boxes, r);
    ReflowListed(st, H, cs, d, boxes, r);
    ReflowIndexed(st, H, cs, d, boxes, r);
    if d.lands {
      PlacedFacts(H[d.dest], d.t, true, d.zoneIdx);
      SeatedListed(r.0.items, r.1, d.dest, d, boxes, d.t);
      var i := Min(d.zoneIdx, |Without(H[d.dest], d.t)|);
      OwnedAt(r.0.items, r.1, d.dest, i);
    } else {
      ReflowStrands(st, H, cs, d, boxes, r);
    }
  }

  /** A dragged element that does not land ends up listed nowhere, its record's links untouched. */
  lemma ReflowStrands(st: Anim, H: HomesMap, cs: seq<Container>, d: Drop, boxes: map<Container, Box>,
                      r: (Anim, HomesMap))
    requires Movable(st, H, cs, d) && Relaid(st, H, cs, d, boxes, r) && !d.lands && st.items[d.t].idx.None?
    ensures forall c | c in r.1 :: d.t !in r.1[c]
    ensures r.0.items[d.t].container == st.items[d.t].container && r.0.items[d.t].idx == None
  {
    forall c | c in r.1 ensures d.t !in r.1[c] {
      if c in cs && c.visible {
        PlacedFacts(HomesOf(H, c), d.t, false, d.zoneIdx);
      } else {
        forall j | 0 <= j < |H[c]| ensures H[c][j] != d.t {
          OwnedAt(st.items, H, c, j);
        }
      }
    }
    assert !Seated(d.t, r.1, cs);
  }

  /**
   * `assign_dropzone` when it seats the dragged element nowhere: the
   * destination is hidden (`find_container` hands back the calling
   * container, hidden or not, when the target's parent has no group) or a
   * `null` index seats nothing. The registry stays consistent, the dragged
   * element stays listed exactly where it was, and its record keeps all but
   * its slots.
   */
  lemma ReflowPassesBy(st: Anim, H: HomesMap, cs: seq<Container>, d: Drop, boxes: map<Container, Box>,
                       keep: (Elem, Slot) -> bool)
    requires Movable(st, H, cs, d) && !(Visits(cs, d.dest) && d.lands) && Registered(st.items, H)
    ensures var r := ReflowF(st, H, cs, d, boxes, keep);
            && Owned(r.0.items, r.1) && r.1.Keys == H.Keys
            && Kept(st.items, r.0.items) && (AnimOk(st) ==> AnimOk(r.0))
            && r.0.items[d.t].Core() == st.items[d.t].Core()
            && forall c | c in H :: d.t in r.1[c] <==> d.t in H[c]
  {
    var r := ReflowF(st, H, cs, d, boxes, keep);
    MovableReady(st, H, cs, d);
    ReflowRelaid(st, H, cs, d, boxes, keep);
    TameReflow(st, H, cs, d, boxes, keep);
    ReflowClosed(st, H, cs, d, boxes, r);
    ReflowListed(st, H, cs, d, boxes, r);
    ReflowIndexed(st, H, cs, d, boxes, r);
    forall c | c in H ensures d.t in r.1[c] <==> d.t in H[c] {
      if Visits(cs, c) {
        PlacedFacts(HomesOf(H, c), d.t, false, d.zoneIdx);
        if d.t in H[c] {
          HomeIsUnique(st.items, H, d.t, c);
        }
      }
    }
    assert !Seated(d.t, r.1, cs);
  }

  /**
   * As written, `assign_dropzone` skips a hidden container even when it
   * lists the dragged element, so seating an element of a hidden container
   * in a visible destination leaves it listed twice and the registry
   * inconsistent.
   */
  lemma HiddenOriginTwice(st: Anim, H: HomesMap, cs: seq<Container>, d: Drop, boxes: map<Container, Box>,
                          keep: (Elem, Slot) -> bool)
    requires Reflowable(st, H, cs, d.t) && Registered(st.items, H) && st.items[d.t].idx.Some?
    requires !Visits(cs, st.items[d.t].container) && Visits(cs, d.dest) && d.lands
    ensures var r := ReflowF(st, H, cs, d, boxes, keep);
            var o := st.items[d.t].container;
            && o != d.dest && o in r.1 && d.t in r.1[o] && d.dest in r.1 && d.t in r.1[d.dest]
            && !Owned(r.0.items, r.1)
  {
    var r := ReflowF(st, H, cs, d, boxes, keep);
    var o := st.items[d.t].container;
    MovableReady(st, H, cs, d);
    ReflowRelaid(st, H, cs, d, boxes, keep);
    assert H[o][st.items[d.t].idx.value] == d.t;
    PlacedFacts(HomesOf(H, d.dest), d.t, true, d.zoneIdx);
    if Owned(r.0.items, r.1) {
      HomeIsUnique(r.0.items, r.1, d.t, o);
      HomeIsUnique(r.0.items, r.1, d.t, d.dest);
    }
  }

  /** The case `HiddenOriginTwice` describes: a listed dragged element of a skipped container seated elsewhere. */
  predicate Strays(st: Anim, cs: seq<Container>, d: Drop)
    reads cs
    requires d.t in st.items
  {
    st.items[d.t].idx.Some? && !Visits(cs, st.items[d.t].container) && Visits(cs, d.dest) && d.lands
  }

  /**
   * `assign_dropzone` as it is evidently meant to work: a dragged element
   * that a skipped container lists is taken out of that list before the
   * reflow seats it in the destination.
   */
  function ReflowFixed(st: Anim, H: HomesMap, cs: seq<Container>, d: Drop, boxes: map<Container, Box>,
                       keep: (Elem, Slot) -> bool): (Anim, HomesMap)
    reads cs
    requires d.t in st.items && st.items[d.t].container in H && Registered(st.items, H)
  {
    if Strays(st, cs, d) then
      var u := Unlisted(st.items, H, d.t);
      ReflowF(st.(items := u.0), u.1, cs, d, boxes, keep)
    else
      ReflowF(st, H, cs, d, boxes, keep)
  }

  /**
   * The corrected reflow keeps the registry consistent whenever a listed
   * dragged element of a laid-out container is seated again (as every call
   * from `find_dropzone` and `item_moved` does): the dragged element is
   * registered with the destination at `min(zoneIdx, length)` of the others
   * when it is seated there, and keeps its record but for its slots
   * otherwise.
   */
  lemma FixedKeepsOwned(st: Anim, H: HomesMap, cs: seq<Container>, d: Drop, boxes: map<Container, Box>,
                        keep: (Elem, Slot) -> bool)
    requires Reflowable(st, H, cs, d.t) && Registered(st.items, H)
    requires st.items[d.t].idx.Some? && Visits(cs, st.items[d.t].container) ==> Visits(cs, d.dest) && d.lands
    ensures var r := ReflowFixed(st, H, cs, d, boxes, keep);
            && Owned(r.0.items, r.1) && r.1.Keys == H.Keys
            && Kept(st.items, r.0.items) && (AnimOk(st) ==> AnimOk(r.0))
    ensures var r := ReflowFixed(st, H, cs, d, boxes, keep);
            Visits(cs, d.dest) && d.lands ==>
              var i := Min(d.zoneIdx, |Without(H[d.dest], d.t)|);
              && i < |r.1[d.dest]| && r.1[d.dest][i] == d.t
              && r.0.items[d.t].container == d.dest && r.0.items[d.t].idx == Some(i)
    ensures var r := ReflowFixed(st, H, cs, d, boxes, keep);
            !(Visits(cs, d.dest) && d.lands) ==> r.0.items[d.t].Core() == st.items[d.t].Core()
  {
    MovableReady(st, H, cs, d);
    if Strays(st, cs, d) {
      var u := Unlisted(st.items, H, d.t);
      var st' := st.(items := u.0);
      UnlistKeeps(st.items, H, map[], d.t);
      if AnimOk(st) {
        SchedOkReindexed(st.items, u.0, st.queue, st.running);
      }
      assert u.1[d.dest] == H[d.dest];
      ReflowKeepsOwned(st', u.1, cs, d, boxes, keep);
      KeptUnlisted(st.items, u.0, ReflowF(st', u.1, cs, d, boxes, keep).0.items);
    } else if Visits(cs, d.dest) && d.lands {
      ReflowKeepsOwned(st, H, cs, d, boxes, keep);
    } else {
      ReflowPassesBy(st, H, cs, d, boxes, keep);
    }
  }

  /**
   * `assign_dropzone(t, null)` on `dest`: the destination ends with the
   * dragged element alone when it listed nothing else, and without it
   * otherwise.
   */
  lemma NullDropSeats(st: Anim, H: HomesMap, cs: seq<Container>, t: Elem, dest: Container,
                      boxes: map<Container, Box>, keep: (Elem, Slot) -> bool)
    requires Reflowable(st, H, cs, t) && Visits(cs, dest) && Registered(st.items, H)
    ensures var r := ReflowF(st, H, cs, DropOf(H, t, dest, None), boxes, keep);
            dest in r.1 && r.1[dest] == if Without(H[dest], t) == [] then [t] else Without(H[dest], t)
  {
    var d := DropOf(H, t, dest, None);
    MovableReady(st, H, cs, d);
    ReflowRelaid(st, H, cs, d, boxes, keep);
    NullSeats(st, H, cs, t, dest, boxes, ReflowF(st, H, cs, d, boxes, keep));
  }

  /** `NullDropSeats` on the relaid result, given as a parameter. */
  lemma NullSeats(st: Anim, H: HomesMap, cs: seq<Container>, t: Elem, dest: Container,
                  boxes: map<Container, Box>, r: (Anim, HomesMap))
    requires dest in cs && dest.visible && dest in H
    requires Relaid(st, H, cs, DropOf(H, t, dest, None), boxes, r)
    ensures dest in r.1 && r.1[dest] == if Without(H[dest], t) == [] then [t] else Without(H[dest], t)
  {
    var w := Without(H[dest], t);
    assert r.1[dest] == Placed(H[dest], t, w == [], 0);
    if w == [] {
      assert InsertAt(w, 0, t) == [t];
    }
  }
}
