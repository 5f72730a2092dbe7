/**
 * `find_container(target)`: how each container looks to the dragged item
 * (visible, allowed, how far from the item's midpoint, how deeply nested)
 * and the container the selection in `Choice` then returns. The item's
 * midpoint is `pos + pos_mid + offset` per axis; with integer geometry the
 * `Math.floor` around it changes nothing.
 */
module Pick {
  import opened Wrappers
  import opened Geometry
  import opened Records
  import opened Registry
  import opened Parents
  import opened Choice
  import opened Axes
  import Reflow
  import Dropzone

  /** The item's midpoint on one axis. */
  function MidOf(s: AxisState): int
  {
    s.pos + s.posMid + s.offset
  }

  /**
   * Container `c` as the selection sees it for target `t` at (mx, my):
   * considered when visible and allowing the target (whose DOM parent has
   * group `tgroup`), at its nine-region box distance, at its nesting depth.
   */
  function CandOf(c: Container, m: map<Elem, Item>, P: HostsMap, boxes: map<Container, Box>, tgroup: Option<string>,
                  t: Elem, mx: int, my: int, hypot: (int, int) -> real, fuel: nat): (r: Cand)
    reads c
    requires HypotPositive(hypot)
    ensures r.eligible <==> c.visible && c.group == tgroup && !HasParent(m, P, c, t, fuel)
    ensures r.dist >= 0.0 && (r.dist == 0.0 <==> InBox(Reflow.BoxOf(boxes, c), mx, my))
    ensures r.depth == NestingDepth(m, P, c, 0, fuel)
  {
    Cand(c.visible && AllowsTarget(m, P, c, c.group, tgroup, t, fuel),
         BoxDistance(Reflow.BoxOf(boxes, c), mx, my, hypot),
         NestingDepth(m, P, c, 0, fuel))
  }

  /** The candidates, in the order of `mono.containers`. */
  function CandsOf(cs: seq<Container>, m: map<Elem, Item>, P: HostsMap, boxes: map<Container, Box>,
                   tgroup: Option<string>, t: Elem, mx: int, my: int, hypot: (int, int) -> real, fuel: nat): (r: seq<Cand>)
    reads set c | c in cs
    requires HypotPositive(hypot)
    ensures |r| == |cs|
    ensures forall j | 0 <= j < |cs| :: r[j] == CandOf(cs[j], m, P, boxes, tgroup, t, mx, my, hypot, fuel)
    decreases |cs|
  {
    if cs == [] then []
    else [CandOf(cs[0], m, P, boxes, tgroup, t, mx, my, hypot, fuel)] + CandsOf(cs[1..], m, P, boxes, tgroup, t, mx, my, hypot, fuel)
  }

  /**
   * `self.find_container(t)`, `parent` being `t`'s DOM parent: `self` when
   * that parent has no group, otherwise the container the selection picks
   * among `cs`, None standing for `null`.
   */
  function FindContainerF(self: Container, cs: seq<Container>, m: map<Elem, Item>, P: HostsMap,
                          boxes: map<Container, Box>, parent: Container, t: Elem,
                          hypot: (int, int) -> real, fuel: nat): Option<Container>
    reads parent, set c | c in cs
    requires t in m && HypotPositive(hypot)
  {
    if !HasGroup(parent.group) then Some(self)
    else
      var cands := CandsOf(cs, m, P, boxes, parent.group, t, MidOf(m[t].X), MidOf(m[t].Y), hypot, fuel);
      ChooseFacts(cands);
      var k := Choose(cands);
      if k.None? then None else Some(cs[k.value])
  }

  /** `find_container` with its two loops. */
  method FindContainer(self: Container, cs: seq<Container>, m: map<Elem, Item>, P: HostsMap,
                       boxes: map<Container, Box>, parent: Container, t: Elem,
                       hypot: (int, int) -> real, fuel: nat) returns (found: Option<Container>)
    requires t in m && HypotPositive(hypot)
    ensures found == FindContainerF(self, cs, m, P, boxes, parent, t, hypot, fuel)
    ensures found.Some? ==> found.value == self || found.value in cs
  {
    FindContainerFacts(self, cs, m, P, boxes, parent, t, hypot, fuel);
    var group := parent.group;
    if !HasGroup(group) {
      return Some(self);
    }
    var cands := CandsOf(cs, m, P, boxes, group, t, MidOf(m[t].X), MidOf(m[t].Y), hypot, fuel);
    var k := Select(cands);
    found := if k.None? then None else Some(cs[k.value]);
  }

  /**
   * What `find_container` promises, in container terms: `self` when the
   * target's parent has no group; `null` exactly when no container is both
   * visible and allowing the target; otherwise a visible container that
   * allows it, whose distance is within `Grace` of every other considered
   * container's, and which is the one `Choose` settles on (the deepest of
   * the pool, a later one winning a tie: `Choice.ChooseFacts`).
   */
  lemma FindContainerFacts(self: Container, cs: seq<Container>, m: map<Elem, Item>, P: HostsMap,
                           boxes: map<Container, Box>, parent: Container, t: Elem,
                           hypot: (int, int) -> real, fuel: nat)
    requires t in m && HypotPositive(hypot)
    ensures var r := FindContainerF(self, cs, m, P, boxes, parent, t, hypot, fuel);
            && (!HasGroup(parent.group) ==> r == Some(self))
            && (HasGroup(parent.group) ==>
                  (r.None? <==> forall c | c in cs :: !c.visible || !AllowsTarget(m, P, c, c.group, parent.group, t, fuel)))
    ensures var r := FindContainerF(self, cs, m, P, boxes, parent, t, hypot, fuel);
            var mx, my := MidOf(m[t].X), MidOf(m[t].Y);
            HasGroup(parent.group) && r.Some? ==>
              && r.value in cs && r.value.visible && AllowsTarget(m, P, r.value, r.value.group, parent.group, t, fuel)
              && forall c | c in cs && c.visible && AllowsTarget(m, P, c, c.group, parent.group, t, fuel) ::
                   BoxDistance(Reflow.BoxOf(boxes, r.value), mx, my, hypot)
                   <= BoxDistance(Reflow.BoxOf(boxes, c), mx, my, hypot) + Grace
  {
    if HasGroup(parent.group) {
      var g := parent.group;
      var mx, my := MidOf(m[t].X), MidOf(m[t].Y);
      var cands := CandsOf(cs, m, P, boxes, g, t, mx, my, hypot, fuel);
      ChooseFacts(cands);
      var r := FindContainerF(self, cs, m, P, boxes, parent, t, hypot, fuel);
      if r.None? {
        forall c | c in cs ensures !c.visible || !AllowsTarget(m, P, c, c.group, g, t, fuel) {
          var j :| 0 <= j < |cs| && cs[j] == c;
          assert !cands[j].eligible;
        }
      } else {
        forall c | c in cs && c.visible && AllowsTarget(m, P, c, c.group, g, t, fuel)
          ensures BoxDistance(Reflow.BoxOf(boxes, r.value), mx, my, hypot)
                  <= BoxDistance(Reflow.BoxOf(boxes, c), mx, my, hypot) + Grace
        {
          var j :| 0 <= j < |cs| && cs[j] == c;
          assert cands[j].eligible;
        }
      }
    }
  }
  // ---- find_dropzone -------------------------------------------------------

  /**
   * The size of every slot of `homes` list `h` on axis `a`, and of the slot
   * past its end: a registered element's `m_size`, the dragged item's own
   * size `own` where `items.get` finds no record.
   */
  function SlotSizes(m: map<Elem, Item>, h: seq<Elem>, a: Axis, own: int): (r: seq<int>)
    ensures |r| == |h| + 1 && r[|h|] == own
    ensures forall i | 0 <= i < |h| && h[i] in m :: r[i] == m[h[i]].At(a).mSize
    ensures forall i | 0 <= i < |h| && h[i] !in m :: r[i] == own
    decreases |h|
  {
    if h == [] then [own]
    else [if h[0] in m then m[h[0]].At(a).mSize else own] + SlotSizes(m, h[1..], a, own)
  }

  /**
   * The call `find_dropzone` makes for target `t` over container `cc`: None
   * when it calls nothing, `Some(idxIn)` for `assign_dropzone(t, idxIn)`,
   * `idxIn` being None for `null`. The item's home midpoint is only known in
   * its own container; elsewhere it stands at -1 with index 0. An item of
   * `cc` without an index that moved back enters the backward loop once with
   * `i = null`: `children[null]` is no element, so the slot has the item's
   * own size, and the test passes exactly when the midpoint is before
   * `midH + pos_mid`, which hands on `idx = null`.
   */
  function DropzoneIndex(m: map<Elem, Item>, H: HomesMap, boxes: map<Container, Box>, cc: Container, t: Elem)
    : Option<Option<nat>>
    reads cc
    requires t in m && Indexed(m, H)
  {
    var a := cc.AB().A;
    var s := m[t].At(a);
    var sizes := SlotSizes(m, Reflow.HomesOf(H, cc), a, s.mSize);
    var start := Reflow.SpanOf(Reflow.BoxOf(boxes, cc), a).Start();
    if m[t].container != cc then CallWith(Dropzone.DropIndex(sizes, s.mSize, s.posMid, MidOf(s), -1, 0, start))
    else if m[t].idx.Some? then
      CallWith(Dropzone.DropIndex(sizes, s.mSize, s.posMid, MidOf(s), HomeMid(s), m[t].idx.value, start))
    else if MidOf(s) > HomeMid(s) then Some(Some(Dropzone.ForwardScan(sizes, s.mSize, MidOf(s), 0, start, 0)))
    else if MidOf(s) < HomeMid(s) && MidOf(s) < HomeMid(s) + s.posMid then Some(None)
    else None
  }

  /** A call with the index found, if any. */
  function CallWith(idx: Option<nat>): Option<Option<nat>>
  {
    if idx.Some? then Some(idx) else None
  }

  /** The item's home midpoint on one axis. */
  function HomeMid(s: AxisState): int
  {
    s.posHome + s.posMid + s.offset
  }

  /**
   * No call when the item sits on its home midpoint (at -1 outside its own
   * container); a call with some slot, at most one past the last element,
   * whenever it is past it; at most its own index when it moved back in its
   * own container; and a `null` index exactly when an item of `cc` without
   * an index moved back by less than `pos_mid`.
   */
  lemma DropzoneIndexBounds(m: map<Elem, Item>, H: HomesMap, boxes: map<Container, Box>, cc: Container, t: Elem)
    requires t in m && Indexed(m, H)
    ensures var r := DropzoneIndex(m, H, boxes, cc, t);
            var s := m[t].At(cc.AB().A);
            var midH := if m[t].container == cc then HomeMid(s) else -1;
            && (r.Some? && r.value.Some? ==> r.value.value <= |Reflow.HomesOf(H, cc)|)
            && (MidOf(s) == midH ==> r.None?)
            && (MidOf(s) > midH ==> r.Some? && r.value.Some?)
            && (MidOf(s) < midH && r.Some? && r.value.Some? && m[t].container == cc ==>
                  m[t].idx.Some? && r.value.value <= m[t].idx.value)
            && (r == Some(None) <==>
                  m[t].container == cc && m[t].idx.None? && MidOf(s) < midH && MidOf(s) < midH + s.posMid)
  {
    var a := cc.AB().A;
    var s := m[t].At(a);
    var sizes := SlotSizes(m, Reflow.HomesOf(H, cc), a, s.mSize);
    var start := Reflow.SpanOf(Reflow.BoxOf(boxes, cc), a).Start();
    if m[t].container != cc {
      Dropzone.DropIndexBounds(sizes, s.mSize, s.posMid, MidOf(s), -1, 0, start);
    } else if m[t].idx.Some? {
      Dropzone.DropIndexBounds(sizes, s.mSize, s.posMid, MidOf(s), HomeMid(s), m[t].idx.value, start);
    } else {
      Dropzone.ForwardScanFacts(sizes, s.mSize, MidOf(s), start);
    }
  }

  /** What `find_dropzone` comes to, as written: it throws when `find_container` finds nothing. */
  datatype Outcome = Throws | Assigns(call: Option<Option<nat>>)

  /** `find_dropzone` as written, given what `find_container` returned: `cc.mv` on `null` throws. */
  function DropzoneAsWritten(found: Option<Container>, m: map<Elem, Item>, H: HomesMap, boxes: map<Container, Box>,
                             t: Elem): (r: Outcome)
    reads if found.Some? then {found.value} else {}
    requires t in m && Indexed(m, H)
    ensures r == Throws <==> found.None?
  {
    if found.None? then Throws else Assigns(DropzoneIndex(m, H, boxes, found.value, t))
  }

  /**
   * When the target's parent has a group and every container of the page is
   * hidden (no `offsetParent`), `find_dropzone` as written throws.
   */
  lemma HiddenContainersThrow(self: Container, cs: seq<Container>, m: map<Elem, Item>, H: HomesMap, P: HostsMap,
                              boxes: map<Container, Box>, parent: Container, t: Elem,
                              hypot: (int, int) -> real, fuel: nat)
    requires t in m && Indexed(m, H) && HypotPositive(hypot)
    requires HasGroup(parent.group) && forall c | c in cs :: !c.visible
    ensures DropzoneAsWritten(FindContainerF(self, cs, m, P, boxes, parent, t, hypot, fuel), m, H, boxes, t) == Throws
  {
    FindContainerFacts(self, cs, m, P, boxes, parent, t, hypot, fuel);
  }
}
