/**
 * `reset()`: the container takes back, in slot order, every registered
 * element the slot now shows (loop one), then gives each element it still
 * lists but no longer shows back to the container its DOM parent is, or
 * drops its index when it has no parent (loop two), and finally replaces its
 * `homes` with the list loop one built.
 *
 * The DOM is an input here: `slotted` is the slot's `assignedNodes()` and
 * `dom` maps an attached element to the container that is its
 * `parentElement`. Both loops are written as functions from their last step,
 * so that `Gather(ts + [t])` is `GatherStep(Gather(ts), t)`.
 */
module Restore {
  import opened Wrappers
  import opened Seqs
  import opened Records
  import opened Registry
  import Reflow

  /**
   * The state both loops thread: the records, every container's `homes`,
   * `mono.dirty` (insertion ordered), the `seen` set and `homes_new`.
   */
  datatype Sweep = Sweep(m: map<Elem, Item>, H: HomesMap, dirty: seq<Container>, seen: set<Elem>, taken: seq<Elem>)

  function HomesOf(H: HomesMap, c: Container): seq<Elem>
  {
    Reflow.HomesOf(H, c)
  }

  /** `splice(old_idx, 1)` with a null index splices at 0, as JavaScript converts null to 0. */
  function IdxOr0(idx: Option<nat>): nat
  {
    if idx.Some? then idx.value else 0
  }

  // ---- loop one: taking back the slotted elements -------------------------

  /** `t`'s record now points at the end of `homes_new`, which gets `t`; its old container is marked dirty. */
  function Enlist(sw: Sweep, self: Container, t: Elem): (r: Sweep)
    requires t in sw.m
    ensures r.m.Keys == sw.m.Keys && r.H == sw.H && r.seen == sw.seen + {t}
    ensures r.taken == sw.taken + [t] && r.m[t].container == self && r.m[t].idx == Some(|sw.taken|)
    ensures forall e | e in sw.m && e != t :: r.m[e] == sw.m[e]
  {
    var it := sw.m[t];
    Sweep(sw.m[t := it.(idx := Some(|sw.taken|), container := self)], sw.H,
          Mark(sw.dirty, it.container), sw.seen + {t}, sw.taken + [t])
  }

  /** `old_container.mv.homes.splice(i, 1)` followed by `old_container.reindex()`. */
  function Vacate(sw: Sweep, c: Container, i: nat): (r: Sweep)
    ensures r.m.Keys == sw.m.Keys && r.seen == sw.seen && r.taken == sw.taken && r.dirty == sw.dirty
    ensures sw.H.Keys + {c} == r.H.Keys
  {
    var h := Splice(HomesOf(sw.H, c), i);
    sw.(H := sw.H[c := h], m := Reindexed(sw.m, h))
  }

  /**
   * One step of loop one over the slotted element `t`. The old container's
   * list loses `t` only when `t` had an index there; an unindexed record is
   * listed nowhere, so nothing is spliced.
   */
  function GatherStep(sw: Sweep, self: Container, t: Elem): (r: Sweep)
    ensures r.m.Keys == sw.m.Keys && r.seen == sw.seen + {t} && sw.H.Keys <= r.H.Keys
    ensures r.taken == if t in sw.seen || t !in sw.m then sw.taken else sw.taken + [t]
  {
    if t in sw.seen then sw
    else if t !in sw.m then sw.(seen := sw.seen + {t})
    else
      var it := sw.m[t];
      var sw1 := Enlist(sw, self, t);
      if it.container == self || it.idx.None? then sw1 else Vacate(sw1, it.container, it.idx.value)
  }

  /** Loop one as written: the old container is spliced at `old_idx` even when that is null. */
  function GatherStepAsWritten(sw: Sweep, self: Container, t: Elem): (r: Sweep)
    ensures r.m.Keys == sw.m.Keys && r.seen == sw.seen + {t} && sw.H.Keys <= r.H.Keys
  {
    if t in sw.seen then sw
    else if t !in sw.m then sw.(seen := sw.seen + {t})
    else
      var it := sw.m[t];
      var sw1 := Enlist(sw, self, t);
      if it.container == self then sw1 else Vacate(sw1, it.container, IdxOr0(it.idx))
  }

  /** Loop one over the assigned nodes `ts`; every one of them ends up seen. */
  function Gather(sw: Sweep, self: Container, ts: seq<Elem>): (r: Sweep)
    ensures r.m.Keys == sw.m.Keys && r.seen == sw.seen + (set t | t in ts) && sw.H.Keys <= r.H.Keys
    decreases |ts|
  {
    if ts == [] then sw
    else
      assert ts == ts[..|ts| - 1] + [ts[|ts| - 1]];
      GatherStep(Gather(sw, self, ts[..|ts| - 1]), self, ts[|ts| - 1])
  }

  function GatherAsWritten(sw: Sweep, self: Container, ts: seq<Elem>): (r: Sweep)
    ensures r.m.Keys == sw.m.Keys && r.seen == sw.seen + (set t | t in ts) && sw.H.Keys <= r.H.Keys
    decreases |ts|
  {
    if ts == [] then sw
    else
      assert ts == ts[..|ts| - 1] + [ts[|ts| - 1]];
      GatherStepAsWritten(GatherAsWritten(sw, self, ts[..|ts| - 1]), self, ts[|ts| - 1])
  }

  // ---- loop two: giving back what the slot no longer shows -----------------

  /**
   * One step of loop two over `u`, an element `self` still lists. Without a
   * DOM parent its record loses the index and its old container's list is
   * spliced at the recorded index; otherwise it is appended to the `homes`
   * of its parent, which is marked dirty.
   */
  function ReturnStep(sw: Sweep, self: Container, dom: map<Elem, Container>, u: Elem): (r: Sweep)
    ensures r.m.Keys == sw.m.Keys && r.seen == sw.seen + {u} && r.taken == sw.taken && sw.H.Keys <= r.H.Keys
    ensures forall e | e in sw.m && e != u :: r.m[e] == sw.m[e]
    ensures u !in sw.seen && u in sw.m && u !in dom ==>
              r.m[u] == sw.m[u].(idx := None) &&
              r.H == sw.H[sw.m[u].container := Splice(HomesOf(sw.H, sw.m[u].container), IdxOr0(sw.m[u].idx))]
    ensures u !in sw.seen && u in sw.m && u in dom ==>
              r.m[u] == sw.m[u].(idx := Some(|HomesOf(sw.H, dom[u])|), container := dom[u]) &&
              r.H == sw.H[dom[u] := HomesOf(sw.H, dom[u]) + [u]]
  {
    if u in sw.seen then sw
    else if u !in sw.m then sw.(seen := sw.seen + {u})
    else
      var it := sw.m[u];
      if u !in dom then
        var oc := it.container;
        sw.(m := sw.m[u := it.(idx := None)], H := sw.H[oc := Splice(HomesOf(sw.H, oc), IdxOr0(it.idx))],
            seen := sw.seen + {u})
      else
        var d := dom[u];
        var h := HomesOf(sw.H, d);
        Sweep(sw.m[u := it.(idx := Some(|h|), container := d)], sw.H[d := h + [u]],
              Mark(sw.dirty, d), sw.seen + {u}, sw.taken)
  }

  /**
   * Loop two over a copy `us` of `self`'s list taken before it starts: each
   * element is handled once, and no record but those of `us` changes.
   */
  function Return(sw: Sweep, self: Container, dom: map<Elem, Container>, us: seq<Elem>): (r: Sweep)
    ensures r.m.Keys == sw.m.Keys && r.seen == sw.seen + (set u | u in us) && r.taken == sw.taken
    ensures sw.H.Keys <= r.H.Keys
    ensures forall e | e in sw.m && e !in us :: r.m[e] == sw.m[e]
    decreases |us|
  {
    if us == [] then sw
    else
      assert us == us[..|us| - 1] + [us[|us| - 1]];
      ReturnStep(Return(sw, self, dom, us[..|us| - 1]), self, dom, us[|us| - 1])
  }

  /**
   * Loop two as written: `for (target of this.mv.homes)` walks the live
   * list from position `i`, which the detached branch splices while the walk
   * is on it. No element whose parent is `self` is left unseen by loop one,
   * so the list never grows under the walk.
   */
  function ReturnAsWritten(sw: Sweep, self: Container, dom: map<Elem, Container>, i: nat): (r: Sweep)
    requires forall t | t in dom && dom[t] == self :: t in sw.seen
    ensures r.m.Keys == sw.m.Keys && sw.H.Keys <= r.H.Keys
    decreases |HomesOf(sw.H, self)| - i
  {
    var live := HomesOf(sw.H, self);
    if i >= |live| then sw
    else
      var sw1 := ReturnStep(sw, self, dom, live[i]);
      assert |HomesOf(sw1.H, self)| <= |live|;
      ReturnAsWritten(sw1, self, dom, i + 1)
  }

  // ---- the whole of reset -------------------------------------------------

  /**
   * `reset()` on `self`, before `items_moved()`: loop one over the slot,
   * loop two over `self`'s list as it was, then `homes_new` becomes `self`'s
   * list.
   */
  function Reset(m: map<Elem, Item>, H: HomesMap, dirty: seq<Container>, self: Container,
                 slotted: seq<Elem>, dom: map<Elem, Container>): Sweep
  {
    var g := Gather(Sweep(m, H, dirty, {}, []), self, slotted);
    var r := Return(g, self, dom, HomesOf(H, self));
    r.(H := r.H[self := r.taken])
  }

  /** `reset()` as written: loop one splices at a null index, loop two walks the live list. */
  function ResetAsWritten(m: map<Elem, Item>, H: HomesMap, dirty: seq<Container>, self: Container,
                          slotted: seq<Elem>, dom: map<Elem, Container>): Sweep
    requires forall t | t in dom && dom[t] == self :: t in slotted
  {
    var g := GatherAsWritten(Sweep(m, H, dirty, {}, []), self, slotted);
    var r := ReturnAsWritten(g, self, dom, 0);
    r.(H := r.H[self := r.taken])
  }

  // ---- what reset keeps ---------------------------------------------------

  /** The records of the elements registered with any container but `self`. */
  function Strip(m: map<Elem, Item>, self: Container): map<Elem, Item>
  {
    map e | e in m && m[e].container != self :: m[e]
  }

  /** The bookkeeping invariant with `self`'s own list set aside while `reset` rebuilds it. */
  ghost predicate OwnedBut(m: map<Elem, Item>, H: HomesMap, self: Container)
  {
    self in H && Closed(m, H) && Owned(Strip(m, self), H[self := []])
  }

  /** `homes_new`: no element twice, each registered with `self` at its own position. */
  ghost predicate TakenOk(m: map<Elem, Item>, taken: seq<Elem>, self: Container)
  {
    && NoDup(taken)
    && forall j | 0 <= j < |taken| :: taken[j] in m && m[taken[j]].container == self && m[taken[j]].idx == Some(j)
  }

  /** Only containers and indices of records change. */
  ghost predicate Relocated(m0: map<Elem, Item>, m: map<Elem, Item>)
  {
    m.Keys == m0.Keys && forall e | e in m :: m[e] == m0[e].(container := m[e].container, idx := m[e].idx)
  }

  /**
   * What the two loops keep about `self`, `orig` being `self`'s list when
   * `reset` began: `homes_new` holds only seen elements, an element of `orig`
   * not yet seen is still registered with `self`, and a record with `self`
   * and an index is either in `homes_new` or such an element.
   */
  ghost predicate Tracks(sw: Sweep, self: Container, orig: seq<Elem>)
  {
    && (forall e | e in sw.taken :: e in sw.seen)
    && (forall e | e in orig && e !in sw.seen :: e in sw.m && sw.m[e].container == self)
    && (forall e | e in sw.m && sw.m[e].container == self && sw.m[e].idx.Some? ::
          e in sw.taken || (e in orig && e !in sw.seen))
  }

  /** `mono.dirty` holds known containers, each once. */
  ghost predicate DirtyOk(sw: Sweep)
  {
    NoDup(sw.dirty) && forall c | c in sw.dirty :: c in sw.H
  }

  /** What holds between any two steps of either loop. */
  ghost predicate SweepOk(sw: Sweep, self: Container, m0: map<Elem, Item>, orig: seq<Elem>)
  {
    && OwnedBut(sw.m, sw.H, self)
    && TakenOk(sw.m, sw.taken, self)
    && Relocated(m0, sw.m)
    && Tracks(sw, self, orig)
    && DirtyOk(sw)
  }

  /** The invariant holds before loop one. */
  lemma SweepStarts(m: map<Elem, Item>, H: HomesMap, dirty: seq<Container>, self: Container)
    requires Owned(m, H) && self in H && NoDup(dirty) && forall c | c in dirty :: c in H
    ensures SweepOk(Sweep(m, H, dirty, {}, []), self, m, H[self])
  {
    var ms, Hs := Strip(m, self), H[self := []];
    forall c, j | c in Hs && 0 <= j < |Hs[c]|
      ensures ListedAt(ms, Hs, c, j)
    {
      OwnedAt(m, H, c, j);
    }
    forall e | e in H[self]
      ensures e in m && m[e].container == self
    {
      HomeIsUnique(m, H, e, self);
    }
  }

  /**
   * Splicing `t` out of the container it came from and reindexing that
   * container keeps the invariant for every container but `self`, and
   * touches no record registered with `self`.
   */
  lemma VacateOk(sw: Sweep, self: Container, t: Elem, k: nat, sw1: Sweep, v: Sweep)
    requires OwnedBut(sw.m, sw.H, self) && t in sw.m
    requires sw.m[t].container != self && sw.m[t].idx == Some(k)
    requires sw1 == Enlist(sw, self, t) && v == Vacate(sw1, sw.m[t].container, k)
    ensures OwnedBut(v.m, v.H, self)
    ensures forall e | e in v.m :: v.m[e].container == sw1.m[e].container
    ensures forall e | e in v.m && sw1.m[e].container == self :: v.m[e] == sw1.m[e]
    ensures Relocated(sw1.m, v.m)
  {
    VacateOwned(sw, self, t, k, sw1, v);
    VacateSpares(sw, self, t, k, sw1, v);
  }

  lemma VacateOwned(sw: Sweep, self: Container, t: Elem, k: nat, sw1: Sweep, v: Sweep)
    requires OwnedBut(sw.m, sw.H, self) && t in sw.m
    requires sw.m[t].container != self && sw.m[t].idx == Some(k)
    requires sw1 == Enlist(sw, self, t) && v == Vacate(sw1, sw.m[t].container, k)
    ensures OwnedBut(v.m, v.H, self)
  {
    var oc := sw.m[t].container;
    var ms, Hs := Strip(sw.m, self), sw.H[self := []];
    assert t in ms;
    assert oc in sw.H;
    assert Hs[oc] == HomesOf(sw.H, oc);
    RemoveAsWritten(ms, Hs, t);
    RemoveOwned(ms, Hs, t);
    var h := Splice(Hs[oc], k);
    assert v.H == sw.H[oc := h];
    UpdateSwap(sw.H, oc, h, self, []);
    StripReindexed(sw.m, self, t, sw1.m[t], h);
    assert v.m == Reindexed(sw.m[t := sw1.m[t]], h);
    assert Owned(Strip(v.m, self), v.H[self := []]);
    ClosedKeep(sw.m, sw.H, v.m, v.H, self);
  }

  lemma VacateSpares(sw: Sweep, self: Container, t: Elem, k: nat, sw1: Sweep, v: Sweep)
    requires OwnedBut(sw.m, sw.H, self) && t in sw.m
    requires sw.m[t].container != self && sw.m[t].idx == Some(k)
    requires sw1 == Enlist(sw, self, t) && v == Vacate(sw1, sw.m[t].container, k)
    ensures forall e | e in v.m :: v.m[e].container == sw1.m[e].container
    ensures forall e | e in v.m && sw1.m[e].container == self :: v.m[e] == sw1.m[e]
    ensures Relocated(sw1.m, v.m)
  {
    var oc := sw.m[t].container;
    var ms, Hs := Strip(sw.m, self), sw.H[self := []];
    assert oc in sw.H && Hs[oc] == HomesOf(sw.H, oc);
    RemoveAsWritten(ms, Hs, t);
    var h := Splice(HomesOf(sw.H, oc), k);
    ReindexedRelocated(sw1.m, h, v.m);
    forall e | e in v.m && sw1.m[e].container == self
      ensures v.m[e] == sw1.m[e]
    {
      if e in h {
        HomeIsUnique(ms, Hs, e, oc);
      }
    }
  }

  /** Records that keep their nested containers and move only to known containers stay closed. */
  lemma ClosedKeep(m: map<Elem, Item>, H: HomesMap, m': map<Elem, Item>, H': HomesMap, self: Container)
    requires Closed(m, H) && H.Keys <= H'.Keys && self in H && m'.Keys == m.Keys
    requires forall e | e in m' :: m'[e].container == m[e].container || m'[e].container in H'
    requires forall e | e in m' :: m'[e].childrenContainers == m[e].childrenContainers
    ensures Closed(m', H')
  {
  }

  /** Setting aside `self`'s records commutes with reindexing, once `t` has moved to `self`. */
  lemma StripReindexed(m: map<Elem, Item>, self: Container, t: Elem, rec: Item, h: seq<Elem>)
    requires rec.container == self
    ensures Strip(Reindexed(m[t := rec], h), self) == Reindexed(Strip(m, self), h) - {t}
  {
    var l, r := Strip(Reindexed(m[t := rec], h), self), Reindexed(Strip(m, self), h) - {t};
    assert l.Keys == r.Keys;
    forall e | e in l ensures l[e] == r[e] {
      assert e != t;
    }
  }

  lemma UpdateSwap(H: HomesMap, c: Container, h: seq<Elem>, d: Container, g: seq<Elem>)
    requires c != d
    ensures H[c := h][d := g] == H[d := g][c := h]
  {
  }

  /** A record that keeps its place, or had none, leaves the lists of the other containers as they were. */
  lemma EnlistOwned(sw: Sweep, self: Container, t: Elem, sw1: Sweep)
    requires OwnedBut(sw.m, sw.H, self) && t in sw.m
    requires sw.m[t].container == self || sw.m[t].idx.None?
    requires sw1 == Enlist(sw, self, t)
    ensures OwnedBut(sw1.m, sw1.H, self)
  {
    var oc := sw.m[t].container;
    var ms, Hs := Strip(sw.m, self), sw.H[self := []];
    StripJoined(sw.m, self, t, sw1.m[t]);
    if oc != self {
      assert t in ms;
      RemoveOwned(ms, Hs, t);
      UnindexedUnlisted(ms, Hs, t);
      assert Hs[oc := Without(Hs[oc], t)] == Hs;
    } else {
      assert ms - {t} == ms;
    }
    ClosedKeep(sw.m, sw.H, sw1.m, sw1.H, self);
  }

  /** A record that joins `self` is set aside with `self`'s. */
  lemma StripJoined(m: map<Elem, Item>, self: Container, t: Elem, rec: Item)
    requires t in m && rec.container == self
    ensures Strip(m[t := rec], self) == Strip(m, self) - {t}
  {
    var a, b := Strip(m[t := rec], self), Strip(m, self) - {t};
    assert a.Keys == b.Keys;
    forall e | e in a ensures a[e] == b[e] {
    }
  }

  lemma ReindexedRelocated(m: map<Elem, Item>, h: seq<Elem>, r: map<Elem, Item>)
    requires r == Reindexed(m, h)
    ensures Relocated(m, r)
  {
  }

  lemma RelocatedTrans(m0: map<Elem, Item>, m1: map<Elem, Item>, m2: map<Elem, Item>)
    requires Relocated(m0, m1) && Relocated(m1, m2)
    ensures Relocated(m0, m2)
  {
  }

  /** Moving a slotted element to the end of `homes_new` keeps all but the bookkeeping of the other containers. */
  lemma EnlistKeeps(sw: Sweep, self: Container, m0: map<Elem, Item>, orig: seq<Elem>, t: Elem, sw1: Sweep)
    requires SweepOk(sw, self, m0, orig) && t in sw.m && t !in sw.seen && sw1 == Enlist(sw, self, t)
    ensures TakenOk(sw1.m, sw1.taken, self) && Relocated(m0, sw1.m) && Tracks(sw1, self, orig) && DirtyOk(sw1)
  {
    EnlistRelocated(sw, self, m0, orig, t, sw1);
    EnlistTaken(sw, self, m0, orig, t, sw1);
    EnlistTracks(sw, self, m0, orig, t, sw1);
  }

  lemma EnlistRelocated(sw: Sweep, self: Container, m0: map<Elem, Item>, orig: seq<Elem>, t: Elem, sw1: Sweep)
    requires Relocated(m0, sw.m) && t in sw.m && sw1 == Enlist(sw, self, t)
    ensures Relocated(m0, sw1.m)
  {
    assert Relocated(sw.m, sw1.m);
    RelocatedTrans(m0, sw.m, sw1.m);
  }

  lemma EnlistTaken(sw: Sweep, self: Container, m0: map<Elem, Item>, orig: seq<Elem>, t: Elem, sw1: Sweep)
    requires SweepOk(sw, self, m0, orig) && t in sw.m && t !in sw.seen && sw1 == Enlist(sw, self, t)
    ensures TakenOk(sw1.m, sw1.taken, self)
  {
    assert t !in sw.taken;
    NoDupSnoc(sw.taken, t);
    forall j | 0 <= j < |sw1.taken|
      ensures sw1.taken[j] in sw1.m && sw1.m[sw1.taken[j]].container == self && sw1.m[sw1.taken[j]].idx == Some(j)
    {
      if j < |sw.taken| {
        assert sw1.taken[j] == sw.taken[j] != t;
      }
    }
  }

  lemma EnlistTracks(sw: Sweep, self: Container, m0: map<Elem, Item>, orig: seq<Elem>, t: Elem, sw1: Sweep)
    requires SweepOk(sw, self, m0, orig) && t in sw.m && t !in sw.seen && sw1 == Enlist(sw, self, t)
    ensures Tracks(sw1, self, orig) && DirtyOk(sw1)
  {
  }

  /** A change that spares every record registered with `self` and moves no record keeps the rest. */
  lemma SparedKeeps(sw1: Sweep, v: Sweep, self: Container, m0: map<Elem, Item>, orig: seq<Elem>)
    requires TakenOk(sw1.m, sw1.taken, self) && Relocated(m0, sw1.m) && Tracks(sw1, self, orig) && DirtyOk(sw1)
    requires v.taken == sw1.taken && v.seen == sw1.seen && v.dirty == sw1.dirty && sw1.H.Keys <= v.H.Keys
    requires Relocated(sw1.m, v.m)
    requires forall e | e in v.m :: v.m[e].container == sw1.m[e].container
    requires forall e | e in v.m && sw1.m[e].container == self :: v.m[e] == sw1.m[e]
    ensures TakenOk(v.m, v.taken, self) && Relocated(m0, v.m) && Tracks(v, self, orig) && DirtyOk(v)
  {
    RelocatedTrans(m0, sw1.m, v.m);
  }

  /** One step of loop one keeps the invariant. */
  lemma GatherStepOk(sw: Sweep, self: Container, m0: map<Elem, Item>, orig: seq<Elem>, t: Elem, r: Sweep)
    requires SweepOk(sw, self, m0, orig) && r == GatherStep(sw, self, t)
    ensures SweepOk(r, self, m0, orig)
  {
    if t !in sw.seen && t in sw.m {
      var it := sw.m[t];
      var sw1 := Enlist(sw, self, t);
      EnlistKeeps(sw, self, m0, orig, t, sw1);
      if it.container == self || it.idx.None? {
        EnlistOwned(sw, self, t, sw1);
      } else {
        VacateOk(sw, self, t, it.idx.value, sw1, r);
        SparedKeeps(sw1, r, self, m0, orig);
      }
    }
  }

  // ---- loop two keeps the invariant ---------------------------------------

  /** Every DOM parent is a known container, and an element whose parent is `self` has been seen. */
  ghost predicate DomOk(dom: map<Elem, Container>, H: HomesMap, self: Container, seen: set<Elem>)
  {
    forall t | t in dom :: dom[t] in H && (dom[t] == self ==> t in seen)
  }

  /** Changing one record, of an element not yet seen, to leave `self` or lose its index keeps what loop two tracks. */
  lemma OneRecordKeeps(sw: Sweep, self: Container, m0: map<Elem, Item>, orig: seq<Elem>, u: Elem, rec: Item, r: Sweep)
    requires TakenOk(sw.m, sw.taken, self) && Relocated(m0, sw.m) && Tracks(sw, self, orig)
    requires u in sw.m && u !in sw.seen && r.seen == sw.seen + {u} && r.taken == sw.taken
    requires r.m == sw.m[u := rec] && rec == sw.m[u].(idx := rec.idx, container := rec.container)
    requires rec.container != self || rec.idx.None?
    ensures TakenOk(r.m, r.taken, self) && Relocated(m0, r.m) && Tracks(r, self, orig)
  {
    assert u !in sw.taken;
  }

  /** A detached element only loses its index; `self`'s own list does not count until it is replaced. */
  lemma DetachOwned(sw: Sweep, self: Container, u: Elem, r: Sweep)
    requires OwnedBut(sw.m, sw.H, self) && DirtyOk(sw) && u in sw.m && sw.m[u].container == self
    requires r.dirty == sw.dirty && r.m == sw.m[u := sw.m[u].(idx := None)]
    requires r.H == sw.H[self := Splice(HomesOf(sw.H, self), IdxOr0(sw.m[u].idx))]
    ensures OwnedBut(r.m, r.H, self) && DirtyOk(r)
  {
    assert Strip(r.m, self) == Strip(sw.m, self);
    assert r.H[self := []] == sw.H[self := []];
    ClosedKeep(sw.m, sw.H, r.m, r.H, self);
  }

  /** An element with a parent joins the end of that container's list, as `add_item` would put it. */
  lemma AttachOwned(sw: Sweep, self: Container, u: Elem, d: Container, r: Sweep)
    requires OwnedBut(sw.m, sw.H, self) && DirtyOk(sw) && u in sw.m && sw.m[u].container == self
    requires d in sw.H && d != self
    requires r.dirty == Mark(sw.dirty, d)
    requires r.m == sw.m[u := sw.m[u].(idx := Some(|sw.H[d]|), container := d)]
    requires r.H == sw.H[d := sw.H[d] + [u]]
    ensures OwnedBut(r.m, r.H, self) && DirtyOk(r)
  {
    var ms, Hs := Strip(sw.m, self), sw.H[self := []];
    var rec := r.m[u];
    assert Strip(r.m, self) == ms[u := rec];
    UpdateSwap(sw.H, d, sw.H[d] + [u], self, []);
    assert Hs[d] == sw.H[d];
    AppendKeeps(ms, Hs, d, u, rec);
    ClosedKeep(sw.m, sw.H, r.m, r.H, self);
  }

  /** One step of loop two keeps the invariant. */
  lemma ReturnStepOk(sw: Sweep, self: Container, m0: map<Elem, Item>, orig: seq<Elem>,
                     dom: map<Elem, Container>, u: Elem, r: Sweep)
    requires SweepOk(sw, self, m0, orig) && u in orig && DomOk(dom, sw.H, self, sw.seen)
    requires r == ReturnStep(sw, self, dom, u)
    ensures SweepOk(r, self, m0, orig)
  {
    if u !in sw.seen && u in sw.m {
      OneRecordKeeps(sw, self, m0, orig, u, r.m[u], r);
      if u !in dom {
        DetachOwned(sw, self, u, r);
      } else {
        AttachOwned(sw, self, u, dom[u], r);
      }
    }
  }

  // ---- the loops and the whole of reset -----------------------------------

  lemma {:induction false} GatherOk(sw: Sweep, self: Container, m0: map<Elem, Item>, orig: seq<Elem>, ts: seq<Elem>)
    requires SweepOk(sw, self, m0, orig)
    ensures SweepOk(Gather(sw, self, ts), self, m0, orig)
    decreases |ts|
  {
    if ts != [] {
      var p := ts[..|ts| - 1];
      GatherOk(sw, self, m0, orig, p);
      GatherStepOk(Gather(sw, self, p), self, m0, orig, ts[|ts| - 1], Gather(sw, self, ts));
    }
  }

  lemma {:induction false} ReturnOk(sw: Sweep, self: Container, m0: map<Elem, Item>, orig: seq<Elem>,
                                    dom: map<Elem, Container>, us: seq<Elem>)
    requires SweepOk(sw, self, m0, orig) && DomOk(dom, sw.H, self, sw.seen)
    requires forall u | u in us :: u in orig
    ensures SweepOk(Return(sw, self, dom, us), self, m0, orig)
    decreases |us|
  {
    if us != [] {
      var p := us[..|us| - 1];
      ReturnOk(sw, self, m0, orig, dom, p);
      var rp := Return(sw, self, dom, p);
      assert DomOk(dom, rp.H, self, rp.seen);
      ReturnStepOk(rp, self, m0, orig, dom, us[|us| - 1], Return(sw, self, dom, us));
    }
  }

  /** Once every element of `orig` is seen, `homes_new` is exactly what `self` must list. */
  lemma Finish(sw: Sweep, self: Container, m0: map<Elem, Item>, orig: seq<Elem>)
    requires SweepOk(sw, self, m0, orig) && forall e | e in orig :: e in sw.seen
    ensures Owned(sw.m, sw.H[self := sw.taken])
  {
    var ms, Hs, H' := Strip(sw.m, self), sw.H[self := []], sw.H[self := sw.taken];
    forall c, j | c in H' && 0 <= j < |H'[c]|
      ensures ListedAt(sw.m, H', c, j)
    {
      if c != self {
        assert ListedAt(ms, Hs, c, j);
      }
    }
    forall e | e in sw.m && sw.m[e].idx.Some?
      ensures sw.m[e].container in H' && sw.m[e].idx.value < |H'[sw.m[e].container]|
      ensures H'[sw.m[e].container][sw.m[e].idx.value] == e
    {
      if sw.m[e].container != self {
        assert e in ms;
      } else {
        var j :| 0 <= j < |sw.taken| && sw.taken[j] == e;
      }
    }
  }

  /**
   * With the registry consistent and every DOM parent a container, `reset`
   * leaves the registry consistent: `self` lists what its slot shows, every
   * other container lists its elements at their indices, and the nesting
   * links are untouched. `mono.dirty` stays a set of known containers.
   */
  lemma ResetKeeps(m: map<Elem, Item>, H: HomesMap, P: HostsMap, dirty: seq<Container>, self: Container,
                   slotted: seq<Elem>, dom: map<Elem, Container>)
    requires Owned(m, H) && Linked(m, P) && self in H
    requires NoDup(dirty) && forall c | c in dirty :: c in H
    requires forall t | t in dom :: dom[t] in H && (dom[t] == self ==> t in slotted)
    ensures var r := Reset(m, H, dirty, self, slotted, dom);
            && Owned(r.m, r.H) && Linked(r.m, P)
            && NoDup(r.dirty) && (forall c | c in r.dirty :: c in r.H)
            && H.Keys <= r.H.Keys && Relocated(m, r.m)
  {
    var orig := H[self];
    var s0 := Sweep(m, H, dirty, {}, []);
    SweepStarts(m, H, dirty, self);
    GatherOk(s0, self, m, orig, slotted);
    var g := Gather(s0, self, slotted);
    assert DomOk(dom, g.H, self, g.seen);
    ReturnOk(g, self, m, orig, dom, orig);
    var r := Return(g, self, dom, orig);
    Finish(r, self, m, orig);
  }

  // ---- what reset computes ------------------------------------------------

  /**
   * Loop one builds `homes_new` from the assigned nodes: each registered
   * one, once, in the order of its first occurrence.
   */
  lemma {:induction false} GatherTakes(sw: Sweep, self: Container, ts: seq<Elem>)
    requires sw.seen == {} && sw.taken == []
    ensures var g := Gather(sw, self, ts);
            && NoDup(g.taken)
            && (forall e | e in g.taken :: e in ts && e in sw.m)
            && (forall e | e in ts && e in sw.m :: e in g.taken)
            && forall i, j | 0 <= i < j < |g.taken| :: FirstIndex(ts, g.taken[i]) < FirstIndex(ts, g.taken[j])
    decreases |ts|
  {
    if ts != [] {
      var p, x := ts[..|ts| - 1], ts[|ts| - 1];
      assert ts == p + [x];
      GatherTakes(sw, self, p);
      FirstIndexSnoc(p, x);
      var gp := Gather(sw, self, p);
      assert x in gp.seen <==> x in p;
      if x !in p && x in sw.m {
        assert x !in gp.taken;
        NoDupSnoc(gp.taken, x);
      }
    }
  }

  /** An element given back: to its parent's container, or left without an index when it has no parent. */
  predicate Returned(m: map<Elem, Item>, dom: map<Elem, Container>, self: Container, e: Elem)
  {
    e in m &&
    if e in dom then m[e].container == dom[e] && m[e].idx.Some?
    else m[e].container == self && m[e].idx.None?
  }

  /** Loop two gives back every element of its copy that loop one did not take. */
  lemma {:induction false} ReturnGives(sw: Sweep, self: Container, dom: map<Elem, Container>, us: seq<Elem>)
    requires forall e | e in us && e !in sw.seen :: e in sw.m && sw.m[e].container == self
    ensures forall e | e in us && e !in sw.seen :: Returned(Return(sw, self, dom, us).m, dom, self, e)
    decreases |us|
  {
    if us != [] {
      var p, x := us[..|us| - 1], us[|us| - 1];
      assert us == p + [x];
      ReturnGives(sw, self, dom, p);
      var rp := Return(sw, self, dom, p);
      assert x in rp.seen <==> x in p || x in sw.seen;
    }
  }

  /** `self` ends up listing the registered assigned nodes, each once, in the order they first appear in the slot. */
  lemma ResetTakes(m: map<Elem, Item>, H: HomesMap, dirty: seq<Container>, self: Container,
                   slotted: seq<Elem>, dom: map<Elem, Container>)
    ensures var r := Reset(m, H, dirty, self, slotted, dom);
            && NoDup(r.H[self])
            && (forall e | e in r.H[self] :: e in slotted && e in m)
            && (forall e | e in slotted && e in m :: e in r.H[self])
            && (forall i, j | 0 <= i < j < |r.H[self]| ::
                  FirstIndex(slotted, r.H[self][i]) < FirstIndex(slotted, r.H[self][j]))
  {
    GatherTakes(Sweep(m, H, dirty, {}, []), self, slotted);
  }

  /**
   * Every element `self` listed that the slot no longer shows is listed by
   * the container that is its DOM parent, or, without a parent, keeps no
   * index and is listed by no container.
   */
  lemma ResetGivesBack(m: map<Elem, Item>, H: HomesMap, dirty: seq<Container>, self: Container,
                       slotted: seq<Elem>, dom: map<Elem, Container>)
    requires Owned(m, H) && self in H
    requires NoDup(dirty) && forall c | c in dirty :: c in H
    requires forall t | t in dom :: dom[t] in H && (dom[t] == self ==> t in slotted)
    ensures var r := Reset(m, H, dirty, self, slotted, dom);
            && (forall e | e in H[self] && e !in slotted && e in dom ::
                  e in r.m && r.m[e].container == dom[e] && e in r.H[dom[e]])
            && (forall e | e in H[self] && e !in slotted && e !in dom ::
                  e in r.m && r.m[e].idx.None? && forall c | c in r.H :: e !in r.H[c])
  {
    var orig := H[self];
    var s0 := Sweep(m, H, dirty, {}, []);
    SweepStarts(m, H, dirty, self);
    GatherOk(s0, self, m, orig, slotted);
    var g := Gather(s0, self, slotted);
    ReturnGives(g, self, dom, orig);
    ResetKeeps(m, H, map[], dirty, self, slotted, dom);
    var r := Reset(m, H, dirty, self, slotted, dom);
    forall e | e in orig && e !in slotted && e in dom
      ensures e in r.m && r.m[e].container == dom[e] && e in r.H[dom[e]]
    {
      assert Returned(r.m, dom, self, e);
      assert r.m[e].idx.value < |r.H[dom[e]]| && r.H[dom[e]][r.m[e].idx.value] == e;
    }
    forall e, c | e in orig && e !in slotted && e !in dom && c in r.H
      ensures e !in r.H[c]
    {
      assert Returned(r.m, dom, self, e);
      if e in r.H[c] {
        HomeIsUnique(r.m, r.H, e, c);
      }
    }
  }

  // ---- the loops as written ----------------------------------------------

  /**
   * Loop two as written skips an element: `self` lists `a` then `b`, the
   * slot shows neither, `a` has no parent and `b` now sits in `d`. Splicing
   * `a` out of the live list moves `b` to position 0 while the walk goes on
   * at position 1, so `b` is never given back: its record still says index
   * 1 of `self`, which lists nothing, and `d` does not list it. (Over a copy
   * of the list `b` joins `d`: `ResetGivesBack`.)
   */
  lemma ReturnSkipsAnElement(m: map<Elem, Item>, H: HomesMap, self: Container, d: Container, a: Elem, b: Elem,
                             dom: map<Elem, Container>)
    requires Owned(m, H) && self != d && self in H && d in H && H[self] == [a, b] && dom == map[b := d]
    ensures var w := ResetAsWritten(m, H, [], self, [], dom);
            && b in m && b in w.m && w.m[b] == m[b] && b !in w.H[self] && b !in w.H[d]
            && !Owned(w.m, w.H)
  {
    var s0 := Sweep(m, H, [], {}, []);
    OwnedAt(m, H, self, 0);
    OwnedAt(m, H, self, 1);
    assert GatherAsWritten(s0, self, []) == s0;
    var w1 := ReturnStep(s0, self, dom, a);
    assert w1.H[self] == [b];
    assert ReturnAsWritten(s0, self, dom, 0) == ReturnAsWritten(w1, self, dom, 1) == w1;
    var w := ResetAsWritten(m, H, [], self, [], dom);
    assert w.H[d] == H[d] by {
      OwnedNoDup(m, H, self);
    }
    if b in H[d] {
      HomeIsUnique(m, H, b, d);
    }
    assert w.m[b].idx == Some(1) && w.m[b].container == self && w.H[self] == [];
  }

  /**
   * Loop one as written splices at a null index: `a` was detached from `s`
   * by an earlier reset (its record keeps `s` with no index) and now sits in
   * `x`, while `s` lists `b`. When `x` resets, `splice(null, 1)` drops `b`
   * from `s`, whose record still says index 0 of `s`. (Splicing only when
   * there is an index keeps the registry consistent: `ResetKeeps`.)
   */
  lemma GatherSplicesNull(m: map<Elem, Item>, H: HomesMap, x: Container, s: Container, a: Elem, b: Elem,
                          slotted: seq<Elem>, dom: map<Elem, Container>)
    requires Owned(m, H) && x != s && x in H && s in H && H[x] == [] && H[s] == [b]
    requires a in m && m[a].container == s && m[a].idx.None?
    requires slotted == [a] && dom == map[a := x]
    ensures var w := ResetAsWritten(m, H, [], x, slotted, dom);
            && b in m && b in w.m && w.m[b] == m[b] && w.H[s] == [] && !Owned(w.m, w.H)
  {
    var s0 := Sweep(m, H, [], {}, []);
    OwnedAt(m, H, s, 0);
    UnindexedUnlisted(m, H, a);
    assert [a][..0] == [];
    var g := GatherStepAsWritten(s0, x, a);
    assert GatherAsWritten(s0, x, [a]) == g;
    assert g.H[s] == [] && g.m[b] == m[b];
    assert ReturnAsWritten(g, x, dom, 0) == g;
  }
}
