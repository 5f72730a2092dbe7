module Engine {
  import opened Wrappers
  import opened Seqs
  import opened Axes
  import opened Geometry
  import opened Records
  import opened Scheduler
  import opened Transitions
  import opened Registry
  import opened Reflow
  import opened Render
  import Restore
  import Pick
  import Parents
  import Dropzone

  /**
   * The state every `<mv-sorter>` shares (`MvSorter._monostate`) and the
   * instance methods that change it. Each per-container field the source
   * keeps in `this.mv` (`homes`, `parent_target`, the measured box) is a map
   * keyed by the container here; an instance method takes the container it
   * runs on as `self`. Every method is proved against the value-level
   * definition of the same operation in the other modules, where its
   * properties are proved.
   */
  class Monostate {
    /** `mono.containers`, in insertion order (the order its iteration visits them in). */
    var order: seq<Container>
    /** `mono.items`. */
    var items: map<Elem, Item>
    /** Every container's `mv.homes`. */
    var homes: HomesMap
    /** Every container's `mv.parent_target`. */
    var hosts: HostsMap
    /** Every container's measured box (`mv.X`, `mv.Y`). */
    var boxes: map<Container, Box>
    /** `mono.dirty`, an insertion-ordered set. */
    var dirty: seq<Container>
    /** `render_jobs` holds `items_moved`. */
    var renderPending: bool
    /** A debounced `items_moved` is waiting. */
    var debouncePending: bool
    /** `mono.animQueue`. */
    var animQueue: set<Elem>
    /** `mono.animLoop` is defined. */
    var animating: bool
    /** `mono.last_grabbed`. */
    var lastGrabbed: Option<Elem>

    /** The first container's constructor: the shared state starts empty. */
    constructor ()
      ensures order == [] && items == map[] && homes == map[] && hosts == map[] && boxes == map[]
      ensures dirty == [] && animQueue == {} && !animating
      ensures !renderPending && !debouncePending && lastGrabbed == None
      ensures Valid()
    {
      order, items, homes, hosts, boxes := [], map[], map[], map[], map[];
      dirty, animQueue, animating := [], {}, false;
      renderPending, debouncePending, lastGrabbed := false, false, None;
    }

    /** The scheduler part of the state. */
    ghost function Sched(): Anim
      reads this`items, this`animQueue, this`animating
    {
      Anim(items, animQueue, animating)
    }

    /**
     * The invariant: every container is known once, the records and the
     * `homes` lists agree, nested containers are linked to their hosts, the
     * scheduler queue is in step with the records, and `mono.dirty` holds
     * known containers once each.
     */
    ghost predicate Valid()
      reads this`order, this`items, this`homes, this`hosts, this`dirty, this`animQueue, this`animating
    {
      Sound(order, Sched(), homes, hosts, dirty)
    }

    // ---- containers and registry bookkeeping ------------------------------

    /** A container's constructor: it joins `mono.containers` with empty `homes` and no host. */
    method AddContainer(c: Container)
      requires Valid() && c !in homes
      modifies this`order, this`homes, this`hosts
      ensures order == old(order) + [c] && homes == old(homes)[c := []] && hosts == old(hosts)[c := None]
      ensures Valid()
    {
      NewContainerKeeps(items, homes, hosts, c);
      order := order + [c];
      homes := homes[c := []];
      hosts := hosts[c := None];
      assert forall d | d in order :: d in old(order) || d == c;
      NoDupSnoc(old(order), c);
    }

    /**
     * `add_item(t)` on `self`: nothing for a non-element, the zone marker, an
     * element without `offsetParent` (`rect` is `None`) or one already
     * registered. Otherwise `t` is appended to `self`'s `homes` with a fresh
     * record at that index, measured by `rect` and, when an element was
     * listed before it, resting right after that element's place.
     */
    method AddItem(self: Container, t: Elem, isElement: bool, isZone: bool, rect: Option<Rect>)
      requires Valid() && self in homes
      modifies this`items, this`homes
      ensures Valid()
      ensures !isElement || isZone || rect.None? || t in old(items) ==> items == old(items) && homes == old(homes)
      ensures isElement && !isZone && rect.Some? && t !in old(items) ==>
                homes == old(homes)[self := old(homes)[self] + [t]] &&
                items == old(items)[t := AddedItem(self, |old(homes)[self]|, rect.value,
                                                   LastRecord(old(items), old(homes)[self]), self.AB())]
    {
      if !isElement || isZone || rect.None? || t in items {
        return;
      }
      var idx := |homes[self]|;
      var last := LastRecord(items, homes[self]);
      var rec := AddedItem(self, idx, rect.value, last, self.AB());
      AddKeeps(items, homes, hosts, self, t, rec);
      homes := homes[self := homes[self] + [t]];
      items := items[t := rec];
    }

    /**
     * `reindex`: every registered element listed in `homes[c]` gets its
     * position as index; the number of positions is returned.
     */
    method Reindex(c: Container) returns (length: nat)
      requires c in homes
      modifies this`items
      ensures length == |homes[c]|
      ensures items == Reindexed(old(items), homes[c])
    {
      var hs := homes[c];
      length := |hs|;
      var idx := 0;
      while idx < length
        invariant 0 <= idx <= length
        invariant items == Reindexed(old(items), hs[..idx])
      {
        ReindexedSnoc(old(items), hs[..idx], hs[idx]);
        assert hs[..idx + 1] == hs[..idx] + [hs[idx]];
        var target := hs[idx];
        if target in items {
          items := items[target := items[target].(idx := Some(idx))];
        }
        idx := idx + 1;
      }
      assert hs[..idx] == hs;
    }

    /** Every container of `ccs` loses its host (`child_cont.mv.parent_target = null`). */
    method ClearParents(ccs: set<Container>)
      modifies this`hosts
      ensures hosts == RemovedHosts(old(hosts), ccs)
    {
      var rest := ccs;
      while rest != {}
        invariant rest <= ccs
        invariant hosts == RemovedHosts(old(hosts), ccs - rest)
        decreases rest
      {
        var d :| d in rest;
        if d in hosts {
          RemovedHostsAdd(old(hosts), ccs - rest, d);
          hosts := hosts[d := None];
        } else {
          RemovedHostsSkip(old(hosts), ccs - rest, d);
        }
        assert ccs - (rest - {d}) == (ccs - rest) + {d};
        rest := rest - {d};
      }
      assert ccs - rest == ccs;
    }

    /** `container.mv.homes.splice(i, 1)` followed by `container.reindex()`. */
    method Unhome(container: Container, i: nat)
      modifies this`homes, this`items
      ensures homes == old(homes)[container := Splice(Restore.HomesOf(old(homes), container), i)]
      ensures items == Reindexed(old(items), homes[container])
    {
      homes := homes[container := Splice(Restore.HomesOf(homes, container), i)];
      var _ := Reindex(container);
    }

    /**
     * `remove_item`: forget a registered element. Its container is marked
     * dirty; when it had an index it is spliced out of that container's
     * `homes` and the container is reindexed; every container nested in it
     * loses its host; the record is deleted and a debounced `items_moved`
     * is requested. An unregistered node changes nothing.
     */
    method RemoveItem(node: Elem)
      requires Valid()
      modifies this`items, this`homes, this`hosts, this`dirty, this`debouncePending
      ensures Valid()
      ensures node !in old(items) ==>
                items == old(items) && homes == old(homes) && hosts == old(hosts) &&
                dirty == old(dirty) && debouncePending == old(debouncePending)
      ensures node in old(items) ==>
                var c := old(items)[node].container;
                && items == RemovedRecords(old(items), old(homes), node)
                && homes == old(homes)[c := Without(old(homes)[c], node)]
                && hosts == RemovedHosts(old(hosts), old(items)[node].childrenContainers)
                && dirty == Mark(old(dirty), c) && debouncePending
    {
      if node !in items {
        return;
      }
      Removal(order, items, homes, hosts, dirty, animQueue, animating, node);
      Detach(node);
    }

    /** `remove_item` past its guard, step by step as the source takes it. */
    method Detach(node: Elem)
      requires node in items
      modifies this`items, this`homes, this`hosts, this`dirty, this`debouncePending
      ensures var it := old(items)[node];
              var c := it.container;
              var H2 := if it.idx.Some? then old(homes)[c := Splice(Restore.HomesOf(old(homes), c), it.idx.value)] else old(homes);
              && homes == H2
              && items == (if it.idx.Some? then Reindexed(old(items), H2[c]) else old(items))[node := it.(childrenContainers := {})] - {node}
              && hosts == RemovedHosts(old(hosts), it.childrenContainers)
              && dirty == Mark(old(dirty), c) && debouncePending
    {
      var item := items[node];
      var container := item.container;
      dirty := Mark(dirty, container);
      if item.idx.Some? {
        Unhome(container, item.idx.value);
      }
      ClearParents(item.childrenContainers);
      items := items[node := item.(childrenContainers := {})];
      items := items - {node};
      debouncePending := true;
    }

    // ---- the frame scheduler ----------------------------------------------

    /**
     * `addAnim`: install `step` in slot `s` of `t` (replacing whatever the
     * slot held), queue `t`, and start the loop when it is idle; starting it
     * runs its first frame at once.
     */
    method AddAnim(s: Slot, step: Step, t: Elem, keep: (Elem, Slot) -> bool)
      requires t in items && (s.Pos? && items[t].grabbed ==> step == PosDrag(s.axis))
      modifies this`items, this`animQueue, this`animating
      ensures Sched() == AddAnimF(old(Sched()), t, s, step, keep)
      ensures items[t].grabbed == old(items)[t].grabbed
      ensures old(Valid()) ==> Valid()
    {
      AddAnimValid(Sched(), order, homes, hosts, dirty, t, s, step, keep);
      Schedule(s, step, t, keep);
    }

    /** The steps of `addAnim`: install, queue, and start the loop when it is idle. */
    method Schedule(s: Slot, step: Step, t: Elem, keep: (Elem, Slot) -> bool)
      requires t in items
      modifies this`items, this`animQueue, this`animating
      ensures Sched() == AddAnimF(old(Sched()), t, s, step, keep)
    {
      items := Install(items, t, s, step);
      animQueue := animQueue + {t};
      if !animating {
        animating := true;
        Tick(keep);
      }
    }

    /**
     * One frame of `animLoop`: every queued element runs its steps once;
     * slots whose step returned false are deleted, unregistered elements and
     * elements left without slots leave the queue; the loop stops exactly
     * when the queue is empty.
     */
    method Tick(keep: (Elem, Slot) -> bool)
      requires animating
      modifies this`items, this`animQueue, this`animating
      ensures Sched() == Frame(old(Sched()), keep)
      ensures old(Valid()) ==> Valid()
    {
      if Valid() {
        FrameValid(Sched(), order, homes, hosts, dirty, keep);
      }
      RunFrame(keep);
    }

    /** The steps of one frame: the loop over the queue, then `stopAnim` when it is left empty. */
    method RunFrame(keep: (Elem, Slot) -> bool)
      requires animating
      modifies this`items, this`animQueue, this`animating
      ensures Sched() == Frame(old(Sched()), keep)
    {
      var pending := animQueue;
      ghost var done: set<Elem> := {};
      while pending != {}
        invariant pending <= old(animQueue) && done == old(animQueue) - pending
        invariant items == TickItems(old(items), done, keep)
        invariant animQueue == TickQueue(old(items), done, keep) + pending
        invariant animating
        decreases pending
      {
        var t :| t in pending;
        TickAdvance(old(items), done, pending, t, keep);
        TickElement(t, keep);
        pending := pending - {t};
        done := done + {t};
      }
      assert done == old(animQueue);
      if animQueue == {} {
        StopAnim();
      }
    }

    /** The body of the frame for one queued element. */
    method TickElement(t: Elem, keep: (Elem, Slot) -> bool)
      modifies this`items, this`animQueue
      ensures t in old(items) ==> items == old(items)[t := old(items)[t].(slots := TickSlots(t, old(items)[t], keep))]
      ensures t !in old(items) ==> items == old(items)
      ensures animQueue == if t in old(items) && TickSlots(t, old(items)[t], keep) != map[]
                           then old(animQueue) else old(animQueue) - {t}
    {
      if t !in items {
        animQueue := animQueue - {t};
      } else {
        var kept := RunSlots(t, items[t], keep);
        items := items[t := items[t].(slots := kept)];
        if kept == map[] {
          animQueue := animQueue - {t};
        }
      }
    }

    /** `stopAnim`: the loop is no longer defined. */
    method StopAnim()
      modifies this`animating
      ensures !animating
    {
      animating := false;
    }
    // ---- grab and release --------------------------------------------------

    /**
     * `item_drag_start(t)` on `self`: nothing for an untracked or already
     * grabbed element or a disabled container; otherwise the record is
     * grabbed and re-measured (`rect`), `t` becomes `mono.last_grabbed`,
     * the hover scale-up is installed and every axis `self` allows is
     * poised and dragged.
     */
    method DragStart(self: Container, t: Elem, handle: Option<Elem>, rect: Option<Rect>, keep: (Elem, Slot) -> bool)
      requires Valid() && self.Valid()
      modifies this`items, this`animQueue, this`animating, this`lastGrabbed
      ensures Valid()
      ensures t !in old(items) || old(items)[t].grabbed || self.disabled ==>
                Sched() == old(Sched()) && lastGrabbed == old(lastGrabbed)
      ensures t in old(items) && !old(items)[t].grabbed && !self.disabled ==>
                Sched() == DragStartF(old(Sched()), t, handle, rect, self.axes, keep) && lastGrabbed == Some(t)
    {
      if t !in items || items[t].grabbed || self.disabled {
        return;
      }
      lastGrabbed := Some(t);
      Grab(t, handle, rect, self.axes, keep);
    }

    /** `item_drag_start` past its guards, on a consistent state and at least one axis. */
    method Grab(t: Elem, handle: Option<Elem>, rect: Option<Rect>, axes: seq<Axis>, keep: (Elem, Slot) -> bool)
      requires t in items && Valid() && axes != []
      modifies this`items, this`animQueue, this`animating
      ensures Sched() == DragStartF(old(Sched()), t, handle, rect, axes, keep)
      ensures Valid()
    {
      DragStartValid(Sched(), DragStartF(Sched(), t, handle, rect, axes, keep), order, homes, hosts, dirty,
                     t, handle, rect, axes, keep);
      TakeHold(t, handle, rect, axes, keep);
    }

    /** The steps of `item_drag_start` past its guards: grabbed, scaled up, and every axis poised. */
    method TakeHold(t: Elem, handle: Option<Elem>, rect: Option<Rect>, axes: seq<Axis>, keep: (Elem, Slot) -> bool)
      requires t in items
      modifies this`items, this`animQueue, this`animating
      ensures Sched() == DragStartF(old(Sched()), t, handle, rect, axes, keep)
    {
      ghost var st0 := Sched();
      items := items[t := Grabbed(items[t], t, handle, rect)];
      ghost var st1 := Sched();
      assert st1 == st0.(items := st0.items[t := Grabbed(st0.items[t], t, handle, rect)]);
      AddAnim(Scale, ScaleTo(ScaleMillis), t, keep);
      ghost var st2 := Sched();
      assert st2 == AddAnimF(st1, t, Scale, ScaleTo(ScaleMillis), keep);
      PoiseAxes(t, axes, keep);
    }

    /** The loop over `mv.axes` in `item_drag_start`. */
    method PoiseAxes(t: Elem, axes: seq<Axis>, keep: (Elem, Slot) -> bool)
      requires t in items
      modifies this`items, this`animQueue, this`animating
      ensures Sched() == DragAxes(old(Sched()), t, axes, keep)
    {
      var i := 0;
      while i < |axes|
        invariant 0 <= i <= |axes| && t in items
        invariant DragAxes(old(Sched()), t, axes, keep) == DragAxes(Sched(), t, axes[i..], keep)
      {
        PoiseOne(t, axes[i..], keep);
        assert axes[i..][1..] == axes[i + 1..];
        i := i + 1;
      }
    }

    /** One turn of the loop over `mv.axes` in `item_drag_start`, over the rest `axes`. */
    method PoiseOne(t: Elem, axes: seq<Axis>, keep: (Elem, Slot) -> bool)
      requires t in items && axes != []
      modifies this`items, this`animQueue, this`animating
      ensures t in items
      ensures DragAxes(old(Sched()), t, axes, keep) == DragAxes(Sched(), t, axes[1..], keep)
    {
      var a := axes[0];
      var it := items[t];
      items := items[t := it.With(a, Poised(it.At(a)))];
      AddAnim(Pos(a), PosDrag(a), t, keep);
    }

    /**
     * `item_drag_end(t)`: nothing unless `t` is grabbed; otherwise it is
     * thrown and no longer grabbed, and every axis of `self` heads for its
     * resting place with a fall step and a rotation recovery on the other axis.
     */
    method DragEnd(self: Container, t: Elem, keep: (Elem, Slot) -> bool)
      requires Valid()
      modifies this`items, this`animQueue, this`animating
      ensures Valid()
      ensures t !in old(items) || !old(items)[t].grabbed ==> Sched() == old(Sched())
      ensures t in old(items) && old(items)[t].grabbed ==>
                Sched() == DragEndF(old(Sched()), t, self.axes, keep) && !items[t].grabbed && items[t].throwed
    {
      if t !in items || !items[t].grabbed {
        return;
      }
      var axes := self.axes;
      ghost var st0 := Sched();
      Release(t, axes, keep);
      DragEndValid(st0, Sched(), order, homes, hosts, dirty, t, axes, keep);
    }

    /** `item_drag_end` past its guard. */
    method Release(t: Elem, axes: seq<Axis>, keep: (Elem, Slot) -> bool)
      requires t in items
      modifies this`items, this`animQueue, this`animating
      ensures Sched() == DragEndF(old(Sched()), t, axes, keep)
    {
      items := items[t := items[t].(throwed := true, grabbed := false)];
      ReleaseAxes(t, axes, keep);
    }

    /** The loop over `mv.axes` in `item_drag_end`. */
    method ReleaseAxes(t: Elem, axes: seq<Axis>, keep: (Elem, Slot) -> bool)
      requires t in items && !items[t].grabbed
      modifies this`items, this`animQueue, this`animating
      ensures Sched() == DropAxes(old(Sched()), t, axes, keep)
    {
      var i := 0;
      while i < |axes|
        invariant 0 <= i <= |axes| && t in items && !items[t].grabbed
        invariant DropAxes(old(Sched()), t, axes, keep) == DropAxes(Sched(), t, axes[i..], keep)
      {
        ReleaseOne(t, axes[i..], keep);
        assert axes[i..][1..] == axes[i + 1..];
        i := i + 1;
      }
    }

    /** One turn of the loop over `mv.axes` in `item_drag_end`, over the rest `axes`. */
    method ReleaseOne(t: Elem, axes: seq<Axis>, keep: (Elem, Slot) -> bool)
      requires t in items && !items[t].grabbed && axes != []
      modifies this`items, this`animQueue, this`animating
      ensures t in items && !items[t].grabbed
      ensures DropAxes(old(Sched()), t, axes, keep) == DropAxes(Sched(), t, axes[1..], keep)
    {
      var a := axes[0];
      var it := items[t];
      items := items[t := it.With(a, Homing(it.At(a)))];
      AddAnim(Pos(a), PosFall(a), t, keep);
      AddAnim(Rotate(AxisB(a)), RotateRecover(AxisB(a)), t, keep);
    }

    // ---- placement ---------------------------------------------------------

    /** One axis of a placed element that is not grabbed: `pos_end` takes `pos_home`, with a fall step when it moved. */
    method SettleAxis(e: Elem, a: Axis, keep: (Elem, Slot) -> bool)
      requires e in items && !items[e].grabbed
      modifies this`items, this`animQueue, this`animating
      ensures e in items && !items[e].grabbed
      ensures Sched() == Settle(old(Sched()), e, a, keep)
    {
      var it := items[e];
      var s := it.At(a);
      if s.posEnd != s.posHome {
        items := items[e := it.With(a, Homing(s))];
        AddAnim(Pos(a), PosFall(a), e, keep);
      } else {
        assert it.With(a, Homing(s)) == it;
        assert items[e := it] == items;
      }
    }

    /** The body of `assign_dropzone`'s inner loop for an element other than the dragged one. */
    method PlaceElem(e: Elem, ab: AxisPair, idx: nat, oA: int, oB: int, ghost placed: seq<Elem>,
                     keep: (Elem, Slot) -> bool) returns (oA': int)
      requires e in items
      modifies this`items, this`animQueue, this`animating
      ensures Cursor(Sched(), idx + 1, oA', placed + [e]) == Place(Cursor(old(Sched()), idx, oA, placed), e, ab, oB, keep)
    {
      var it := items[e];
      var seated := Seat(it.(idx := Some(idx)), ab, oA, oB);
      items := items[e := seated];
      if !seated.grabbed {
        SettleAxis(e, Axes.X, keep);
        SettleAxis(e, Axes.Y, keep);
      }
      oA' := oA + it.At(ab.A).Extent();
    }

    /** `setZone`: the dragged element takes the running index in container `c`. */
    method SetZone(t: Elem, c: Container, ab: AxisPair, idx: nat, oA: int, oB: int, ghost placed: seq<Elem>)
      returns (oA': int)
      requires t in items
      modifies this`items
      ensures Cursor(Sched(), idx + 1, oA', placed + [t]) == ZoneIn(Cursor(old(Sched()), idx, oA, placed), t, c, ab, oB)
    {
      var it := items[t];
      items := items[t := Seat(it.(idx := Some(idx), container := c), ab, oA, oB)];
      oA' := oA + it.At(ab.A).Extent();
    }

    /** One visible container of `assign_dropzone`: the inner loop over its `homes`, then `setZone` at the end if due. */
    method LayOutIn(h: seq<Elem>, c: Container, ab: AxisPair, box: Box, d: Drop, keep: (Elem, Slot) -> bool)
      returns (homesNew: seq<Elem>)
      requires d.t in items && forall e | e in h :: e in items
      modifies this`items, this`animQueue, this`animating
      ensures var cur := LayOut(old(Sched()), h, d, c, ab, box, keep);
              Sched() == cur.st && homesNew == cur.placed
    {
      var oB := SpanOf(box, ab.B).Start();
      ghost var laid := LayFrom(h, Sched(), d, c, ab, box, keep);
      var idx, oA, placed := LayIn(h, d, c, ab, SpanOf(box, ab.A).Start(), oB, keep, laid);
      homesNew := FinishIn(d, c, ab, idx, oA, oB, placed, Finish(laid, d, c, ab, oB));
    }

    /** After the inner loop: `setZone` for the dragged element when the index asked for was not reached. */
    method FinishIn(d: Drop, c: Container, ab: AxisPair, idx: nat, oA: int, oB: int, placed: seq<Elem>,
                    ghost r: Cursor) returns (homesNew: seq<Elem>)
      requires d.t in items && r == Finish(Cursor(Sched(), idx, oA, placed), d, c, ab, oB)
      modifies this`items
      ensures Sched() == r.st && homesNew == r.placed
    {
      homesNew := placed;
      if d.Into(c) && d.zoneIdx >= |placed| {
        var _ := SetZone(d.t, c, ab, idx, oA, oB, placed);
        homesNew := placed + [d.t];
      }
    }

    /** The inner loop of `assign_dropzone` over the old `homes` `h` of container `c`. */
    method LayIn(h: seq<Elem>, d: Drop, c: Container, ab: AxisPair, oA0: int, oB: int, keep: (Elem, Slot) -> bool,
                 ghost laid: Cursor) returns (idx: nat, oA: int, homesNew: seq<Elem>)
      requires d.t in items && forall e | e in h :: e in items
      requires laid == Lay(h, Cursor(Sched(), 0, oA0, []), d, c, ab, oB, keep)
      modifies this`items, this`animQueue, this`animating
      ensures Cursor(Sched(), idx, oA, homesNew) == laid
    {
      idx, oA, homesNew := 0, oA0, [];
      var i := 0;
      while i < |h|
        invariant 0 <= i <= |h| && d.t in items && items.Keys == old(items).Keys
        invariant laid == Lay(h[i..], Cursor(Sched(), idx, oA, homesNew), d, c, ab, oB, keep)
      {
        assert h[i..][1..] == h[i + 1..];
        idx, oA, homesNew := Turn(h[i..], d, c, ab, idx, oA, oB, homesNew, keep);
        i := i + 1;
      }
    }

    /** One turn of the inner loop: `setZone` when the running index is the one asked for, then the element unless it is the dragged one. */
    method Turn(h: seq<Elem>, d: Drop, c: Container, ab: AxisPair, idx: nat, oA: int, oB: int, placed: seq<Elem>,
                keep: (Elem, Slot) -> bool) returns (idx': nat, oA': int, placed': seq<Elem>)
      requires h != [] && d.t in items && forall e | e in h :: e in items
      modifies this`items, this`animQueue, this`animating
      ensures items.Keys == old(items).Keys
      ensures Lay(h, Cursor(old(Sched()), idx, oA, placed), d, c, ab, oB, keep)
              == Lay(h[1..], Cursor(Sched(), idx', oA', placed'), d, c, ab, oB, keep)
    {
      ghost var cur := Cursor(Sched(), idx, oA, placed);
      idx', oA', placed' := idx, oA, placed;
      if d.Into(c) && d.zoneIdx == idx {
        oA' := SetZone(d.t, c, ab, idx, oA, oB, placed);
        idx', placed' := idx + 1, placed + [d.t];
      }
      ghost var cur1 := Cursor(Sched(), idx', oA', placed');
      var e := h[0];
      if e != d.t {
        assert e in h;
        oA' := PlaceElem(e, ab, idx', oA', oB, placed', keep);
        idx', placed' := idx' + 1, placed' + [e];
      }
      LayTurn(h, cur, cur1, Cursor(Sched(), idx', oA', placed'), d, c, ab, oB, keep);
    }

    /**
     * `assign_dropzone(t, idxIn)` on `self`, `idxIn` being None for `null`:
     * every visible container, in the order of `mono.containers`, rebuilds
     * its `homes`, seating the dragged element in `self` at the index asked
     * for (see `DropOf` for `null`). The invariant is kept whenever the
     * dragged element is moved consistently (`Movable`), as the call from
     * `item_moved`, which seats a listed element back in its own container,
     * always does.
     */
    method AssignDropzone(self: Container, t: Elem, idxIn: Option<nat>, keep: (Elem, Slot) -> bool)
      requires t in items && Registered(items, homes)
      modifies this`items, this`animQueue, this`animating, this`homes
      ensures (Sched(), homes) == ReflowF(old(Sched()), old(homes), order, DropOf(old(homes), t, self, idxIn), boxes, keep)
      ensures old(Valid() && Movable(Sched(), homes, order, DropOf(homes, t, self, idxIn))) ==> Valid()
    {
      var d := DropOf(homes, t, self, idxIn);
      if Valid() && Movable(Sched(), homes, order, d) {
        ReflowValid(Sched(), order, homes, hosts, dirty, d, boxes, keep);
      }
      ReflowAll(d, keep);
    }

    /** The outer loop of `assign_dropzone` over `mono.containers`, for the drop `d`. */
    method ReflowAll(d: Drop, keep: (Elem, Slot) -> bool)
      requires d.t in items && Registered(items, homes)
      modifies this`items, this`animQueue, this`animating, this`homes
      ensures (Sched(), homes) == ReflowF(old(Sched()), old(homes), order, d, boxes, keep)
    {
      var cs := order;
      var k := 0;
      while k < |cs|
        invariant 0 <= k <= |cs| && d.t in items && Registered(items, homes)
        invariant ReflowF(old(Sched()), old(homes), cs, d, boxes, keep) == ReflowF(Sched(), homes, cs[k..], d, boxes, keep)
      {
        ReflowIn(cs[k..], d, keep);
        assert cs[k..][1..] == cs[k + 1..];
        k := k + 1;
      }
    }

    /** One turn of `assign_dropzone`'s outer loop: a hidden container is skipped, a visible one laid out. */
    method ReflowIn(cs: seq<Container>, d: Drop, keep: (Elem, Slot) -> bool)
      requires cs != [] && d.t in items && Registered(items, homes)
      modifies this`items, this`animQueue, this`animating, this`homes
      ensures d.t in items && Registered(items, homes)
      ensures ReflowF(old(Sched()), old(homes), cs, d, boxes, keep) == ReflowF(Sched(), homes, cs[1..], d, boxes, keep)
    {
      var c := cs[0];
      ghost var st0, h0 := Sched(), homes;
      if c.visible {
        var homesNew := LayOutIn(HomesOf(homes, c), c, c.AB(), BoxOf(boxes, c), d, keep);
        homes := homes[c := homesNew];
      }
      ReflowTurn(st0, h0, cs, d, boxes, keep, Sched(), homes);
    }

    /**
     * `self.find_dropzone(t)`, `parent` being `t`'s DOM parent: the container
     * `find_container` picks, the slot the item's midpoint has reached in it
     * (walking back from the item's own index when it moved back from its home
     * midpoint, forward from the container start otherwise), and
     * `assign_dropzone` there, corrected as `Reseat` says. Where
     * `find_container` finds nothing the source throws
     * (`Pick.DropzoneAsWritten`); here the call changes nothing. Run on the
     * dragged element's own container, as every caller does, it keeps the
     * invariant.
     */
    method FindDropzone(self: Container, t: Elem, parent: Container, hypot: (int, int) -> real, fuel: nat,
                        keep: (Elem, Slot) -> bool) returns (cc: Option<Container>, call: Option<Option<nat>>)
      requires Valid() && t in items && Registered(items, homes) && HypotPositive(hypot)
      modifies this`items, this`animQueue, this`animating, this`homes
      ensures cc == old(Pick.FindContainerF(self, order, items, hosts, boxes, parent, t, hypot, fuel))
      ensures call == old(if cc.Some? then Pick.DropzoneIndex(items, homes, boxes, cc.value, t) else None)
      ensures call.None? ==> unchanged(this)
      ensures call.Some? ==>
                (Sched(), homes) == old(ReflowFixed(Sched(), homes, order, DropOf(homes, t, cc.value, call.value), boxes, keep))
      ensures self == old(items)[t].container ==> Valid()
    {
      if self == items[t].container {
        OwnDrop(self, order, items, homes, hosts, boxes, parent, t, hypot, fuel);
      }
      cc, call := Locate(self, t, parent, hypot, fuel);
      if call.Some? {
        Reseat(DropOf(homes, t, cc.value, call.value), keep);
      }
    }

    /** The search part of `find_dropzone`: the container `find_container` picks and the slot reached in it. */
    method Locate(self: Container, t: Elem, parent: Container, hypot: (int, int) -> real, fuel: nat)
      returns (cc: Option<Container>, call: Option<Option<nat>>)
      requires t in items && Indexed(items, homes) && HypotPositive(hypot)
      ensures cc == old(Pick.FindContainerF(self, order, items, hosts, boxes, parent, t, hypot, fuel))
      ensures call == old(if cc.Some? then Pick.DropzoneIndex(items, homes, boxes, cc.value, t) else None)
    {
      cc := Pick.FindContainer(self, order, items, hosts, boxes, parent, t, hypot, fuel);
      if cc.None? {
        return cc, None;
      }
      call := SlotReached(cc.value, t);
    }

    /**
     * The `assign_dropzone` call of `find_dropzone`, corrected: a listed
     * dragged element whose container is hidden, and so is not rebuilt,
     * first leaves that container's `homes` when it is seated in a laid-out
     * one (`Reflow.HiddenOriginTwice` shows the double listing otherwise).
     * The invariant is kept whenever a listed dragged element of a laid-out
     * container is seated in a laid-out one.
     */
    method Reseat(d: Drop, keep: (Elem, Slot) -> bool)
      requires Valid() && d.t in items && Registered(items, homes)
      modifies this`items, this`animQueue, this`animating, this`homes
      ensures (Sched(), homes) == old(ReflowFixed(Sched(), homes, order, d, boxes, keep))
      ensures old(items[d.t].idx.Some? && Visits(order, items[d.t].container) ==> Visits(order, d.dest) && d.lands) ==>
                Valid()
    {
      if items[d.t].idx.Some? && Visits(order, items[d.t].container) ==> Visits(order, d.dest) && d.lands {
        FixedValid(Sched(), order, homes, hosts, dirty, d, boxes, keep);
      }
      ReflowFrom(d, keep);
    }

    /** The steps of `Reseat`: unlisting where needed, then the outer loop of `assign_dropzone`. */
    method ReflowFrom(d: Drop, keep: (Elem, Slot) -> bool)
      requires d.t in items && Owned(items, homes) && Registered(items, homes)
      modifies this`items, this`animQueue, this`animating, this`homes
      ensures (Sched(), homes) == old(ReflowFixed(Sched(), homes, order, d, boxes, keep))
    {
      if Strays(Anim(items, animQueue, animating), order, d) {
        Unlist(d.t);
      }
      ReflowAll(d, keep);
    }

    /**
     * The listed element `t` leaves its container's `homes`, which is
     * reindexed, and loses its index: `old.mv.homes.splice(t.idx, 1)`,
     * `old.reindex()`, `t.idx = null`.
     */
    method Unlist(t: Elem)
      requires Owned(items, homes) && t in items && items[t].idx.Some?
      modifies this`items, this`homes
      ensures (items, homes) == Unlisted(old(items), old(homes), t)
    {
      var it := items[t];
      var c := it.container;
      OwnedNoDup(items, homes, c);
      SpliceIsWithout(homes[c], it.idx.value);
      Unhome(c, it.idx.value);
      items := items[t := it.(idx := None)];
    }

    /**
     * The middle of `find_dropzone`: the slot of container `c` the midpoint
     * of `t` has reached, None for no call and `Some(None)` for a call with
     * a `null` index.
     */
    method SlotReached(c: Container, t: Elem) returns (call: Option<Option<nat>>)
      requires t in items && Indexed(items, homes)
      ensures call == Pick.DropzoneIndex(items, homes, boxes, c, t)
    {
      var a := c.AB().A;
      var s := items[t].At(a);
      var sizes := Pick.SlotSizes(items, HomesOf(homes, c), a, s.mSize);
      var start := SpanOf(BoxOf(boxes, c), a).Start();
      var midA := Pick.MidOf(s);
      var midH, idxH := -1, Some(0);
      if items[t].container == c {
        midH, idxH := Pick.HomeMid(s), items[t].idx;
      }
      call := None;
      if midA < midH {
        if idxH.Some? {
          var idx := Dropzone.ScanBackward(sizes, s.mSize, s.posMid, midA, midH, idxH.value);
          call := Pick.CallWith(idx);
        } else if midA < midH + s.posMid {
          call := Some(None);
        }
      } else if midA > midH {
        var i := Dropzone.ScanForward(sizes, s.mSize, midA, start);
        call := Some(Some(i));
      }
    }

    // ---- rendering ------------------------------------------------------------

    /** One axis of `e` heads home with a fresh fall step. */
    method FallAxis(e: Elem, a: Axis, keep: (Elem, Slot) -> bool)
      requires e in items && !items[e].grabbed
      modifies this`items, this`animQueue, this`animating
      ensures e in items && !items[e].grabbed
      ensures Sched() == Fall(old(Sched()), e, a, keep)
    {
      var it := items[e];
      items := items[e := it.With(a, Homing(it.At(a)))];
      AddAnim(Pos(a), PosFall(a), e, keep);
    }

    /**
     * The loop body of `render_items` for the attached element `e`, whose
     * outer box starts at `oA` and `oB`: measured anew and given its resting
     * place; then, unless grabbed, snapped there when it was at its old
     * place and sent there on both axes otherwise.
     */
    method ShowElem(e: Elem, ab: AxisPair, oA: int, oB: int, rect: Option<Rect>, keep: (Elem, Slot) -> bool)
      requires e in items
      modifies this`items, this`animQueue, this`animating
      ensures Sched() == Show(old(Sched()), e, ab, oA, oB, rect, keep)
    {
      var it := items[e];
      var seated := Seat(Remeasured(it, rect), ab, oA, oB);
      if seated.grabbed {
        items := items[e := seated];
      } else if it.AtHome() {
        items := items[e := Snapped(seated)];
      } else {
        items := items[e := seated];
        FallAxis(e, Axes.X, keep);
        FallAxis(e, Axes.Y, keep);
      }
    }

    /**
     * `c.render_items()`: nothing while `c` is hidden; otherwise its attached
     * elements are shown one extent after another from the container start.
     */
    method RenderItems(c: Container, dom: map<Elem, Container>, rects: Elem -> Option<Rect>, keep: (Elem, Slot) -> bool)
      requires forall e | e in HomesOf(homes, c) && e in dom :: e in items
      modifies this`items, this`animQueue, this`animating
      ensures Sched() == RenderF(old(Sched()), homes, c, boxes, dom, rects, keep)
    {
      ghost var st0 := Sched();
      if c.visible {
        var h, ab, oA, oB := HomesOf(homes, c), c.AB(), StartA(c, boxes), StartB(c, boxes);
        DrawAll(h, ab, oA, oB, dom, rects, keep);
        RenderShown(st0, homes, c, boxes, dom, rects, keep);
      }
    }

    /** The loop of `render_items` over the list `h`, from the running edge `oA0`. */
    method DrawAll(h: seq<Elem>, ab: AxisPair, oA0: int, oB: int, dom: map<Elem, Container>,
                   rects: Elem -> Option<Rect>, keep: (Elem, Slot) -> bool)
      requires forall e | e in h && e in dom :: e in items
      modifies this`items, this`animQueue, this`animating
      ensures Sched() == Draw(old(Sched()), h, ab, oA0, oB, dom, rects, keep)
    {
      var oA, i := oA0, 0;
      while i < |h|
        invariant 0 <= i <= |h| && items.Keys == old(items).Keys
        invariant Draw(old(Sched()), h, ab, oA0, oB, dom, rects, keep) == Draw(Sched(), h[i..], ab, oA, oB, dom, rects, keep)
      {
        assert h[i..][1..] == h[i + 1..];
        oA := DrawOne(h[i..], ab, oA, oB, dom, rects, keep);
        i := i + 1;
      }
      assert h[i..] == [];
    }

    /** One turn of the loop of `render_items`, over the rest `h` of `homes`; `oA'` is the running edge after it. */
    method DrawOne(h: seq<Elem>, ab: AxisPair, oA: int, oB: int, dom: map<Elem, Container>,
                   rects: Elem -> Option<Rect>, keep: (Elem, Slot) -> bool) returns (oA': int)
      requires h != [] && forall e | e in h && e in dom :: e in items
      modifies this`items, this`animQueue, this`animating
      ensures items.Keys == old(items).Keys
      ensures Draw(old(Sched()), h, ab, oA, oB, dom, rects, keep) == Draw(Sched(), h[1..], ab, oA', oB, dom, rects, keep)
    {
      oA' := oA;
      var e := h[0];
      if e in dom {
        assert e in h;
        ghost var st0 := Sched();
        var ext := Remeasured(items[e], rects(e)).At(ab.A).Extent();
        ShowElem(e, ab, oA, oB, rects(e), keep);
        oA' := oA + ext;
        DrawStep(st0, h, ab, oA, oB, dom, rects, keep, Sched(), ext);
      } else {
        DrawSkip(Sched(), h, ab, oA, oB, dom, rects, keep);
      }
    }

    /**
     * `items_moved()`: the pending flush is cleared; every dirty container is
     * measured (a hidden one keeps its last box); then each dirty container
     * in turn leaves `mono.dirty` and is rendered.
     */
    method ItemsMoved(measure: Container -> Box, dom: map<Elem, Container>, rects: Elem -> Option<Rect>,
                      keep: (Elem, Slot) -> bool)
      requires Valid() && Drawable(items, homes, dirty, dom)
      modifies this`renderPending, this`boxes, this`dirty, this`items, this`animQueue, this`animating
      ensures Valid() && !renderPending && dirty == []
      ensures boxes == Remeasure(old(boxes), old(dirty), measure)
      ensures Sched() == old(RenderAll(Sched(), homes, dirty, Remeasure(boxes, dirty, measure), dom, rects, keep))
    {
      RenderValid(Sched(), order, homes, hosts, dirty, Remeasure(boxes, dirty, measure), dom, rects, keep);
      Flush(measure, dom, rects, keep);
    }

    /** The steps of `items_moved`: the flush request cleared, both loops. */
    method Flush(measure: Container -> Box, dom: map<Elem, Container>, rects: Elem -> Option<Rect>,
                 keep: (Elem, Slot) -> bool)
      requires Drawable(items, homes, dirty, dom)
      modifies this`renderPending, this`boxes, this`dirty, this`items, this`animQueue, this`animating
      ensures !renderPending && dirty == []
      ensures boxes == Remeasure(old(boxes), old(dirty), measure)
      ensures Sched() == old(RenderAll(Sched(), homes, dirty, Remeasure(boxes, dirty, measure), dom, rects, keep))
    {
      renderPending := false;
      MeasureDirty(measure);
      RenderDirty(dom, rects, keep);
    }

    /** The second loop of `items_moved`: each dirty container in turn leaves `mono.dirty` and is rendered. */
    method RenderDirty(dom: map<Elem, Container>, rects: Elem -> Option<Rect>, keep: (Elem, Slot) -> bool)
      requires Drawable(items, homes, dirty, dom)
      modifies this`dirty, this`items, this`animQueue, this`animating
      ensures dirty == []
      ensures Sched() == RenderAll(old(Sched()), homes, old(dirty), boxes, dom, rects, keep)
    {
      while dirty != []
        invariant Drawable(items, homes, dirty, dom)
        invariant RenderAll(old(Sched()), homes, old(dirty), boxes, dom, rects, keep)
                  == RenderAll(Sched(), homes, dirty, boxes, dom, rects, keep)
        decreases |dirty|
      {
        RenderNext(dom, rects, keep);
      }
    }

    /** One turn of the second loop of `items_moved`: the first dirty container leaves `mono.dirty` and is rendered. */
    method RenderNext(dom: map<Elem, Container>, rects: Elem -> Option<Rect>, keep: (Elem, Slot) -> bool)
      requires dirty != [] && Drawable(items, homes, dirty, dom)
      modifies this`dirty, this`items, this`animQueue, this`animating
      ensures dirty == old(dirty)[1..] && Drawable(items, homes, dirty, dom)
      ensures RenderAll(old(Sched()), homes, old(dirty), boxes, dom, rects, keep)
              == RenderAll(Sched(), homes, dirty, boxes, dom, rects, keep)
    {
      var c := dirty[0];
      ghost var st0, rest := Sched(), dirty;
      dirty := dirty[1..];
      RenderItems(c, dom, rects, keep);
      RenderAllStep(st0, homes, rest, boxes, dom, rects, keep, Sched());
    }

    /** The first loop of `items_moved`: `container_rect_changed()` on every dirty container. */
    method MeasureDirty(measure: Container -> Box)
      modifies this`boxes
      ensures boxes == Remeasure(old(boxes), dirty, measure)
    {
      var k := 0;
      while k < |dirty|
        invariant 0 <= k <= |dirty|
        invariant Remeasure(old(boxes), dirty, measure) == Remeasure(boxes, dirty[k..], measure)
      {
        assert dirty[k..][1..] == dirty[k + 1..];
        var c := dirty[k];
        if c.visible {
          boxes := boxes[c := measure(c)];
        }
        k := k + 1;
      }
    }

    // ---- reset ----------------------------------------------------------------

    /**
     * `self.reset()`: the slot's assigned nodes `slotted` are taken back in
     * order, every element `self` listed when it began and the slot no
     * longer shows is given back to its DOM parent in `dom` (or loses its
     * index when it has none), `self`'s `homes` becomes the list built by
     * the first loop, and `items_moved()` runs.
     */
    method Reset(self: Container, slotted: seq<Elem>, dom: map<Elem, Container>, measure: Container -> Box,
                 rects: Elem -> Option<Rect>, keep: (Elem, Slot) -> bool)
      requires Valid() && self in homes
      requires forall t | t in dom :: dom[t] in homes && (dom[t] == self ==> t in slotted)
      modifies this`items, this`homes, this`dirty, this`renderPending, this`boxes, this`animQueue, this`animating
      ensures Valid()
      ensures var r := Restore.Reset(old(items), old(homes), old(dirty), self, slotted, dom);
              && homes == r.H && dirty == [] && !renderPending
              && boxes == Remeasure(old(boxes), r.dirty, measure)
              && Drawable(r.m, r.H, r.dirty, dom)
              && Sched() == old(RenderAll(Anim(r.m, animQueue, animating), r.H, r.dirty, Remeasure(boxes, r.dirty, measure),
                                          dom, rects, keep))
    {
      ghost var r := Restore.Reset(items, homes, dirty, self, slotted, dom);
      ResetValid(Sched(), order, homes, hosts, dirty, self, slotted, dom);
      ListedDrawable(r.m, r.H, r.dirty, dom);
      RenderValid(Anim(r.m, animQueue, animating), order, r.H, hosts, r.dirty, Remeasure(boxes, r.dirty, measure),
                  dom, rects, keep);
      Restart(self, slotted, dom, measure, rects, keep);
    }

    /** The steps of `reset`: the bookkeeping, then the steps of `items_moved`. */
    method Restart(self: Container, slotted: seq<Elem>, dom: map<Elem, Container>, measure: Container -> Box,
                   rects: Elem -> Option<Rect>, keep: (Elem, Slot) -> bool)
      requires var r := Restore.Reset(items, homes, dirty, self, slotted, dom); Drawable(r.m, r.H, r.dirty, dom)
      modifies this`items, this`homes, this`dirty, this`renderPending, this`boxes, this`animQueue, this`animating
      ensures var r := Restore.Reset(old(items), old(homes), old(dirty), self, slotted, dom);
              && homes == r.H && dirty == [] && !renderPending
              && boxes == Remeasure(old(boxes), r.dirty, measure)
              && Sched() == old(RenderAll(Anim(r.m, animQueue, animating), r.H, r.dirty, Remeasure(boxes, r.dirty, measure),
                                          dom, rects, keep))
    {
      ghost var r := Restore.Reset(items, homes, dirty, self, slotted, dom);
      ghost var b := Remeasure(boxes, r.dirty, measure);
      ghost var target := RenderAll(Anim(r.m, animQueue, animating), r.H, r.dirty, b, dom, rects, keep);
      Rehome(self, slotted, dom);
      assert b == Remeasure(boxes, dirty, measure);
      assert target == RenderAll(Sched(), homes, dirty, b, dom, rects, keep);
      Flush(measure, dom, rects, keep);
    }

    /** The bookkeeping part of `reset`: both loops, then `self.mv.homes = homes_new`. */
    method Rehome(self: Container, slotted: seq<Elem>, dom: map<Elem, Container>)
      modifies this`items, this`homes, this`dirty
      ensures var r := Restore.Reset(old(items), old(homes), old(dirty), self, slotted, dom);
              items == r.m && homes == r.H && dirty == r.dirty
    {
      var orig := Restore.HomesOf(homes, self);
      var seen, taken := TakeSlotted(self, slotted);
      seen := GiveBack(self, dom, orig, seen, taken);
      homes := homes[self := taken];
    }

    /** The first loop of `reset`: `seen` and `homes_new` after every assigned node is visited. */
    method TakeSlotted(self: Container, slotted: seq<Elem>) returns (seen: set<Elem>, taken: seq<Elem>)
      modifies this`items, this`homes, this`dirty
      ensures Restore.Sweep(items, homes, dirty, seen, taken)
              == Restore.Gather(Restore.Sweep(old(items), old(homes), old(dirty), {}, []), self, slotted)
    {
      seen, taken := {}, [];
      var i := 0;
      while i < |slotted|
        invariant 0 <= i <= |slotted|
        invariant Restore.Sweep(items, homes, dirty, seen, taken)
                  == Restore.Gather(Restore.Sweep(old(items), old(homes), old(dirty), {}, []), self, slotted[..i])
      {
        assert slotted[..i + 1][..i] == slotted[..i];
        seen, taken := TakeOne(self, slotted[i], seen, taken);
        i := i + 1;
      }
      assert slotted[..i] == slotted;
    }

    /**
     * One turn of the first loop: an unseen registered node is marked seen,
     * its old container dirty, it is appended to `homes_new` with `self` and
     * that position, and when it came from another container with an index
     * it is spliced out of that container's list, which is reindexed.
     */
    method TakeOne(self: Container, t: Elem, seen: set<Elem>, taken: seq<Elem>) returns (seen': set<Elem>, taken': seq<Elem>)
      modifies this`items, this`homes, this`dirty
      ensures Restore.Sweep(items, homes, dirty, seen', taken')
              == Restore.GatherStep(Restore.Sweep(old(items), old(homes), old(dirty), seen, taken), self, t)
    {
      seen', taken' := seen, taken;
      if t in seen {
        return;
      }
      seen' := seen + {t};
      if t !in items {
        return;
      }
      var it := items[t];
      dirty := Mark(dirty, it.container);
      items := items[t := it.(idx := Some(|taken|), container := self)];
      taken' := taken + [t];
      if it.container != self && it.idx.Some? {
        Unhome(it.container, it.idx.value);
      }
    }

    /** The second loop of `reset`, over `orig`, `self`'s list before the first loop; `homes_new` is only read. */
    method GiveBack(self: Container, dom: map<Elem, Container>, orig: seq<Elem>, seen0: set<Elem>, ghost taken: seq<Elem>)
      returns (seen: set<Elem>)
      modifies this`items, this`homes, this`dirty
      ensures Restore.Sweep(items, homes, dirty, seen, taken)
              == Restore.Return(Restore.Sweep(old(items), old(homes), old(dirty), seen0, taken), self, dom, orig)
    {
      seen := seen0;
      var i := 0;
      while i < |orig|
        invariant 0 <= i <= |orig|
        invariant Restore.Sweep(items, homes, dirty, seen, taken)
                  == Restore.Return(Restore.Sweep(old(items), old(homes), old(dirty), seen0, taken), self, dom, orig[..i])
      {
        assert orig[..i + 1][..i] == orig[..i];
        seen := GiveOne(self, dom, orig[i], seen, taken);
        i := i + 1;
      }
      assert orig[..i] == orig;
    }

    /**
     * One turn of the second loop: an unseen registered element without a
     * DOM parent is spliced out of its container's list at its index (at 0
     * when it has none) and loses its index; one with a parent is appended
     * to the parent's list, registered there, and the parent marked dirty.
     */
    method GiveOne(self: Container, dom: map<Elem, Container>, u: Elem, seen: set<Elem>, ghost taken: seq<Elem>)
      returns (seen': set<Elem>)
      modifies this`items, this`homes, this`dirty
      ensures Restore.Sweep(items, homes, dirty, seen', taken)
              == Restore.ReturnStep(Restore.Sweep(old(items), old(homes), old(dirty), seen, taken), self, dom, u)
    {
      seen' := seen;
      if u in seen {
        return;
      }
      seen' := seen + {u};
      if u !in items {
        return;
      }
      var it := items[u];
      if u !in dom {
        homes := homes[it.container := Splice(Restore.HomesOf(homes, it.container), Restore.IdxOr0(it.idx))];
        items := items[u := it.(idx := None)];
        return;
      }
      var d := dom[u];
      dirty := Mark(dirty, d);
      var h := Restore.HomesOf(homes, d);
      items := items[u := it.(idx := Some(|h|), container := d)];
      homes := homes[d := h + [u]];
    }

    // ---- batching -------------------------------------------------------------

    /** `mono.dirty` holds known containers, each once. */
    ghost predicate DirtyOk()
      reads this`dirty, this`homes
    {
      NoDup(dirty) && forall x | x in dirty :: x in homes
    }

    /**
     * `c.container_moved()`, nested containers followed at most `fuel` deep.
     * Nothing happens while the host item of `c` is grabbed or away from
     * home. Otherwise `c` and the current container of each of its children
     * registered elsewhere are marked dirty, every container nested in a
     * child is handled in turn, and a flush is requested unless one is
     * pending: at once when some child lives elsewhere, debounced otherwise.
     * `mono.dirty` gains exactly `Marks`, and an immediate flush is pending
     * exactly when one was or some container visited `Hurries`.
     */
    method ContainerMoved(c: Container, fuel: nat)
      requires Closed(items, homes) && Linked(items, hosts) && c in homes && DirtyOk()
      modifies this`dirty, this`renderPending, this`debouncePending
      ensures DirtyOk() && Grows(old(dirty), dirty)
      ensures old(Valid()) ==> Valid()
      ensures Members(dirty) == Members(old(dirty)) + Marks(items, hosts, c, fuel)
      ensures renderPending == (old(renderPending) || Hurries(items, hosts, c, fuel))
      ensures old(debouncePending) ==> debouncePending
      ensures Held(items, hosts, c) ==> unchanged(this)
      ensures !Held(items, hosts, c) ==> renderPending || debouncePending
    {
      MarkMoved(c, fuel);
    }

    /** The steps of `container_moved`, also run on every nested container. */
    method MarkMoved(c: Container, fuel: nat)
      requires Closed(items, homes) && Linked(items, hosts) && c in homes && DirtyOk()
      modifies this`dirty, this`renderPending, this`debouncePending
      ensures DirtyOk() && Grows(old(dirty), dirty)
      ensures Members(dirty) == Members(old(dirty)) + Marks(items, hosts, c, fuel)
      ensures renderPending == (old(renderPending) || Hurries(items, hosts, c, fuel))
      ensures old(debouncePending) ==> debouncePending
      ensures Held(items, hosts, c) ==> unchanged(this)
      ensures !Held(items, hosts, c) ==> renderPending || debouncePending
      decreases fuel, 3
    {
      var host := Parents.HostOf(hosts, c);
      if host.Some? && (items[host.value].grabbed || !items[host.value].AtHome()) {
        return;
      }
      MembersMark(dirty, c);
      dirty := Mark(dirty, c);
      ghost var marked := dirty;
      var hurry := MoveChildren(c, fuel);
      GrowsTrans(old(dirty), marked, dirty);
      if renderPending {
      } else if hurry {
        renderPending := true;
      } else if |dirty| > 0 {
        debouncePending := true;
      }
    }

    /** The loop of `container_moved` over the children of `c`; `hurry` when one of them is registered elsewhere. */
    method MoveChildren(c: Container, fuel: nat) returns (hurry: bool)
      requires Closed(items, homes) && Linked(items, hosts) && DirtyOk() && c in dirty && c in homes
      modifies this`dirty, this`renderPending, this`debouncePending
      ensures DirtyOk() && Grows(old(dirty), dirty)
      ensures Members(dirty) == Members(old(dirty)) + KidsMark(items, hosts, c, c.children, fuel)
      ensures renderPending == (old(renderPending) || KidsHurry(items, hosts, c.children, fuel))
      ensures old(debouncePending) ==> debouncePending
      ensures hurry <==> StraysIn(items, c.children, c)
      decreases fuel, 2
    {
      hurry := false;
      var kids := c.children;
      var i := 0;
      while i < |kids|
        invariant 0 <= i <= |kids| && DirtyOk() && Grows(old(dirty), dirty) && c in dirty
        invariant Members(dirty) == Members(old(dirty)) + KidsMark(items, hosts, c, kids[..i], fuel)
        invariant renderPending == (old(renderPending) || KidsHurry(items, hosts, kids[..i], fuel))
        invariant old(debouncePending) ==> debouncePending
        invariant hurry <==> StraysIn(items, kids[..i], c)
      {
        hurry := MoveKid(c, kids, i, fuel, old(dirty), old(renderPending), old(debouncePending), hurry);
        i := i + 1;
      }
      assert kids[..i] == kids;
    }

    /**
     * One turn of the loop of `container_moved` over the children `kids` of
     * `c`: the loop's invariant, with `d0`, `r0` and `q0` the state it
     * started from, carried from the first `i` children to the first `i + 1`.
     */
    method MoveKid(c: Container, kids: seq<Elem>, i: nat, fuel: nat, ghost d0: seq<Container>, ghost r0: bool,
                   ghost q0: bool, hurry: bool) returns (hurry': bool)
      requires i < |kids| && Closed(items, homes) && Linked(items, hosts) && DirtyOk() && Grows(d0, dirty) && c in dirty
      requires Members(dirty) == Members(d0) + KidsMark(items, hosts, c, kids[..i], fuel)
      requires renderPending == (r0 || KidsHurry(items, hosts, kids[..i], fuel))
      requires q0 ==> debouncePending
      requires hurry <==> StraysIn(items, kids[..i], c)
      modifies this`dirty, this`renderPending, this`debouncePending
      ensures DirtyOk() && Grows(d0, dirty) && c in dirty
      ensures Members(dirty) == Members(d0) + KidsMark(items, hosts, c, kids[..i + 1], fuel)
      ensures renderPending == (r0 || KidsHurry(items, hosts, kids[..i + 1], fuel))
      ensures q0 ==> debouncePending
      ensures hurry' <==> StraysIn(items, kids[..i + 1], c)
      decreases fuel, 1
    {
      ghost var before, pending := dirty, renderPending;
      var away := MoveChild(c, kids[i], fuel);
      hurry' := hurry || away;
      GrowsTrans(d0, before, dirty);
      KidsStep(items, hosts, c, kids, i, fuel);
      UnionStep(Members(d0), Members(before), Members(dirty), KidsMark(items, hosts, c, kids[..i], fuel),
                if kids[i] in items then KidMark(items, hosts, c, kids[i], fuel) else {});
      OrStep(r0, pending, renderPending, KidsHurry(items, hosts, kids[..i], fuel),
             kids[i] in items && KidHurry(items, hosts, kids[i], fuel));
      assert kids[..i + 1] == kids[..i] + [kids[i]];
    }

    /** The body of the loop of `container_moved` over child `e` of `c`; `away` when its record names another container. */
    method MoveChild(c: Container, e: Elem, fuel: nat) returns (away: bool)
      requires Closed(items, homes) && Linked(items, hosts) && DirtyOk() && c in dirty
      modifies this`dirty, this`renderPending, this`debouncePending
      ensures DirtyOk() && Grows(old(dirty), dirty) && c in dirty
      ensures Members(dirty) == Members(old(dirty)) + (if e in items then KidMark(items, hosts, c, e, fuel) else {})
      ensures renderPending == (old(renderPending) || (e in items && KidHurry(items, hosts, e, fuel)))
      ensures old(debouncePending) ==> debouncePending
      ensures away <==> e in items && items[e].container != c
      decreases fuel, 0
    {
      away := false;
      if e !in items {
        return;
      }
      var it := items[e];
      ghost var nested: set<Container> := {};
      if fuel > 0 {
        MoveNested(it.childrenContainers, fuel - 1);
        nested := NestedMark(items, hosts, it.childrenContainers, fuel - 1);
      }
      ghost var before := dirty;
      assert Members(before) == Members(old(dirty)) + nested;
      ghost var own: set<Container> := {};
      if it.container != c {
        MembersMark(dirty, it.container);
        dirty := Mark(dirty, it.container);
        away := true;
        own := {it.container};
      }
      assert Members(dirty) == Members(before) + own;
      GrowsTrans(old(dirty), before, dirty);
      UnionStep(Members(old(dirty)), Members(before), Members(dirty), nested, own);
      assert KidMark(items, hosts, c, e, fuel) == nested + own;
    }

    /** `child_cont.container_moved()` for every container of `ccs`, in some order. */
    method MoveNested(ccs: set<Container>, fuel: nat)
      requires Closed(items, homes) && Linked(items, hosts) && DirtyOk() && ccs <= homes.Keys
      modifies this`dirty, this`renderPending, this`debouncePending
      ensures DirtyOk() && Grows(old(dirty), dirty)
      ensures Members(dirty) == Members(old(dirty)) + NestedMark(items, hosts, ccs, fuel)
      ensures renderPending == (old(renderPending) || NestedHurry(items, hosts, ccs, fuel))
      ensures old(debouncePending) ==> debouncePending
      decreases fuel, 4
    {
      var rest := ccs;
      ghost var done: set<Container> := {};
      while rest != {}
        invariant rest <= ccs && done <= ccs && done + rest == ccs && DirtyOk() && Grows(old(dirty), dirty)
        invariant Members(dirty) == Members(old(dirty)) + NestedMark(items, hosts, done, fuel)
        invariant renderPending == (old(renderPending) || NestedHurry(items, hosts, done, fuel))
        invariant old(debouncePending) ==> debouncePending
        decreases rest
      {
        var d :| d in rest;
        ghost var before := dirty;
        MarkMoved(d, fuel);
        GrowsTrans(old(dirty), before, dirty);
        NestedAdd(items, hosts, done, d, fuel);
        UnionStep(Members(old(dirty)), Members(before), Members(dirty),
                  NestedMark(items, hosts, done, fuel), Marks(items, hosts, d, fuel));
        done, rest := done + {d}, rest - {d};
      }
    }
  }

  /** The record of the last element of `h` (`items.get(homes[homes.length - 2])` once `t` is appended), if any. */
  function LastRecord(m: map<Elem, Item>, h: seq<Elem>): (r: Option<Item>)
    ensures r.Some? <==> h != [] && h[|h| - 1] in m
    ensures r.Some? ==> r.value == m[h[|h| - 1]]
  {
    if h != [] && h[|h| - 1] in m then Some(m[h[|h| - 1]]) else None
  }

  /** `container_moved` leaves `c` alone while its host item is grabbed or away from home. */
  predicate Held(m: map<Elem, Item>, P: HostsMap, c: Container)
  {
    var host := Parents.HostOf(P, c);
    host.Some? && host.value in m && (m[host.value].grabbed || !m[host.value].AtHome())
  }

  /**
   * The containers `c.container_moved()` marks dirty, nested containers
   * followed at most `fuel` deep: none while its host item is held; otherwise `c` itself and what
   * its children add.
   */
  ghost function Marks(m: map<Elem, Item>, P: HostsMap, c: Container, fuel: nat)
    : set<Container>
    decreases fuel, 2, 0
  {
    if Held(m, P, c) then {} else {c} + KidsMark(m, P, c, c.children, fuel)
  }

  /** What the children `kids` of `c` add to `Marks`: each registered one in turn. */
  ghost function KidsMark(m: map<Elem, Item>, P: HostsMap, c: Container,
                          kids: seq<Elem>, fuel: nat): set<Container>
    decreases fuel, 1, |kids|
  {
    if kids == [] then {}
    else
      var e := kids[|kids| - 1];
      KidsMark(m, P, c, kids[..|kids| - 1], fuel) + (if e in m then KidMark(m, P, c, e, fuel) else {})
  }

  /** What the registered child `e` of `c` adds: its nested containers' marks, and its container when not `c`. */
  ghost function KidMark(m: map<Elem, Item>, P: HostsMap, c: Container, e: Elem,
                         fuel: nat): set<Container>
    requires e in m
    decreases fuel, 0, 1
  {
    (if fuel > 0 then NestedMark(m, P, m[e].childrenContainers, fuel - 1) else {})
    + (if m[e].container != c then {m[e].container} else {})
  }

  /** What `container_moved` marks for each container of `ccs`. */
  ghost function NestedMark(m: map<Elem, Item>, P: HostsMap, ccs: set<Container>,
                            fuel: nat): set<Container>
    decreases fuel, 3, 0
  {
    set x, d | d in ccs && x in Marks(m, P, d, fuel) :: x
  }

  /**
   * `c.container_moved()`, nested containers followed at most `fuel` deep,
   * reaches a container past its host check that has a child registered
   * elsewhere: the one condition for an immediate flush.
   */
  ghost predicate Hurries(m: map<Elem, Item>, P: HostsMap, c: Container, fuel: nat)
    decreases fuel, 2, 0
  {
    !Held(m, P, c) && (KidsHurry(m, P, c.children, fuel) || StraysIn(m, c.children, c))
  }

  /** Some nested container of the children `kids` hurries. */
  ghost predicate KidsHurry(m: map<Elem, Item>, P: HostsMap, kids: seq<Elem>, fuel: nat)
    decreases fuel, 1, |kids|
  {
    if kids == [] then false
    else
      var e := kids[|kids| - 1];
      KidsHurry(m, P, kids[..|kids| - 1], fuel) || (e in m && KidHurry(m, P, e, fuel))
  }

  /** Some container nested in the registered child `e` hurries. */
  ghost predicate KidHurry(m: map<Elem, Item>, P: HostsMap, e: Elem, fuel: nat)
    requires e in m
    decreases fuel, 0, 1
  {
    fuel > 0 && NestedHurry(m, P, m[e].childrenContainers, fuel - 1)
  }

  /** Some container of `ccs` hurries. */
  ghost predicate NestedHurry(m: map<Elem, Item>, P: HostsMap, ccs: set<Container>,
                              fuel: nat)
    decreases fuel, 3, 0
  {
    exists d | d in ccs :: Hurries(m, P, d, fuel)
  }

  /** Some element of `kids`, the children of `c`, is registered with another container. */
  predicate StraysIn(m: map<Elem, Item>, kids: seq<Elem>, c: Container)
  {
    exists e | e in kids :: e in m && m[e].container != c
  }

  /** Every registered child of `kids` that lives outside `c` has its container among the marks. */
  lemma {:induction false} KidsMarkCover(m: map<Elem, Item>, P: HostsMap, c: Container, kids: seq<Elem>, fuel: nat)
    ensures forall e | e in kids && e in m && m[e].container != c :: m[e].container in KidsMark(m, P, c, kids, fuel)
  {
    if kids != [] {
      var init := kids[..|kids| - 1];
      KidsMarkCover(m, P, c, init, fuel);
      assert kids == init + [kids[|kids| - 1]];
    }
  }

  /**
   * Unless its host item is held, `container_moved` marks the container
   * itself and the current container of each of its registered children,
   * and a child registered elsewhere forces an immediate flush.
   */
  lemma MovedMarks(m: map<Elem, Item>, P: HostsMap, c: Container, fuel: nat)
    requires !Held(m, P, c)
    ensures c in Marks(m, P, c, fuel)
    ensures forall e | e in c.children && e in m :: m[e].container in Marks(m, P, c, fuel)
    ensures StraysIn(m, c.children, c) ==> Hurries(m, P, c, fuel)
  {
    KidsMarkCover(m, P, c, c.children, fuel);
  }

  /** One more child visited by `MoveChildren`. */
  lemma KidsStep(m: map<Elem, Item>, P: HostsMap, c: Container, kids: seq<Elem>,
                 i: nat, fuel: nat)
    requires i < |kids|
    ensures KidsMark(m, P, c, kids[..i + 1], fuel)
            == KidsMark(m, P, c, kids[..i], fuel) + (if kids[i] in m then KidMark(m, P, c, kids[i], fuel) else {})
    ensures KidsHurry(m, P, kids[..i + 1], fuel)
            == (KidsHurry(m, P, kids[..i], fuel) || (kids[i] in m && KidHurry(m, P, kids[i], fuel)))
    ensures StraysIn(m, kids[..i + 1], c) == (StraysIn(m, kids[..i], c) || (kids[i] in m && m[kids[i]].container != c))
  {
    assert kids[..i + 1][..i] == kids[..i];
    assert kids[..i + 1] == kids[..i] + [kids[i]];
  }

  /** One more container visited by `MoveNested`. */
  lemma NestedAdd(m: map<Elem, Item>, P: HostsMap, ccs: set<Container>, d: Container,
                  fuel: nat)
    ensures NestedMark(m, P, ccs + {d}, fuel) == NestedMark(m, P, ccs, fuel) + Marks(m, P, d, fuel)
    ensures NestedHurry(m, P, ccs + {d}, fuel) <==> NestedHurry(m, P, ccs, fuel) || Hurries(m, P, d, fuel)
  {
  }

  /** Gaining `a` and then `b` is gaining `a + b`. */
  lemma UnionStep<T>(s0: set<T>, s1: set<T>, s2: set<T>, a: set<T>, b: set<T>)
    requires s1 == s0 + a && s2 == s1 + b
    ensures s2 == s0 + (a + b)
  {
  }

  /** The flag counterpart of `UnionStep`. */
  lemma OrStep(b0: bool, b1: bool, b2: bool, x: bool, y: bool)
    requires b1 == (b0 || x) && b2 == (b1 || y)
    ensures b2 == (b0 || (x || y))
  {
  }

  /** The members of an insertion-ordered set held as a sequence. */
  ghost function Members<T>(s: seq<T>): set<T>
  {
    set x | x in s
  }

  /** `Set.prototype.add` adds one member. */
  lemma MembersMark<T>(s: seq<T>, x: T)
    ensures Members(Mark(s, x)) == Members(s) + {x}
  {
  }

  /** An insertion-ordered set only gained members at its end. */
  predicate Grows<T(==)>(s: seq<T>, r: seq<T>)
  {
    |s| <= |r| && r[..|s|] == s
  }

  lemma GrowsTrans<T>(s: seq<T>, s1: seq<T>, s2: seq<T>)
    requires Grows(s, s1) && Grows(s1, s2)
    ensures Grows(s, s2) && forall x | x in s1 :: x in s2
  {
    assert s2[..|s|] == s2[..|s1|][..|s|];
    forall x | x in s1 ensures x in s2 {
      var k :| 0 <= k < |s1| && s1[k] == x;
      assert s2[..|s1|][k] == x;
    }
  }

  /** A detached element is passed over. */
  lemma DrawSkip(st: Anim, h: seq<Elem>, ab: AxisPair, oA: int, oB: int, dom: map<Elem, Container>,
                 rects: Elem -> Option<Rect>, keep: (Elem, Slot) -> bool)
    requires h != [] && h[0] !in dom && forall e | e in h && e in dom :: e in st.items
    ensures Draw(st, h, ab, oA, oB, dom, rects, keep) == Draw(st, h[1..], ab, oA, oB, dom, rects, keep)
  {
  }

  /** The inner loop of a frame: run every step of one element, keeping those that continue. */
  method RunSlots(t: Elem, it: Item, keep: (Elem, Slot) -> bool) returns (kept: map<Slot, Step>)
    ensures kept == TickSlots(t, it, keep)
  {
    kept := it.slots;
    var rest := it.slots.Keys;
    while rest != {}
      invariant rest <= it.slots.Keys
      invariant kept == map s | s in it.slots && (s in rest || Continues(t, it, s, keep)) :: it.slots[s]
      decreases rest
    {
      var s :| s in rest;
      if !Continues(t, it, s, keep) {
        kept := kept - {s};
      }
      rest := rest - {s};
    }
  }

  /** Records whose cores differ only at `t`, by one that keeps `t`'s links, have the same links. */
  lemma CoresLinks(m: map<Elem, Item>, m2: map<Elem, Item>, t: Elem, it: Item)
    requires t in m && Cores(m2) == Cores(m)[t := it.Core()]
    requires it.container == m[t].container && it.idx == m[t].idx && it.childrenContainers == m[t].childrenContainers
    ensures SameLinks(m, m2)
  {
    assert m2.Keys == Cores(m2).Keys;
    forall e | e in m
      ensures m2[e].container == m[e].container && m2[e].idx == m[e].idx
      ensures m2[e].childrenContainers == m[e].childrenContainers
    {
      assert Cores(m2)[e] == m2[e].Core();
    }
  }

  /** The value part of the engine invariant: consistent bookkeeping and a sound scheduler. */
  ghost predicate Sound(order: seq<Container>, st: Anim, H: HomesMap, P: HostsMap, dirty: seq<Container>)
  {
    Consistent(order, st.items, H, P, dirty) && AnimOk(st)
  }

  /** A grab keeps the bookkeeping and the scheduler invariant. */
  lemma DragStartValid(st: Anim, r: Anim, order: seq<Container>, H: HomesMap, P: HostsMap, dirty: seq<Container>,
                       t: Elem, handle: Option<Elem>, rect: Option<Rect>, axes: seq<Axis>, keep: (Elem, Slot) -> bool)
    requires t in st.items && axes != [] && Sound(order, st, H, P, dirty)
    requires r == DragStartF(st, t, handle, rect, axes, keep)
    ensures Sound(order, r, H, P, dirty)
    ensures r.items[t].grabbed && forall a | a in axes :: Drags(r.items[t], a)
  {
    DragStartOk(st, t, handle, rect, axes, keep);
    DragStartCores(st, t, handle, rect, axes, keep);
    GrabbedFacts(st.items[t], t, handle, rect, axes);
    CoresLinks(st.items, r.items, t, PoisedOn(Grabbed(st.items[t], t, handle, rect), axes));
    ConsistentLinks(order, st.items, r.items, H, P, dirty);
  }

  /** A release keeps the bookkeeping and the scheduler invariant. */
  lemma DragEndValid(st: Anim, r: Anim, order: seq<Container>, H: HomesMap, P: HostsMap, dirty: seq<Container>,
                     t: Elem, axes: seq<Axis>, keep: (Elem, Slot) -> bool)
    requires t in st.items && Sound(order, st, H, P, dirty)
    requires r == DragEndF(st, t, axes, keep)
    ensures Sound(order, r, H, P, dirty)
    ensures !r.items[t].grabbed && r.items[t].throwed
  {
    var it := st.items[t].(throwed := true, grabbed := false);
    DragEndOk(st, t, axes, keep);
    DragEndCores(st, t, axes, keep);
    HomingOnFacts(it, axes);
    CoresLinks(st.items, r.items, t, HomingOn(it, axes));
    ConsistentLinks(order, st.items, r.items, H, P, dirty);
  }

  /** Records with the same cores have the same links and the same grab flags. */
  lemma SameCores(m: map<Elem, Item>, m2: map<Elem, Item>)
    requires Cores(m2) == Cores(m)
    ensures SameLinks(m, m2)
    ensures forall e | e in m :: m2[e].grabbed == m[e].grabbed
  {
    assert m2.Keys == Cores(m2).Keys;
    forall e | e in m
      ensures m2[e].container == m[e].container && m2[e].idx == m[e].idx
      ensures m2[e].childrenContainers == m[e].childrenContainers && m2[e].grabbed == m[e].grabbed
    {
      assert Cores(m2)[e] == m2[e].Core();
    }
  }

  /** A frame of the loop keeps the bookkeeping and the scheduler invariant. */
  lemma FrameValid(st: Anim, order: seq<Container>, H: HomesMap, P: HostsMap, dirty: seq<Container>,
                   keep: (Elem, Slot) -> bool)
    requires Sound(order, st, H, P, dirty)
    ensures Sound(order, Frame(st, keep), H, P, dirty)
  {
    TickKeepsSchedOk(st.items, st.queue, st.running, keep);
    FrameKeepsCores(st, keep);
    SameCores(st.items, Frame(st, keep).items);
    ConsistentLinks(order, st.items, Frame(st, keep).items, H, P, dirty);
  }

  /**
   * `addAnim` keeps the bookkeeping and the scheduler invariant unless it
   * puts anything but the drag step into a position slot of a grabbed
   * element; it never changes whether `t` is grabbed.
   */
  lemma AddAnimValid(st: Anim, order: seq<Container>, H: HomesMap, P: HostsMap, dirty: seq<Container>,
                     t: Elem, s: Slot, step: Step, keep: (Elem, Slot) -> bool)
    requires t in st.items
    ensures AddAnimF(st, t, s, step, keep).items[t].grabbed == st.items[t].grabbed
    ensures Sound(order, st, H, P, dirty) && (s.Pos? && st.items[t].grabbed ==> step == PosDrag(s.axis)) ==>
              Sound(order, AddAnimF(st, t, s, step, keep), H, P, dirty)
  {
    var r := AddAnimF(st, t, s, step, keep);
    AddAnimKeepsCores(st, t, s, step, keep);
    SameCores(st.items, r.items);
    if Sound(order, st, H, P, dirty) && (s.Pos? && st.items[t].grabbed ==> step == PosDrag(s.axis)) {
      AddAnimKeepsOk(st, t, s, step, keep);
      ConsistentLinks(order, st.items, r.items, H, P, dirty);
    }
  }

  /** Records that keep what `Kept` names keep their nesting links. */
  lemma KeptLinked(m: map<Elem, Item>, m2: map<Elem, Item>, P: HostsMap)
    requires Linked(m, P) && Kept(m, m2)
    ensures Linked(m2, P)
  {
    forall c | c in P && P[c].Some?
      ensures P[c].value in m2 && c in m2[P[c].value].childrenContainers
    {
      assert TiesOf(m2[P[c].value]) == TiesOf(m[P[c].value]);
    }
  }

  /**
   * `assign_dropzone` keeps the bookkeeping and the scheduler invariant
   * whenever the dragged element is moved consistently (`Movable`).
   */
  lemma ReflowValid(st: Anim, order: seq<Container>, H: HomesMap, P: HostsMap, dirty: seq<Container>, d: Drop,
                    boxes: map<Container, Box>, keep: (Elem, Slot) -> bool)
    requires Sound(order, st, H, P, dirty) && Movable(st, H, order, d)
    ensures Registered(st.items, H)
    ensures var r := ReflowF(st, H, order, d, boxes, keep);
            Sound(order, r.0, r.1, P, dirty)
  {
    MovableReady(st, H, order, d);
    var r := ReflowF(st, H, order, d, boxes, keep);
    if Visits(order, d.dest) && (d.lands || st.items[d.t].idx.None?) {
      ReflowKeepsOwned(st, H, order, d, boxes, keep);
    } else {
      ReflowPassesBy(st, H, order, d, boxes, keep);
    }
    KeptLinked(st.items, r.0.items, P);
  }

  /** The corrected reflow keeps the bookkeeping and the scheduler invariant for every drop from `t`'s own container. */
  lemma FixedValid(st: Anim, order: seq<Container>, H: HomesMap, P: HostsMap, dirty: seq<Container>, d: Drop,
                   boxes: map<Container, Box>, keep: (Elem, Slot) -> bool)
    requires Sound(order, st, H, P, dirty) && d.t in st.items
    requires st.items[d.t].idx.Some? && Visits(order, st.items[d.t].container) ==> Visits(order, d.dest) && d.lands
    ensures Registered(st.items, H) && st.items[d.t].container in H
    ensures var r := ReflowFixed(st, H, order, d, boxes, keep);
            Sound(order, r.0, r.1, P, dirty)
  {
    MovableReady(st, H, order, d);
    FixedKeepsOwned(st, H, order, d, boxes, keep);
    KeptLinked(st.items, ReflowFixed(st, H, order, d, boxes, keep).0.items, P);
  }

  /** `items_moved` keeps the bookkeeping and the scheduler invariant and leaves `mono.dirty` empty. */
  lemma RenderValid(st: Anim, order: seq<Container>, H: HomesMap, P: HostsMap, dirty: seq<Container>,
                    boxes: map<Container, Box>, dom: map<Elem, Container>, rects: Elem -> Option<Rect>,
                    keep: (Elem, Slot) -> bool)
    requires Sound(order, st, H, P, dirty) && Drawable(st.items, H, dirty, dom)
    ensures var r := RenderAll(st, H, dirty, boxes, dom, rects, keep);
            Sound(order, r, H, P, [])
  {
    var r := RenderAll(st, H, dirty, boxes, dom, rects, keep);
    CalmRenderAll(st, H, dirty, boxes, dom, rects, keep);
    ConsistentLinks(order, st.items, r.items, H, P, dirty);
  }

  /** Records that change only their containers and indices keep the scheduler invariant. */
  lemma SchedOkRelocated(m: map<Elem, Item>, m2: map<Elem, Item>, queue: set<Elem>, animating: bool)
    requires SchedOk(m, queue, animating) && Restore.Relocated(m, m2)
    ensures SchedOk(m2, queue, animating)
  {
    forall e | e in m2
      ensures m2[e].slots == m[e].slots && m2[e].grabbed == m[e].grabbed
    {
      assert m2[e] == m[e].(container := m2[e].container, idx := m2[e].idx);
    }
  }

  /** The bookkeeping of `reset` keeps the bookkeeping and the scheduler invariant. */
  lemma ResetValid(st: Anim, order: seq<Container>, H: HomesMap, P: HostsMap, dirty: seq<Container>,
                   self: Container, slotted: seq<Elem>, dom: map<Elem, Container>)
    requires Sound(order, st, H, P, dirty) && self in H
    requires forall t | t in dom :: dom[t] in H && (dom[t] == self ==> t in slotted)
    ensures var r := Restore.Reset(st.items, H, dirty, self, slotted, dom);
            Sound(order, st.(items := r.m), r.H, P, r.dirty)
  {
    Restore.ResetKeeps(st.items, H, P, dirty, self, slotted, dom);
    SchedOkRelocated(st.items, Restore.Reset(st.items, H, dirty, self, slotted, dom).m, st.queue, st.running);
  }

  /**
   * A drop `find_dropzone` makes from the dragged element's own container
   * seats a listed element in a laid-out container whenever that own
   * container is laid out: the container found is `self` or a visible
   * candidate, and a listed element always gets an index.
   */
  lemma OwnDrop(self: Container, cs: seq<Container>, m: map<Elem, Item>, H: HomesMap, P: HostsMap,
                boxes: map<Container, Box>, parent: Container, t: Elem, hypot: (int, int) -> real, fuel: nat)
    requires t in m && Indexed(m, H) && HypotPositive(hypot) && self == m[t].container
    ensures var cc := Pick.FindContainerF(self, cs, m, P, boxes, parent, t, hypot, fuel);
            cc.Some? && Pick.DropzoneIndex(m, H, boxes, cc.value, t).Some? ==>
              var d := DropOf(H, t, cc.value, Pick.DropzoneIndex(m, H, boxes, cc.value, t).value);
              m[t].idx.Some? && Visits(cs, self) ==> Visits(cs, d.dest) && d.lands
  {
    Pick.FindContainerFacts(self, cs, m, P, boxes, parent, t, hypot, fuel);
    var cc := Pick.FindContainerF(self, cs, m, P, boxes, parent, t, hypot, fuel);
    if cc.Some? {
      Pick.DropzoneIndexBounds(m, H, boxes, cc.value, t);
    }
  }

  /**
   * What `remove_item` leaves behind, on values: the records `m`, the
   * `homes` `H` and the hosts `P` before, and the same three after each
   * step of the removal.
   */
  lemma Removal(order: seq<Container>, m: map<Elem, Item>, H: HomesMap, P: HostsMap, dirty: seq<Container>,
                 queue: set<Elem>, animating: bool, node: Elem)
    requires Consistent(order, m, H, P, dirty) && SchedOk(m, queue, animating) && node in m
    ensures var it := m[node];
            var c := it.container;
            var H2 := if it.idx.Some? then H[c := Splice(Restore.HomesOf(H, c), it.idx.value)] else H;
            var m2 := if it.idx.Some? then Reindexed(m, H2[c]) else m;
            var m3, P3 := RemovedRecords(m, H, node), RemovedHosts(P, it.childrenContainers);
            && m2[node := it.(childrenContainers := {})] - {node} == m3
            && H2 == H[c := Without(H[c], node)]
            && Consistent(order, m3, H2, P3, Mark(dirty, c)) && SchedOk(m3, queue, animating)
  {
    var it := m[node];
    var c := it.container;
    RemoveKeeps(m, H, P, node);
    RemovedShape(m, H, node);
    SchedOkReindexed(m, RemovedRecords(m, H, node), queue, animating);
    if it.idx.Some? {
      OwnedNoDup(m, H, c);
      SpliceIsWithout(H[c], it.idx.value);
    } else if node in H[c] {
      HomeIsUnique(m, H, node, c);
    }
    var H2 := if it.idx.Some? then H[c := Splice(H[c], it.idx.value)] else H;
    var m2 := if it.idx.Some? then Reindexed(m, H2[c]) else m;
    assert m2[node := it.(childrenContainers := {})] - {node} == m2 - {node};
  }

  /** A container relaid by the reflow keeps every listed element registered. */
  lemma ReflowTurn(st: Anim, H: HomesMap, cs: seq<Container>, d: Drop, boxes: map<Container, Box>,
                   keep: (Elem, Slot) -> bool, st2: Anim, H2: HomesMap)
    requires d.t in st.items && Registered(st.items, H) && cs != []
    requires !cs[0].visible ==> st2 == st && H2 == H
    requires cs[0].visible ==>
               var cur := LayOut(st, HomesOf(H, cs[0]), d, cs[0], cs[0].AB(), BoxOf(boxes, cs[0]), keep);
               st2 == cur.st && H2 == H[cs[0] := cur.placed]
    ensures d.t in st2.items && Registered(st2.items, H2)
    ensures ReflowF(st, H, cs, d, boxes, keep) == ReflowF(st2, H2, cs[1..], d, boxes, keep)
  {
  }

  /** One turn of `assign_dropzone`'s inner loop, given the cursor after `setZone` and after the element. */
  lemma LayTurn(h: seq<Elem>, cur: Cursor, cur1: Cursor, cur2: Cursor, d: Drop, c: Container, ab: AxisPair, oB: int,
                keep: (Elem, Slot) -> bool)
    requires d.t in cur.st.items && (forall e | e in h :: e in cur.st.items) && h != []
    requires cur1 == if d.Into(c) && d.zoneIdx == cur.idx then ZoneIn(cur, d.t, c, ab, oB) else cur
    requires cur2 == if h[0] == d.t then cur1 else Place(cur1, h[0], ab, oB, keep)
    ensures Lay(h, cur, d, c, ab, oB, keep) == Lay(h[1..], cur2, d, c, ab, oB, keep)
  {
  }
}
