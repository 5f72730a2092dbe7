/**
 * The frame scheduler, on values. Every item holds at most one step per
 * slot; the global queue (`mono.animQueue`) holds the elements with pending
 * slots; a tick runs every queued element's steps once and drops the slots
 * whose step asked to stop. Steps are abstract: the drag step always asks
 * to continue, the rotation recovery stops as soon as the item is grabbed,
 * and every other answer comes from the oracle `keep`.
 */
module Scheduler {
  import opened Axes
  import opened Records

  /** Whether the step in slot `s` of element `t` asks to run again. */
  function Continues(t: Elem, it: Item, s: Slot, keep: (Elem, Slot) -> bool): bool
    requires s in it.slots
  {
    match it.slots[s]
    case PosDrag(_) => true
    case RotateRecover(_) => !it.grabbed && keep(t, s)
    case _ => keep(t, s)
  }

  /** One tick of one element: the slots whose step returned false are deleted. */
  function TickSlots(t: Elem, it: Item, keep: (Elem, Slot) -> bool): map<Slot, Step>
  {
    map s | s in it.slots && Continues(t, it, s, keep) :: it.slots[s]
  }

  /** One tick of the registry: every queued registered element runs its steps. */
  function TickItems(items: map<Elem, Item>, queue: set<Elem>, keep: (Elem, Slot) -> bool): map<Elem, Item>
  {
    map t | t in items :: if t in queue then items[t].(slots := TickSlots(t, items[t], keep)) else items[t]
  }

  /** The queue after a tick: unregistered elements and elements left without slots are dropped. */
  function TickQueue(items: map<Elem, Item>, queue: set<Elem>, keep: (Elem, Slot) -> bool): set<Elem>
  {
    set t | t in queue && t in items && TickSlots(t, items[t], keep) != map[]
  }

  /**
   * Running the frame for one more pending element `t` (with `done` already
   * run) advances the registry and the queue from the tick of `done` to the
   * tick of `done + {t}`.
   */
  lemma TickAdvance(items: map<Elem, Item>, done: set<Elem>, pending: set<Elem>, t: Elem, keep: (Elem, Slot) -> bool)
    requires t in pending && t !in done
    ensures var cur := TickItems(items, done, keep);
            var q := TickQueue(items, done, keep) + pending;
            && cur.Keys == items.Keys
            && (t in items ==> cur[t] == items[t])
            && (if t in cur then cur[t := cur[t].(slots := TickSlots(t, cur[t], keep))] else cur)
               == TickItems(items, done + {t}, keep)
            && (if t in cur && TickSlots(t, cur[t], keep) != map[] then q else q - {t})
               == TickQueue(items, done + {t}, keep) + (pending - {t})
  {
    var q0 := TickQueue(items, done, keep);
    assert t !in q0;
    var q1 := TickQueue(items, done + {t}, keep);
    if t in items && TickSlots(t, items[t], keep) != map[] {
      assert q1 == q0 + {t};
    } else {
      assert q1 == q0;
    }
  }

  /** `item.animQueue.set(slot, fn)`. */
  function Install(items: map<Elem, Item>, t: Elem, s: Slot, step: Step): map<Elem, Item>
    requires t in items
  {
    items[t := items[t].(slots := items[t].slots[s := step])]
  }

  /** Slot `pos{a}` holds the drag step of axis `a`. */
  predicate Drags(it: Item, a: Axis)
  {
    Pos(a) in it.slots && it.slots[Pos(a)] == PosDrag(a)
  }

  predicate HasDrag(it: Item)
  {
    Drags(it, Axes.X) || Drags(it, Axes.Y)
  }

  /**
   * The loop runs exactly while the queue is non-empty, and every registered
   * element with a pending slot is queued.
   */
  ghost predicate QueueOk(items: map<Elem, Item>, queue: set<Elem>, animating: bool)
  {
    && (animating <==> queue != {})
    && (forall t | t in items && items[t].slots != map[] :: t in queue)
  }

  /** A grabbed item is being dragged along at least one axis. */
  ghost predicate DragOk(items: map<Elem, Item>)
  {
    forall t | t in items && items[t].grabbed :: HasDrag(items[t])
  }

  ghost predicate SchedOk(items: map<Elem, Item>, queue: set<Elem>, animating: bool)
  {
    QueueOk(items, queue, animating) && DragOk(items)
  }

  /** Records that only lose entries or change their index keep the scheduler invariant. */
  lemma SchedOkReindexed(items: map<Elem, Item>, items': map<Elem, Item>, queue: set<Elem>, animating: bool)
    requires SchedOk(items, queue, animating)
    requires items'.Keys <= items.Keys
    requires forall e | e in items' :: items'[e] == items[e].(idx := items'[e].idx)
    ensures SchedOk(items', queue, animating)
  {
    forall t | t in items' && items'[t].grabbed
      ensures HasDrag(items'[t])
    {
      assert items'[t].slots == items[t].slots;
    }
  }

  /** A grabbed item keeps the loop running. */
  lemma GrabbedAnimates(items: map<Elem, Item>, queue: set<Elem>, animating: bool, t: Elem)
    requires SchedOk(items, queue, animating) && t in items && items[t].grabbed
    ensures t in queue && animating
  {
  }

  /**
   * A tick keeps exactly the slots whose step continues, with their steps,
   * and touches nothing else of a record.
   */
  lemma TickSlotsFacts(t: Elem, it: Item, keep: (Elem, Slot) -> bool, s: Slot)
    ensures s in TickSlots(t, it, keep) <==> s in it.slots && Continues(t, it, s, keep)
    ensures s in TickSlots(t, it, keep) ==> TickSlots(t, it, keep)[s] == it.slots[s]
    ensures s in it.slots && it.slots[s].PosDrag? ==> s in TickSlots(t, it, keep)
    ensures s in it.slots && it.slots[s].RotateRecover? && it.grabbed ==> s !in TickSlots(t, it, keep)
  {
  }

  /** A tick keeps the queue in step with the records, whatever the steps answer. */
  lemma TickKeepsSchedOk(items: map<Elem, Item>, queue: set<Elem>, animating: bool, keep: (Elem, Slot) -> bool)
    requires SchedOk(items, queue, animating)
    ensures var q := TickQueue(items, queue, keep);
            SchedOk(TickItems(items, queue, keep), q, q != {})
  {
    var items', q := TickItems(items, queue, keep), TickQueue(items, queue, keep);
    forall t | t in items' && items'[t].grabbed
      ensures HasDrag(items'[t])
    {
      if t in queue {
        if Drags(items[t], Axes.X) {
          TickSlotsFacts(t, items[t], keep, Pos(Axes.X));
        } else {
          TickSlotsFacts(t, items[t], keep, Pos(Axes.Y));
        }
      }
    }
  }

  /**
   * Installing a step replaces whatever the slot held and keeps the other
   * slots; with the element queued and the loop marked running, the queue
   * stays in step, and a grabbed item keeps its drag unless that very slot
   * is given another step.
   */
  lemma InstallFacts(items: map<Elem, Item>, queue: set<Elem>, animating: bool, t: Elem, s: Slot, step: Step)
    requires t in items
    ensures var r := Install(items, t, s, step);
            && r.Keys == items.Keys
            && r[t].slots.Keys == items[t].slots.Keys + {s} && r[t].slots[s] == step
            && (forall s2 | s2 in items[t].slots && s2 != s :: r[t].slots[s2] == items[t].slots[s2])
    ensures QueueOk(items, queue, animating) ==> QueueOk(Install(items, t, s, step), queue + {t}, true)
    ensures DragOk(items) && (s.Pos? ==> step == PosDrag(s.axis) || !items[t].grabbed) ==>
              DragOk(Install(items, t, s, step))
  {
  }

  // ---- the loop as a whole ----------------------------------------------

  /**
   * The scheduler state: the records (whose slot maps are the per-item
   * queues), `mono.animQueue`, and whether `mono.animLoop` is defined.
   */
  datatype Anim = Anim(items: map<Elem, Item>, queue: set<Elem>, running: bool)

  ghost predicate AnimOk(st: Anim)
  {
    SchedOk(st.items, st.queue, st.running)
  }

  /**
   * One frame of `animLoop`: every queued element runs its steps once, and
   * the loop stays defined exactly when the queue is left non-empty
   * (`stopAnim` otherwise).
   */
  function Frame(st: Anim, keep: (Elem, Slot) -> bool): (r: Anim)
    ensures r.items.Keys == st.items.Keys
  {
    var q := TickQueue(st.items, st.queue, keep);
    Anim(TickItems(st.items, st.queue, keep), q, q != {})
  }

  /**
   * `addAnim`: install `step` in slot `s` of `t`, queue `t`, and when the
   * loop is idle start it; `startAnim` runs the first frame at once.
   */
  function AddAnimF(st: Anim, t: Elem, s: Slot, step: Step, keep: (Elem, Slot) -> bool): (r: Anim)
    requires t in st.items
    ensures r.items.Keys == st.items.Keys
  {
    var st1 := Anim(Install(st.items, t, s, step), st.queue + {t}, true);
    if st.running then st1 else Frame(st1, keep)
  }

  /** The records without their slot maps. */
  function Cores(m: map<Elem, Item>): map<Elem, Item>
  {
    map e | e in m :: m[e].Core()
  }

  /** Scheduling never touches anything of a record but its slots. */
  lemma FrameKeepsCores(st: Anim, keep: (Elem, Slot) -> bool)
    ensures Cores(Frame(st, keep).items) == Cores(st.items)
  {
  }

  lemma AddAnimKeepsCores(st: Anim, t: Elem, s: Slot, step: Step, keep: (Elem, Slot) -> bool)
    requires t in st.items
    ensures Cores(AddAnimF(st, t, s, step, keep).items) == Cores(st.items)
  {
    var st1 := Anim(Install(st.items, t, s, step), st.queue + {t}, true);
    assert Cores(st1.items) == Cores(st.items);
    FrameKeepsCores(st1, keep);
  }

  /**
   * `addAnim` keeps the queue in step with the records, and keeps every
   * grabbed item dragged unless it puts another step into that item's
   * drag slot.
   */
  lemma AddAnimKeepsOk(st: Anim, t: Elem, s: Slot, step: Step, keep: (Elem, Slot) -> bool)
    requires t in st.items && AnimOk(st)
    requires s.Pos? && st.items[t].grabbed ==> step == PosDrag(s.axis)
    ensures AnimOk(AddAnimF(st, t, s, step, keep))
  {
    InstallFacts(st.items, st.queue, st.running, t, s, step);
    var st1 := Anim(Install(st.items, t, s, step), st.queue + {t}, true);
    if !st.running {
      TickKeepsSchedOk(st1.items, st1.queue, true, keep);
    }
  }

  /**
   * A drag step, once installed, survives every later frame and install
   * that does not overwrite its slot.
   */
  lemma AddAnimKeepsDrags(st: Anim, t: Elem, s: Slot, step: Step, keep: (Elem, Slot) -> bool, u: Elem, a: Axis)
    requires t in st.items && u in st.items
    requires (u == t && s == Pos(a) && step == PosDrag(a)) || (Drags(st.items[u], a) && (u != t || s != Pos(a)))
    ensures Drags(AddAnimF(st, t, s, step, keep).items[u], a)
  {
    var st1 := Anim(Install(st.items, t, s, step), st.queue + {t}, true);
    assert Drags(st1.items[u], a);
    if !st.running {
      TickSlotsFacts(u, st1.items[u], keep, Pos(a));
    }
  }

  /** `addAnim` keeps every registered element with a pending slot queued, and the loop defined exactly while the queue is not empty. */
  lemma AddAnimKeepsQueueOk(st: Anim, t: Elem, s: Slot, step: Step, keep: (Elem, Slot) -> bool)
    requires t in st.items && QueueOk(st.items, st.queue, st.running)
    ensures var r := AddAnimF(st, t, s, step, keep);
            QueueOk(r.items, r.queue, r.running)
  {
    InstallFacts(st.items, st.queue, st.running, t, s, step);
    var st1 := Anim(Install(st.items, t, s, step), st.queue + {t}, true);
    if !st.running {
      var items', q := TickItems(st1.items, st1.queue, keep), TickQueue(st1.items, st1.queue, keep);
      forall u | u in items' && items'[u].slots != map[] ensures u in q {
      }
    }
  }
}
