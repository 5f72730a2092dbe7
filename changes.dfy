/**
 * What a container reports about unsaved changes: `is_altered` compares
 * its `homes` with its DOM children, `elements_added` lists the elements it
 * holds that its slot does not show, and `elements_removed` lists the
 * registered elements its slot shows that now belong to another container.
 * After `reset` there is nothing to report.
 */
module Changes {
  import opened Wrappers
  import opened Seqs
  import opened Records
  import opened Registry
  import Restore

  /** `is_altered`: `homes` differs from the children, in length or at some position. */
  predicate Altered(h: seq<Elem>, children: seq<Elem>)
  {
    h != children
  }

  /**
   * `commit()`: when `homes` differs from the DOM children, the children are
   * replaced by a copy of `homes` (`elements()`); each element of it is
   * moved under `self`, a former child it does not hold is detached, and
   * every other element keeps its parent. `children` are the elements whose
   * parent is `self`. Returns the children and the parent map after.
   */
  function Commit(self: Container, h: seq<Elem>, children: seq<Elem>, dom: map<Elem, Container>)
    : (r: (seq<Elem>, map<Elem, Container>))
    requires forall e | e in dom && dom[e] == self :: e in children
    requires forall e | e in children :: e in dom && dom[e] == self
    ensures r.0 == h && !Altered(h, r.0)
    ensures forall e | e in h :: e in r.1 && r.1[e] == self
    ensures forall e | e in r.1 && r.1[e] == self :: e in h
    ensures forall e | e in dom && dom[e] != self && e !in h :: e in r.1 && r.1[e] == dom[e]
    ensures forall e | e in r.1 && e !in h :: e in dom && dom[e] == r.1[e]
  {
    if !Altered(h, children) then
      assert forall e | e in dom && dom[e] == self :: e in h;
      (children, dom)
    else
      (h[..], map e | e in (set x | x in h) + (set x | x in dom && dom[x] != self) :: if e in h then self else dom[e])
  }

  /** `element_origin(target)`: the DOM parent of a registered element; nothing for an unregistered one. */
  function Origin(m: map<Elem, Item>, dom: map<Elem, Container>, t: Elem): (r: Option<Container>)
    ensures r.Some? <==> t in m && t in dom
    ensures r.Some? ==> r.value == dom[t]
  {
    if t !in m || t !in dom then None else Some(dom[t])
  }

  /** `element_home(target)`: the container a registered element is placed in now; nothing for an unregistered one. */
  function Home(m: map<Elem, Item>, t: Elem): (r: Option<Container>)
    ensures r.Some? <==> t in m
    ensures r.Some? ==> r.value == m[t].container
  {
    if t !in m then None else Some(m[t].container)
  }

  /** `elements_added`: the elements of `h` the slot does not show, in the order of `h`. */
  function Added(h: seq<Elem>, slotted: seq<Elem>): (r: seq<Elem>)
    ensures forall e | e in r :: e in h && e !in slotted
    ensures forall e | e in h && e !in slotted :: e in r
    ensures (forall e | e in h :: e in slotted) ==> r == []
    decreases |h|
  {
    if h == [] then []
    else
      assert h == [h[0]] + h[1..];
      (if h[0] in slotted then [] else [h[0]]) + Added(h[1..], slotted)
  }

  /** `elements_removed`: the registered slotted elements whose record names another container, in slot order. */
  function Removed(m: map<Elem, Item>, self: Container, slotted: seq<Elem>): (r: seq<Elem>)
    ensures forall e | e in r :: e in slotted && e in m && m[e].container != self
    ensures forall e | e in slotted && e in m && m[e].container != self :: e in r
    ensures |r| <= |slotted|
    decreases |slotted|
  {
    if slotted == [] then []
    else
      assert slotted == [slotted[0]] + slotted[1..];
      var e := slotted[0];
      (if e in m && m[e].container != self then [e] else []) + Removed(m, self, slotted[1..])
  }

  /** The loop of `is_altered`: the first position where the two lists differ, if any. */
  method IsAltered(h: seq<Elem>, children: seq<Elem>) returns (altered: bool)
    ensures altered == Altered(h, children)
  {
    if |h| != |children| {
      return true;
    }
    var i := 0;
    while i < |h|
      invariant 0 <= i <= |h|
      invariant h[..i] == children[..i]
    {
      if h[i] != children[i] {
        return true;
      }
      i := i + 1;
    }
    assert h == h[..i] && children == children[..i];
    return false;
  }

  /** The loop of `elements_added`. */
  method ElementsAdded(h: seq<Elem>, slotted: seq<Elem>) returns (list: seq<Elem>)
    ensures list == Added(h, slotted)
  {
    list := [];
    var i := 0;
    while i < |h|
      invariant 0 <= i <= |h|
      invariant Added(h, slotted) == list + Added(h[i..], slotted)
    {
      assert h[i..][1..] == h[i + 1..];
      var el := h[i];
      var step := if el in slotted then [] else [el];
      ConcatAssoc(list, step, Added(h[i + 1..], slotted));
      list := list + step;
      i := i + 1;
    }
    assert list + [] == list;
  }

  /** The loop of `elements_removed`. */
  method ElementsRemoved(m: map<Elem, Item>, self: Container, slotted: seq<Elem>) returns (list: seq<Elem>)
    ensures list == Removed(m, self, slotted)
  {
    list := [];
    var i := 0;
    while i < |slotted|
      invariant 0 <= i <= |slotted|
      invariant Removed(m, self, slotted) == list + Removed(m, self, slotted[i..])
    {
      assert slotted[i..][1..] == slotted[i + 1..];
      var child := slotted[i];
      var step := if child in m && m[child].container != self then [child] else [];
      ConcatAssoc(list, step, Removed(m, self, slotted[i + 1..]));
      list := list + step;
      i := i + 1;
    }
    assert list + [] == list;
  }

  /** No element is reported twice when the list it walks holds none twice. */
  lemma {:induction false} AddedNoDup(h: seq<Elem>, slotted: seq<Elem>)
    requires NoDup(h)
    ensures NoDup(Added(h, slotted))
    decreases |h|
  {
    if h != [] {
      assert NoDup(h[1..]);
      AddedNoDup(h[1..], slotted);
    }
  }

  /**
   * After `reset`, the container holds exactly what its slot shows: no
   * element is reported added and none reported removed.
   */
  lemma ResetSettles(m: map<Elem, Item>, H: HomesMap, dirty: seq<Container>, self: Container,
                     slotted: seq<Elem>, dom: map<Elem, Container>)
    requires Owned(m, H) && self in H
    requires NoDup(dirty) && forall c | c in dirty :: c in H
    requires forall t | t in dom :: dom[t] in H && (dom[t] == self ==> t in slotted)
    ensures var r := Restore.Reset(m, H, dirty, self, slotted, dom);
            Added(r.H[self], slotted) == [] && Removed(r.m, self, slotted) == []
  {
    var r := Restore.Reset(m, H, dirty, self, slotted, dom);
    Restore.ResetTakes(m, H, dirty, self, slotted, dom);
    Restore.ResetKeeps(m, H, map[], dirty, self, slotted, dom);
    var d := Removed(r.m, self, slotted);
    if d != [] {
      var e := d[0];
      assert e in d;
      assert e in r.H[self];
      HomeIsUnique(r.m, r.H, e, self);
    }
  }

  /**
   * After `reset`, `element_home` names `self` for every registered element
   * the slot shows, and agrees with `element_origin` for every element
   * `self` gave back to a DOM parent.
   */
  lemma ResetHomes(m: map<Elem, Item>, H: HomesMap, dirty: seq<Container>, self: Container,
                   slotted: seq<Elem>, dom: map<Elem, Container>)
    requires Owned(m, H) && self in H
    requires NoDup(dirty) && forall c | c in dirty :: c in H
    requires forall t | t in dom :: dom[t] in H && (dom[t] == self ==> t in slotted)
    ensures var r := Restore.Reset(m, H, dirty, self, slotted, dom);
            && (forall e | e in slotted && e in m :: Home(r.m, e) == Some(self))
            && (forall e | e in H[self] && e !in slotted && e in dom :: Home(r.m, e) == Origin(r.m, dom, e))
  {
    var r := Restore.Reset(m, H, dirty, self, slotted, dom);
    Restore.ResetTakes(m, H, dirty, self, slotted, dom);
    Restore.ResetKeeps(m, H, map[], dirty, self, slotted, dom);
    Restore.ResetGivesBack(m, H, dirty, self, slotted, dom);
    forall e | e in slotted && e in m
      ensures Home(r.m, e) == Some(self)
    {
      var j :| 0 <= j < |r.H[self]| && r.H[self][j] == e;
      assert ListedAt(r.m, r.H, self, j);
    }
  }
}
