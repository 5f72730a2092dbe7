/**
 * The registry invariant, on values: the records (`mono.items`), every
 * container's `homes` and every container's `parent_target`, and what the
 * bookkeeping operations do to them.
 */
module Registry {
  import opened Wrappers
  import opened Seqs
  import opened Records

  /** Each container's `homes`. */
  type HomesMap = map<Container, seq<Elem>>

  /** Each container's `parent_target`. */
  type HostsMap = map<Container, Option<Elem>>

  /** Every record refers to known containers only. */
  ghost predicate Closed(m: map<Elem, Item>, H: HomesMap)
  {
    && (forall e | e in m :: m[e].container in H)
    && (forall e, cc | e in m && cc in m[e].childrenContainers :: cc in H)
  }

  /** `homes[i].idx == i`: every listed element is registered with that container and that index. */
  ghost predicate Listed(m: map<Elem, Item>, H: HomesMap)
  {
    forall c, j | c in H && 0 <= j < |H[c]| :: ListedAt(m, H, c, j)
  }

  /** The element at position `j` of `c`'s `homes` is registered with `c` and index `j`. */
  predicate ListedAt(m: map<Elem, Item>, H: HomesMap, c: Container, j: nat)
    requires c in H && j < |H[c]|
  {
    H[c][j] in m && m[H[c][j]].container == c && m[H[c][j]].idx == Some(j)
  }

  /** Every record with an index is listed at that index of its container. */
  ghost predicate Indexed(m: map<Elem, Item>, H: HomesMap)
  {
    forall e | e in m && m[e].idx.Some? ::
      m[e].container in H && m[e].idx.value < |H[m[e].container]| && H[m[e].container][m[e].idx.value] == e
  }

  /**
   * The bookkeeping invariant. It makes every element sit in at most one
   * `homes`, at most once.
   */
  ghost predicate Owned(m: map<Elem, Item>, H: HomesMap)
  {
    Closed(m, H) && Listed(m, H) && Indexed(m, H)
  }

  /** A nested container's host is registered and lists it among its `children_containers`. */
  ghost predicate Linked(m: map<Elem, Item>, P: HostsMap)
  {
    forall c | c in P && P[c].Some? :: P[c].value in m && c in m[P[c].value].childrenContainers
  }

  /** Two registries agree on everything the invariant looks at. */
  ghost predicate SameLinks(m: map<Elem, Item>, m2: map<Elem, Item>)
  {
    && m2.Keys == m.Keys
    && (forall e | e in m ::
          m2[e].container == m[e].container && m2[e].idx == m[e].idx &&
          m2[e].childrenContainers == m[e].childrenContainers)
  }

  lemma OwnedAt(m: map<Elem, Item>, H: HomesMap, c: Container, j: nat)
    requires Owned(m, H) && c in H && j < |H[c]|
    ensures H[c][j] in m && m[H[c][j]].container == c && m[H[c][j]].idx == Some(j)
  {
    assert ListedAt(m, H, c, j);
  }

  /** No element is listed twice in one container. */
  lemma OwnedNoDup(m: map<Elem, Item>, H: HomesMap, c: Container)
    requires Owned(m, H) && c in H
    ensures NoDup(H[c])
  {
    forall i, j | 0 <= i < j < |H[c]| ensures H[c][i] != H[c][j] {
      OwnedAt(m, H, c, i);
      OwnedAt(m, H, c, j);
    }
  }

  /** An element listed in a container belongs to it, at its own index. */
  lemma HomeIsUnique(m: map<Elem, Item>, H: HomesMap, e: Elem, c: Container)
    requires Owned(m, H) && c in H && e in H[c]
    ensures e in m && m[e].container == c && m[e].idx.Some?
    ensures m[e].idx.value < |H[c]| && H[c][m[e].idx.value] == e
  {
    var j :| 0 <= j < |H[c]| && H[c][j] == e;
    OwnedAt(m, H, c, j);
  }

  /** A registered element without an index is listed nowhere in its container. */
  lemma UnindexedUnlisted(m: map<Elem, Item>, H: HomesMap, node: Elem)
    requires Owned(m, H) && node in m && m[node].idx.None?
    ensures m[node].container in H && node !in H[m[node].container]
  {
    var c := m[node].container;
    if node in H[c] {
      HomeIsUnique(m, H, node, c);
      assert false;
    }
  }

  /** The invariant only looks at containers, indices and nested containers. */
  lemma SameLinksKeep(m: map<Elem, Item>, m2: map<Elem, Item>, H: HomesMap, P: HostsMap)
    requires SameLinks(m, m2)
    ensures Owned(m, H) ==> Owned(m2, H)
    ensures Linked(m, P) ==> Linked(m2, P)
  {
    if Owned(m, H) {
      forall c, j | c in H && 0 <= j < |H[c]|
        ensures ListedAt(m2, H, c, j)
      {
        OwnedAt(m, H, c, j);
      }
    }
  }

  // ---- reindex -----------------------------------------------------------

  /**
   * The records after `reindex` of the order `hs`: a listed registered
   * element gets the position of its last occurrence as index; the others
   * are untouched.
   */
  function Reindexed(m: map<Elem, Item>, hs: seq<Elem>): map<Elem, Item>
  {
    map e | e in m :: if e in hs then m[e].(idx := Some(LastIndexOf(hs, e))) else m[e]
  }

  /**
   * With no element listed twice, every listed element ends up with its
   * own position as index (`homes[i].idx == i`), and nothing but indices
   * changes.
   */
  lemma ReindexedFacts(m: map<Elem, Item>, hs: seq<Elem>)
    requires NoDup(hs)
    ensures Reindexed(m, hs).Keys == m.Keys
    ensures forall j | 0 <= j < |hs| && hs[j] in m :: Reindexed(m, hs)[hs[j]].idx == Some(j)
    ensures forall e | e in m && e !in hs :: Reindexed(m, hs)[e] == m[e]
    ensures forall e | e in m :: Reindexed(m, hs)[e] == m[e].(idx := Reindexed(m, hs)[e].idx)
  {
    forall j | 0 <= j < |hs| && hs[j] in m
      ensures Reindexed(m, hs)[hs[j]].idx == Some(j)
    {
      LastIndexOfNoDup(hs, j);
    }
  }

  lemma ReindexedSnoc(m: map<Elem, Item>, hs: seq<Elem>, x: Elem)
    ensures Reindexed(m, hs + [x]) ==
            if x in m then Reindexed(m, hs)[x := m[x].(idx := Some(|hs|))] else Reindexed(m, hs)
  {
    var l := Reindexed(m, hs + [x]);
    var r := if x in m then Reindexed(m, hs)[x := m[x].(idx := Some(|hs|))] else Reindexed(m, hs);
    forall e | e in m ensures l[e] == r[e] {
      if e != x && e in hs + [x] {
        assert e in hs;
        assert LastIndexOf(hs + [x], e) == LastIndexOf(hs, e);
      }
    }
  }

  // ---- remove_item -------------------------------------------------------

  /** The records after `remove_item(node)`: the container reindexed when `node` had an index, `node` gone. */
  function RemovedRecords(m: map<Elem, Item>, H: HomesMap, node: Elem): map<Elem, Item>
    requires node in m && m[node].container in H
  {
    var c := m[node].container;
    (if m[node].idx.Some? then Reindexed(m, Without(H[c], node)) else m) - {node}
  }

  /** The hosts after `remove_item(node)`: every container nested in `node` has none. */
  function RemovedHosts(P: HostsMap, ccs: set<Container>): HostsMap
  {
    map c | c in P :: if c in ccs then None else P[c]
  }

  /** Clearing the hosts of a set one container at a time. */
  lemma RemovedHostsAdd(P: HostsMap, ccs: set<Container>, d: Container)
    requires d in P
    ensures RemovedHosts(P, ccs + {d}) == RemovedHosts(P, ccs)[d := None]
  {
  }

  lemma RemovedHostsSkip(P: HostsMap, ccs: set<Container>, d: Container)
    requires d !in P
    ensures RemovedHosts(P, ccs + {d}) == RemovedHosts(P, ccs)
  {
  }

  /**
   * Removing a registered element keeps the invariant: its container lists
   * the others in the same order, each at its new index, and no container
   * is left pointing at it as host.
   */
  lemma RemoveKeeps(m: map<Elem, Item>, H: HomesMap, P: HostsMap, node: Elem)
    requires Owned(m, H) && Linked(m, P) && node in m
    ensures var c := m[node].container;
            && Owned(RemovedRecords(m, H, node), H[c := Without(H[c], node)])
            && Linked(RemovedRecords(m, H, node), RemovedHosts(P, m[node].childrenContainers))
  {
    RemoveOwned(m, H, node);
  }

  /** The bookkeeping half of `RemoveKeeps`, which needs nothing of the hosts. */
  lemma RemoveOwned(m: map<Elem, Item>, H: HomesMap, node: Elem)
    requires Owned(m, H) && node in m
    ensures var c := m[node].container;
            Owned(RemovedRecords(m, H, node), H[c := Without(H[c], node)])
  {
    RemovedShape(m, H, node);
    RemoveListed(m, H, node);
    RemoveIndexed(m, H, node);
  }

  /** Removal deletes `node` and changes nothing but indices. */
  lemma RemovedShape(m: map<Elem, Item>, H: HomesMap, node: Elem)
    requires node in m && m[node].container in H
    ensures var m' := RemovedRecords(m, H, node);
            && m'.Keys == m.Keys - {node}
            && forall e | e in m' :: m'[e] == m[e].(idx := m'[e].idx)
  {
  }

  lemma RemoveListed(m: map<Elem, Item>, H: HomesMap, node: Elem)
    requires Owned(m, H) && node in m
    ensures var c := m[node].container;
            Listed(RemovedRecords(m, H, node), H[c := Without(H[c], node)])
  {
    var c := m[node].container;
    var H' := H[c := Without(H[c], node)];
    var m' := RemovedRecords(m, H, node);
    forall d, j | d in H' && 0 <= j < |H'[d]|
      ensures ListedAt(m', H', d, j)
    {
      RemoveListedAt(m, H, node, d, j);
    }
  }

  lemma RemoveListedAt(m: map<Elem, Item>, H: HomesMap, node: Elem, d: Container, j: nat)
    requires Owned(m, H) && node in m
    requires var c := m[node].container;
             d in H && j < |H[c := Without(H[c], node)][d]|
    ensures var c := m[node].container;
            var H' := H[c := Without(H[c], node)];
            var m' := RemovedRecords(m, H, node);
            H'[d][j] in m' && m'[H'[d][j]].container == d && m'[H'[d][j]].idx == Some(j)
  {
    if d == m[node].container {
      RemoveListedHere(m, H, node, j);
    } else {
      RemoveListedElsewhere(m, H, node, d, j);
    }
  }

  lemma RemoveListedHere(m: map<Elem, Item>, H: HomesMap, node: Elem, j: nat)
    requires Owned(m, H) && node in m
    requires j < |Without(H[m[node].container], node)|
    ensures var c := m[node].container;
            var w := Without(H[c], node);
            var m' := RemovedRecords(m, H, node);
            w[j] in m' && m'[w[j]].container == c && m'[w[j]].idx == Some(j)
  {
    var c := m[node].container;
    var w := Without(H[c], node);
    assert w[j] in H[c];
    HomeIsUnique(m, H, w[j], c);
    if m[node].idx.None? {
      UnindexedUnlisted(m, H, node);
      assert w == H[c];
      OwnedAt(m, H, c, j);
    } else {
      OwnedNoDup(m, H, c);
      WithoutNoDup(H[c], node);
      ReindexedFacts(m, w);
    }
  }

  lemma RemoveListedElsewhere(m: map<Elem, Item>, H: HomesMap, node: Elem, d: Container, j: nat)
    requires Owned(m, H) && node in m
    requires d in H && d != m[node].container && j < |H[d]|
    ensures var m' := RemovedRecords(m, H, node);
            H[d][j] in m' && m'[H[d][j]].container == d && m'[H[d][j]].idx == Some(j)
  {
    var c := m[node].container;
    var w := Without(H[c], node);
    OwnedAt(m, H, d, j);
    assert H[d][j] !in w by {
      if H[d][j] in w {
        HomeIsUnique(m, H, H[d][j], c);
      }
    }
  }

  lemma RemoveIndexed(m: map<Elem, Item>, H: HomesMap, node: Elem)
    requires Owned(m, H) && node in m
    ensures var c := m[node].container;
            Indexed(RemovedRecords(m, H, node), H[c := Without(H[c], node)])
  {
    var c := m[node].container;
    var H' := H[c := Without(H[c], node)];
    var m' := RemovedRecords(m, H, node);
    forall e | e in m' && m'[e].idx.Some?
      ensures m'[e].container in H' && m'[e].idx.value < |H'[m'[e].container]|
      ensures H'[m'[e].container][m'[e].idx.value] == e
    {
      RemoveIndexedAt(m, H, node, e);
    }
  }

  lemma RemoveIndexedAt(m: map<Elem, Item>, H: HomesMap, node: Elem, e: Elem)
    requires Owned(m, H) && node in m
    requires e in RemovedRecords(m, H, node) && RemovedRecords(m, H, node)[e].idx.Some?
    ensures var c := m[node].container;
            var H' := H[c := Without(H[c], node)];
            var m' := RemovedRecords(m, H, node);
            && m'[e].container in H' && m'[e].idx.value < |H'[m'[e].container]|
            && H'[m'[e].container][m'[e].idx.value] == e
  {
    var c := m[node].container;
    var w := Without(H[c], node);
    var m' := RemovedRecords(m, H, node);
    assert e != node && e in m;
    var d := m[e].container;
    assert m'[e].container == d;
    if m[node].idx.Some? && e in w {
      OwnedNoDup(m, H, c);
      HomeIsUnique(m, H, e, c);
      assert m'[e].idx == Some(LastIndexOf(w, e));
    } else {
      assert m'[e] == m[e];
      var i := m[e].idx.value;
      assert d in H && i < |H[d]| && H[d][i] == e;
      if d == c {
        if m[node].idx.Some? {
          assert false;
        } else {
          UnindexedUnlisted(m, H, node);
        }
      }
    }
  }

  /**
   * What `remove_item` does, step by step, is the removal above: splicing
   * out the recorded index removes exactly `node` from its container, and
   * reindexing the spliced list then dropping the record gives the records
   * `RemovedRecords` describes.
   */
  lemma RemoveAsWritten(m: map<Elem, Item>, H: HomesMap, node: Elem)
    requires Owned(m, H) && node in m
    ensures var it := m[node];
            var c := it.container;
            && c in H
            && (it.idx.Some? ==> Splice(H[c], it.idx.value) == Without(H[c], node))
            && (it.idx.None? ==> H[c] == Without(H[c], node))
            && (if it.idx.Some? then Reindexed(m, Splice(H[c], it.idx.value)) else m) - {node}
               == RemovedRecords(m, H, node)
  {
    var it := m[node];
    var c := it.container;
    if it.idx.Some? {
      OwnedNoDup(m, H, c);
      SpliceIsWithout(H[c], it.idx.value);
    } else {
      UnindexedUnlisted(m, H, node);
    }
  }

  // ---- taking a dragged element out of a hidden container -------------------

  /**
   * The listed element `t` taken out of its container's `homes`, that list
   * reindexed, and `t` left registered with that container but without an
   * index (the step a reflow needs before seating `t` elsewhere when its
   * container is hidden and so is not rebuilt).
   */
  function Unlisted(m: map<Elem, Item>, H: HomesMap, t: Elem): (r: (map<Elem, Item>, HomesMap))
    requires t in m && m[t].container in H
    ensures r.0.Keys == m.Keys && r.1.Keys == H.Keys
    ensures forall c | c in r.1 && c != m[t].container :: r.1[c] == H[c]
    ensures t !in r.1[m[t].container] && forall e | e in r.1[m[t].container] :: e in H[m[t].container]
  {
    var c := m[t].container;
    var h := Without(H[c], t);
    (Reindexed(m, h)[t := m[t].(idx := None)], H[c := h])
  }

  /**
   * Unlisting keeps the invariant and the host links; no container lists
   * `t` afterwards, and every record changes its index at most.
   */
  lemma UnlistKeeps(m: map<Elem, Item>, H: HomesMap, P: HostsMap, t: Elem)
    requires Owned(m, H) && Linked(m, P) && t in m && m[t].idx.Some?
    ensures var r := Unlisted(m, H, t);
            && Owned(r.0, r.1) && Linked(r.0, P) && r.1.Keys == H.Keys
            && r.0.Keys == m.Keys && (forall e | e in m :: r.0[e] == m[e].(idx := r.0[e].idx))
            && r.0[t].idx.None? && (forall c | c in r.1 :: t !in r.1[c])
  {
    var c := m[t].container;
    var r := Unlisted(m, H, t);
    var m3 := RemovedRecords(m, H, t);
    RemoveOwned(m, H, t);
    RemovedShape(m, H, t);
    assert r.0 == m3[t := m[t].(idx := None)];
    UnlistedAdd(m3, r.1, t, m[t].(idx := None));
  }

  /** Registering an element no container lists, without an index, keeps the invariant. */
  lemma UnlistedAdd(m: map<Elem, Item>, H: HomesMap, t: Elem, rec: Item)
    requires Owned(m, H) && t !in m && rec.container in H && rec.idx.None?
    requires forall cc | cc in rec.childrenContainers :: cc in H
    ensures Owned(m[t := rec], H) && forall c | c in H :: t !in H[c]
  {
    forall c, j | c in H && 0 <= j < |H[c]| ensures ListedAt(m[t := rec], H, c, j) && H[c][j] != t {
      OwnedAt(m, H, c, j);
    }
  }

  // ---- add_item and new containers ---------------------------------------

  /**
   * Registering a new element keeps the invariant: it is listed last in its
   * container, its record names that container and index and hosts no
   * container, and nothing else moves.
   */
  lemma AddKeeps(m: map<Elem, Item>, H: HomesMap, P: HostsMap, c: Container, t: Elem, rec: Item)
    requires Owned(m, H) && Linked(m, P) && c in H && t !in m
    requires rec.container == c && rec.idx == Some(|H[c]|) && rec.childrenContainers == {}
    ensures Owned(m[t := rec], H[c := H[c] + [t]])
    ensures Linked(m[t := rec], P)
  {
    AppendKeeps(m, H, c, t, rec);
  }

  /**
   * Appending an element that has no record yet to a container's `homes`,
   * with a record that points at that last position, keeps the invariant.
   */
  lemma AppendKeeps(m: map<Elem, Item>, H: HomesMap, c: Container, t: Elem, rec: Item)
    requires Owned(m, H) && c in H && t !in m
    requires rec.container == c && rec.idx == Some(|H[c]|)
    requires forall cc | cc in rec.childrenContainers :: cc in H
    ensures Owned(m[t := rec], H[c := H[c] + [t]])
  {
    var m', H' := m[t := rec], H[c := H[c] + [t]];
    forall d, j | d in H' && 0 <= j < |H'[d]|
      ensures ListedAt(m', H', d, j)
    {
      if d != c || j < |H[c]| {
        OwnedAt(m, H, d, j);
      }
    }
    assert Listed(m', H');
  }

  /** A new container starts with empty `homes` and no host, and the invariant still holds. */
  lemma NewContainerKeeps(m: map<Elem, Item>, H: HomesMap, P: HostsMap, c: Container)
    requires Owned(m, H) && Linked(m, P) && c !in H
    ensures Owned(m, H[c := []]) && Linked(m, P[c := None])
  {
    var H' := H[c := []];
    forall d, j | d in H' && 0 <= j < |H'[d]|
      ensures ListedAt(m, H', d, j)
    {
      OwnedAt(m, H, d, j);
    }
  }

  /**
   * The bookkeeping invariant of the shared state: `mono.containers`
   * holds each container once and each has `homes`, the records and the
   * `homes` lists agree (`Owned`), hosts are linked, and
   * `mono.dirty` holds known containers once each.
   */
  ghost predicate Consistent(order: seq<Container>, m: map<Elem, Item>, H: HomesMap, P: HostsMap, dirty: seq<Container>)
  {
    && NoDup(order) && (forall c | c in order :: c in H)
    && Owned(m, H) && Linked(m, P)
    && NoDup(dirty) && (forall c | c in dirty :: c in H)
  }

  /** The bookkeeping invariant only looks at the links of the records. */
  lemma ConsistentLinks(order: seq<Container>, m: map<Elem, Item>, m2: map<Elem, Item>, H: HomesMap, P: HostsMap,
                        dirty: seq<Container>)
    requires Consistent(order, m, H, P, dirty) && SameLinks(m, m2)
    ensures Consistent(order, m2, H, P, dirty)
  {
    SameLinksKeep(m, m2, H, P);
  }
}
