/**
 * The walks up the `parent_target` chain: `has_parent`, `nesting_depth` and
 * `allows_target`. A nested container's host is the item element it sits
 * in; the walk goes on from the container that item is registered with.
 * Nothing in the source bounds the walk, so each walk here carries fuel, and
 * `Ends` says when the fuel is enough for the walk to stop on its own.
 */
module Parents {
  import opened Wrappers
  import opened Records
  import opened Registry

  /** `this.mv.parent_target`, None when the container is not nested. */
  function HostOf(P: HostsMap, c: Container): Option<Elem>
  {
    if c in P then P[c] else None
  }

  /** `has_parent(t)`. */
  function HasParent(m: map<Elem, Item>, P: HostsMap, c: Container, t: Elem, fuel: nat): bool
    decreases fuel
  {
    var parent := HostOf(P, c);
    if parent.None? then false
    else if parent.value == t then true
    else if parent.value !in m then false
    else if fuel == 0 then false
    else HasParent(m, P, m[parent.value].container, t, fuel - 1)
  }

  /** `nesting_depth(depth)`: the walk counts the hosts it finds registered. */
  function NestingDepth(m: map<Elem, Item>, P: HostsMap, c: Container, depth: nat, fuel: nat): nat
    decreases fuel
  {
    var parent := HostOf(P, c);
    if parent.None? then depth
    else if parent.value !in m then depth
    else if fuel == 0 then depth + 1
    else NestingDepth(m, P, m[parent.value].container, depth + 1, fuel - 1)
  }

  /**
   * `allows_target(t)`: the container's group equals `tgroup`, the group of
   * the container that is the target's DOM parent, and the target is not a
   * host of the container, directly or further up.
   */
  function AllowsTarget(m: map<Elem, Item>, P: HostsMap, c: Container, group: Option<string>, tgroup: Option<string>,
                        t: Elem, fuel: nat): (r: bool)
    ensures r <==> group == tgroup && !HasParent(m, P, c, t, fuel)
  {
    if group != tgroup then false
    else if HasParent(m, P, c, t, fuel) then false
    else true
  }

  // ---- reference definitions -------------------------------------------

  /**
   * The hosts met walking up from `c`, in order: each registered host leads
   * on to its own container; an unregistered one ends the walk but is met.
   */
  function Chain(m: map<Elem, Item>, P: HostsMap, c: Container, fuel: nat): (r: seq<Elem>)
    ensures forall j | 0 <= j < |r| - 1 :: r[j] in m
    decreases fuel
  {
    match HostOf(P, c)
    case None => []
    case Some(p) => if p !in m || fuel == 0 then [p] else [p] + Chain(m, P, m[p].container, fuel - 1)
  }

  /** The walk from `c` stops on its own within `fuel` steps. */
  predicate Ends(m: map<Elem, Item>, P: HostsMap, c: Container, fuel: nat)
    decreases fuel
  {
    match HostOf(P, c)
    case None => true
    case Some(p) => p !in m || (fuel > 0 && Ends(m, P, m[p].container, fuel - 1))
  }

  /** How many of the hosts in `hosts` are registered. */
  function Counted(m: map<Elem, Item>, hosts: seq<Elem>): nat
  {
    if hosts == [] then 0 else (if hosts[0] in m then 1 else 0) + Counted(m, hosts[1..])
  }

  // ---- the walks against the chain ---------------------------------------

  /** `has_parent(t)` holds exactly when `t` is one of the hosts on the chain. */
  lemma {:induction false} HasParentChain(m: map<Elem, Item>, P: HostsMap, c: Container, t: Elem, fuel: nat)
    ensures HasParent(m, P, c, t, fuel) <==> t in Chain(m, P, c, fuel)
    decreases fuel
  {
    match HostOf(P, c)
    case None =>
    case Some(p) =>
      if p in m && fuel > 0 {
        HasParentChain(m, P, m[p].container, t, fuel - 1);
      }
  }

  /** `nesting_depth` adds the number of registered hosts on the chain to the depth it starts from. */
  lemma {:induction false} DepthChain(m: map<Elem, Item>, P: HostsMap, c: Container, depth: nat, fuel: nat)
    ensures NestingDepth(m, P, c, depth, fuel) == depth + Counted(m, Chain(m, P, c, fuel))
    decreases fuel
  {
    match HostOf(P, c)
    case None =>
    case Some(p) =>
      if p !in m || fuel == 0 {
        assert Counted(m, [p]) == (if p in m then 1 else 0) + Counted(m, []);
      } else {
        var rest := Chain(m, P, m[p].container, fuel - 1);
        DepthChain(m, P, m[p].container, depth + 1, fuel - 1);
        assert ([p] + rest)[1..] == rest;
      }
  }

  /**
   * Depth 0 for a container with no host or an unregistered one; otherwise
   * one more than the depth of the container its host is registered with.
   */
  lemma DepthStep(m: map<Elem, Item>, P: HostsMap, c: Container, fuel: nat)
    ensures HostOf(P, c).None? || HostOf(P, c).value !in m ==> NestingDepth(m, P, c, 0, fuel) == 0
    ensures HostOf(P, c).Some? && HostOf(P, c).value in m && fuel > 0 ==>
              NestingDepth(m, P, c, 0, fuel) == 1 + NestingDepth(m, P, m[HostOf(P, c).value].container, 0, fuel - 1)
  {
    DepthChain(m, P, c, 0, fuel);
    if HostOf(P, c).Some? && HostOf(P, c).value in m && fuel > 0 {
      var c2 := m[HostOf(P, c).value].container;
      DepthChain(m, P, c2, 1, fuel - 1);
      DepthChain(m, P, c2, 0, fuel - 1);
    }
  }

  /** Once the walk stops on its own, more fuel meets the same hosts. */
  lemma {:induction false} ChainFuel(m: map<Elem, Item>, P: HostsMap, c: Container, fuel: nat, more: nat)
    requires Ends(m, P, c, fuel) && fuel <= more
    ensures Chain(m, P, c, more) == Chain(m, P, c, fuel)
    decreases fuel
  {
    match HostOf(P, c)
    case None =>
    case Some(p) =>
      if p in m {
        ChainFuel(m, P, m[p].container, fuel - 1, more - 1);
      }
  }

  /** Hence neither walk depends on the fuel once it suffices. */
  lemma WalksFuel(m: map<Elem, Item>, P: HostsMap, c: Container, t: Elem, fuel: nat, more: nat)
    requires Ends(m, P, c, fuel) && fuel <= more
    ensures HasParent(m, P, c, t, more) == HasParent(m, P, c, t, fuel)
    ensures NestingDepth(m, P, c, 0, more) == NestingDepth(m, P, c, 0, fuel)
  {
    ChainFuel(m, P, c, fuel, more);
    HasParentChain(m, P, c, t, fuel);
    HasParentChain(m, P, c, t, more);
    DepthChain(m, P, c, 0, fuel);
    DepthChain(m, P, c, 0, more);
  }

  /** A container never accepts its own host, nor a host further up. */
  lemma NoDropIntoItself(m: map<Elem, Item>, P: HostsMap, c: Container, group: Option<string>, tgroup: Option<string>,
                         t: Elem, fuel: nat)
    requires t in Chain(m, P, c, fuel)
    ensures !AllowsTarget(m, P, c, group, tgroup, t, fuel)
  {
    HasParentChain(m, P, c, t, fuel);
  }
}
