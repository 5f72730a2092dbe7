/**
 * The selection rule of `find_container`, over the containers in iteration
 * order. The first loop keeps the smallest distance seen so far and a pool
 * of containers within `Grace` of it, emptying the pool whenever a strictly
 * closer container appears; the second loop takes the deepest pool member,
 * a later member winning a tie.
 */
module Choice {
  import opened Wrappers

  /** The grace band (`grace = 10`). */
  const Grace: real := 10.0

  /**
   * One container as the selection sees it: whether it is considered at all
   * (visible and `allows_target`), its box distance and its nesting depth.
   */
  datatype Cand = Cand(eligible: bool, dist: real, depth: nat)

  /** The state of the first loop: `closest` (None while it is Infinity) and the pool `cc`, as indices. */
  datatype Pool = Pool(closest: Option<real>, members: seq<nat>)

  function Step(p: Pool, i: nat, c: Cand): Pool
  {
    if !c.eligible then p
    else
      var p1 := if p.closest.None? || c.dist < p.closest.value then Pool(Some(c.dist), []) else p;
      if c.dist <= p1.closest.value + Grace then p1.(members := p1.members + [i]) else p1
  }

  /** The pool after the first `k` containers. */
  function PoolOf(cs: seq<Cand>, k: nat): Pool
    requires k <= |cs|
  {
    if k == 0 then Pool(None, []) else Step(PoolOf(cs, k - 1), k - 1, cs[k - 1])
  }

  /** The second loop, from `deepest` and `found` onwards. */
  function Deepest(cs: seq<Cand>, ms: seq<nat>, deepest: nat, found: Option<nat>): Option<nat>
    requires Below(ms, |cs|)
  {
    if ms == [] then found
    else if cs[ms[0]].depth >= deepest then Deepest(cs, ms[1..], cs[ms[0]].depth, Some(ms[0]))
    else Deepest(cs, ms[1..], deepest, found)
  }

  /** The index `find_container` returns, None standing for `null`. */
  function Choose(cs: seq<Cand>): Option<nat>
  {
    PoolFacts(cs, |cs|);
    Deepest(cs, PoolOf(cs, |cs|).members, 0, None)
  }

  // ---- reference definitions -------------------------------------------

  predicate Below(ms: seq<nat>, n: nat)
  {
    forall q | 0 <= q < |ms| :: ms[q] < n
  }

  predicate Increasing(ms: seq<nat>)
  {
    forall p, q | 0 <= p < q < |ms| :: ms[p] < ms[q]
  }

  /** `m` is the least distance among the eligible containers of the first `k`. */
  predicate IsMin(cs: seq<Cand>, k: nat, m: real)
    requires k <= |cs|
  {
    (exists j | 0 <= j < k :: cs[j].eligible && cs[j].dist == m) &&
    (forall j | 0 <= j < k && cs[j].eligible :: m <= cs[j].dist)
  }

  /** The first eligible container at distance `m`: where the pool was last emptied. */
  function FirstAt(cs: seq<Cand>, k: nat, m: real): (f: nat)
    requires k <= |cs|
    requires exists j | 0 <= j < k :: cs[j].eligible && cs[j].dist == m
    ensures f < k && cs[f].eligible && cs[f].dist == m
    ensures forall j | 0 <= j < f :: !(cs[j].eligible && cs[j].dist == m)
    decreases k
  {
    if cs[0].eligible && cs[0].dist == m then 0
    else
      assert exists j | 0 <= j < k - 1 :: cs[1..k][j].eligible && cs[1..k][j].dist == m by {
        var j :| 0 <= j < k && cs[j].eligible && cs[j].dist == m;
        assert cs[1..k][j - 1] == cs[j];
      }
      var f := FirstAt(cs[1..k], k - 1, m);
      assert cs[1..k][f] == cs[f + 1];
      assert forall j | 1 <= j <= f :: cs[j] == cs[1..k][j - 1];
      f + 1
  }

  // ---- first loop ------------------------------------------------------

  lemma {:induction false} PoolFacts(cs: seq<Cand>, k: nat)
    requires k <= |cs|
    ensures PoolOf(cs, k).closest.None? <==> forall j | 0 <= j < k :: !cs[j].eligible
    ensures PoolOf(cs, k).closest.Some? ==> IsMin(cs, k, PoolOf(cs, k).closest.value)
    ensures PoolOf(cs, k).closest.None? ==> PoolOf(cs, k).members == []
    ensures Increasing(PoolOf(cs, k).members)
    ensures Below(PoolOf(cs, k).members, k)
  {
    if k > 0 {
      PoolFacts(cs, k - 1);
      var p := PoolOf(cs, k - 1);
      assert Below(p.members, k - 1);
      if p.closest.Some? && cs[k - 1].eligible {
        var m := p.closest.value;
        var j :| 0 <= j < k - 1 && cs[j].eligible && cs[j].dist == m;
        if cs[k - 1].dist >= m {
          assert IsMin(cs, k, m);
        }
      }
    }
  }

  /**
   * The pool holds exactly the eligible containers within `Grace` of the
   * least distance that come at or after the first container at that least
   * distance: nearer-than-grace containers met before it are forgotten.
   */
  lemma {:induction false} PoolMembers(cs: seq<Cand>, k: nat, m: real, i: nat)
    requires k <= |cs| && PoolOf(cs, k).closest == Some(m) && IsMin(cs, k, m)
    ensures i in PoolOf(cs, k).members <==>
              FirstAt(cs, k, m) <= i < k && cs[i].eligible && cs[i].dist <= m + Grace
  {
    var p := PoolOf(cs, k - 1);
    var c := cs[k - 1];
    PoolFacts(cs, k - 1);
    if c.eligible && (p.closest.None? || c.dist < p.closest.value) {
      assert m == c.dist;
      assert FirstAt(cs, k, m) == k - 1;
    } else {
      assert p.closest == Some(m);
      FirstAtShrink(cs, k, m);
      PoolMembers(cs, k - 1, m, i);
      PoolMembersKept(cs, k, m, i);
    }
  }

  /** A container that does not empty the pool joins it or not; the earlier members stay. */
  lemma PoolMembersKept(cs: seq<Cand>, k: nat, m: real, i: nat)
    requires 0 < k <= |cs| && PoolOf(cs, k - 1).closest == Some(m) && IsMin(cs, k - 1, m) && IsMin(cs, k, m)
    requires !(cs[k - 1].eligible && cs[k - 1].dist < m)
    requires FirstAt(cs, k - 1, m) == FirstAt(cs, k, m)
    requires i in PoolOf(cs, k - 1).members <==>
               FirstAt(cs, k - 1, m) <= i < k - 1 && cs[i].eligible && cs[i].dist <= m + Grace
    ensures i in PoolOf(cs, k).members <==>
              FirstAt(cs, k, m) <= i < k && cs[i].eligible && cs[i].dist <= m + Grace
  {
  }

  lemma FirstAtShrink(cs: seq<Cand>, k: nat, m: real)
    requires 0 < k <= |cs|
    requires exists j | 0 <= j < k - 1 :: cs[j].eligible && cs[j].dist == m
    ensures FirstAt(cs, k, m) == FirstAt(cs, k - 1, m)
  {
  }

  // ---- second loop -----------------------------------------------------

  /**
   * The second loop returns the pool member of greatest depth, and every
   * later member is strictly shallower: a tie goes to the later container.
   */
  lemma {:induction false} DeepestFacts(cs: seq<Cand>, ms: seq<nat>, deepest: nat, found: Option<nat>)
    requires Below(ms, |cs|)
    requires Increasing(ms)
    requires found.None? ==> deepest == 0
    requires found.Some? ==> found.value < |cs| && cs[found.value].depth == deepest
    requires found.Some? ==> forall j | j in ms :: found.value < j
    ensures var r := Deepest(cs, ms, deepest, found);
            && (r.None? <==> found.None? && ms == [])
            && (r.Some? ==> r == found || r.value in ms)
            && (r.Some? ==> r.value < |cs| && deepest <= cs[r.value].depth)
            && (r.Some? ==> forall j | j in ms :: cs[j].depth <= cs[r.value].depth)
            && (r.Some? ==> forall j | j in ms && r.value < j :: cs[j].depth < cs[r.value].depth)
  {
    if ms != [] {
      var h, rest := ms[0], ms[1..];
      TailFacts(ms, |cs|);
      assert h in ms;
      if cs[h].depth >= deepest {
        DeepestFacts(cs, rest, cs[h].depth, Some(h));
        DeepestStep(cs, ms, deepest, found, cs[h].depth, Some(h));
      } else {
        DeepestFacts(cs, rest, deepest, found);
        DeepestStep(cs, ms, deepest, found, deepest, found);
      }
    }
  }

  /** The tail of an increasing list of indices is increasing, and lies after its head. */
  lemma TailFacts(ms: seq<nat>, n: nat)
    requires ms != [] && Below(ms, n) && Increasing(ms)
    ensures Below(ms[1..], n) && Increasing(ms[1..]) && ms[0] < n
    ensures forall j | j in ms[1..] :: ms[0] < j
    ensures forall j | j in ms :: j == ms[0] || j in ms[1..]
  {
    forall j | j in ms[1..] ensures ms[0] < j {
      var q :| 0 <= q < |ms[1..]| && ms[1..][q] == j;
      assert ms[q + 1] == j;
    }
    assert ms == [ms[0]] + ms[1..];
  }

  /** One step of the second loop: what holds of the rest from the updated state holds of the whole list. */
  lemma DeepestStep(cs: seq<Cand>, ms: seq<nat>, deepest: nat, found: Option<nat>, deepest': nat, found': Option<nat>)
    requires ms != [] && Below(ms, |cs|)
    requires forall j | j in ms :: j == ms[0] || j in ms[1..]
    requires forall j | j in ms[1..] :: ms[0] < j
    requires found.Some? ==> found.value < ms[0]
    requires found' == (if cs[ms[0]].depth >= deepest then Some(ms[0]) else found)
    requires deepest' == (if cs[ms[0]].depth >= deepest then cs[ms[0]].depth else deepest)
    requires found'.Some?
    requires var r := Deepest(cs, ms[1..], deepest', found');
            && (r.None? <==> ms[1..] == [] && found'.None?)
            && (r.Some? ==> r == found' || r.value in ms[1..])
            && (r.Some? ==> r.value < |cs| && deepest' <= cs[r.value].depth)
            && (r.Some? ==> forall j | j in ms[1..] :: cs[j].depth <= cs[r.value].depth)
            && (r.Some? ==> forall j | j in ms[1..] && r.value < j :: cs[j].depth < cs[r.value].depth)
    ensures var r := Deepest(cs, ms, deepest, found);
            && (r.None? <==> found.None? && ms == [])
            && (r.Some? ==> r == found || r.value in ms)
            && (r.Some? ==> r.value < |cs| && deepest <= cs[r.value].depth)
            && (r.Some? ==> forall j | j in ms :: cs[j].depth <= cs[r.value].depth)
            && (r.Some? ==> forall j | j in ms && r.value < j :: cs[j].depth < cs[r.value].depth)
  {
    var r := Deepest(cs, ms[1..], deepest', found');
    assert Deepest(cs, ms, deepest, found) == r;
    assert r.Some?;
    var h := ms[0];
    forall j | j in ms ensures cs[j].depth <= cs[r.value].depth {
      if j == h {
        assert cs[h].depth <= deepest' <= cs[r.value].depth;
      }
    }
    forall j | j in ms && r.value < j ensures cs[j].depth < cs[r.value].depth {
      if j == h {
        assert r.value < h;
        assert r == found';
        assert found'.value < h;
      }
    }
  }

  // ---- the whole rule --------------------------------------------------

  /**
   * `find_container` returns null only when no container is eligible;
   * otherwise it returns an eligible container within the grace band of
   * the least distance, at or after the first nearest one, of greatest
   * depth in the pool, with every later pool member strictly shallower.
   */
  lemma ChooseFacts(cs: seq<Cand>)
    ensures Choose(cs).None? <==> forall j | 0 <= j < |cs| :: !cs[j].eligible
    ensures Choose(cs).Some? ==> PoolOf(cs, |cs|).closest.Some?
    ensures Choose(cs).Some? && PoolOf(cs, |cs|).closest.Some? ==>
              var i, m := Choose(cs).value, PoolOf(cs, |cs|).closest.value;
              && i < |cs| && cs[i].eligible
              && IsMin(cs, |cs|, m) && cs[i].dist <= m + Grace
              && FirstAt(cs, |cs|, m) <= i
              && (forall j | 0 <= j < |cs| && FirstAt(cs, |cs|, m) <= j && cs[j].eligible && cs[j].dist <= m + Grace
                    :: cs[j].depth <= cs[i].depth)
              && (forall j | i < j < |cs| && cs[j].eligible && cs[j].dist <= m + Grace
                    :: cs[j].depth < cs[i].depth)
  {
    var k := |cs|;
    PoolFacts(cs, k);
    var ms := PoolOf(cs, k).members;
    DeepestFacts(cs, ms, 0, None);
    if PoolOf(cs, k).closest.Some? {
      var m := PoolOf(cs, k).closest.value;
      var f := FirstAt(cs, k, m);
      PoolMembers(cs, k, m, f);
      assert ms != [];
      var i := Choose(cs).value;
      PoolMembers(cs, k, m, i);
      forall j | 0 <= j < k && f <= j && cs[j].eligible && cs[j].dist <= m + Grace
        ensures cs[j].depth <= cs[i].depth
      {
        PoolMembers(cs, k, m, j);
      }
      forall j | i < j < k && cs[j].eligible && cs[j].dist <= m + Grace
        ensures cs[j].depth < cs[i].depth
      {
        PoolMembers(cs, k, m, j);
      }
    } else {
      assert ms == [];
    }
  }

  /**
   * The choice depends on the order of the containers: a container the
   * point lies inside (distance 0) loses to an equally deep one 5 away
   * that comes after it, and wins when it comes second.
   */
  lemma OrderMatters()
    ensures Choose([Cand(true, 0.0, 0), Cand(true, 5.0, 0)]) == Some(1)
    ensures Choose([Cand(true, 5.0, 0), Cand(true, 0.0, 0)]) == Some(1)
  {
    var ab := [Cand(true, 0.0, 0), Cand(true, 5.0, 0)];
    assert PoolOf(ab, 1) == Pool(Some(0.0), [0]);
    assert PoolOf(ab, 2) == Pool(Some(0.0), [0, 1]);
    var ba := [Cand(true, 5.0, 0), Cand(true, 0.0, 0)];
    assert PoolOf(ba, 1) == Pool(Some(5.0), [0]);
    assert PoolOf(ba, 2) == Pool(Some(0.0), [1]);
  }

  // ---- the two loops -----------------------------------------------------

  /**
   * The two loops of `find_container` over the candidates: the first keeps
   * `closest` and the pool, the second the deepest pool member so far.
   */
  method Select(cs: seq<Cand>) returns (found: Option<nat>)
    ensures found == Choose(cs)
    ensures found.Some? ==> found.value < |cs| && cs[found.value].eligible
  {
    var closest: Option<real> := None;
    var members: seq<nat> := [];
    var i := 0;
    while i < |cs|
      invariant 0 <= i <= |cs|
      invariant Pool(closest, members) == PoolOf(cs, i)
    {
      var c := cs[i];
      if c.eligible {
        if closest.None? || c.dist < closest.value {
          closest := Some(c.dist);
          members := [];
        }
        if c.dist <= closest.value + Grace {
          members := members + [i];
        }
      }
      i := i + 1;
    }
    PoolFacts(cs, |cs|);
    var deepest := 0;
    found := None;
    var q := 0;
    while q < |members|
      invariant 0 <= q <= |members|
      invariant Deepest(cs, members, 0, None) == Deepest(cs, members[q..], deepest, found)
    {
      assert members[q..] == [members[q]] + members[q + 1..];
      var k := members[q];
      if cs[k].depth >= deepest {
        found := Some(k);
        deepest := cs[k].depth;
      }
      q := q + 1;
    }
    ChooseFacts(cs);
  }
}
