/**
 * What the reflow (`assign_dropzone`) computes, on values: the new order of
 * each container, and the resting place of each item laid out one after the
 * other from the container start. `render_items` and `position_item_last`
 * use the same arithmetic.
 */
module Layout {
  import opened Wrappers
  import opened Seqs
  import opened Geometry
  import opened Dropzone

  /**
   * A visible container's new `homes`: the dragged element `t` removed and,
   * in the destination, put back at `zoneIdx` or at the end when `zoneIdx`
   * is past it.
   */
  function Placed<T(==)>(h: seq<T>, t: T, dest: bool, zoneIdx: nat): seq<T>
  {
    var w := Without(h, t);
    if dest then InsertAt(w, Min(zoneIdx, |w|), t) else w
  }

  /** An element of the new list is the dragged one, in the destination, or another element of the old one. */
  lemma InPlaced<T>(h: seq<T>, t: T, dest: bool, zoneIdx: nat, e: T)
    requires e in Placed(h, t, dest, zoneIdx)
    ensures (e == t && dest) || (e != t && e in h)
  {
    PlacedFacts(h, t, dest, zoneIdx);
  }

  /** Every other element of the old list, and the dragged one in the destination, is in the new list. */
  lemma PlacedHas<T>(h: seq<T>, t: T, dest: bool, zoneIdx: nat, e: T)
    requires (e in h && e != t) || (e == t && dest)
    ensures e in Placed(h, t, dest, zoneIdx)
  {
    PlacedFacts(h, t, dest, zoneIdx);
    if e != t {
      assert e in Without(Placed(h, t, dest, zoneIdx), t);
    }
  }

  /**
   * The other elements keep their relative order; the destination holds the
   * dragged element once, at `min(zoneIdx, length)`; any other container no
   * longer holds it; nothing new appears and no element is doubled.
   */
  lemma PlacedFacts<T>(h: seq<T>, t: T, dest: bool, zoneIdx: nat)
    ensures Without(Placed(h, t, dest, zoneIdx), t) == Without(h, t)
    ensures dest ==> |Placed(h, t, dest, zoneIdx)| == |Without(h, t)| + 1
    ensures dest ==> Placed(h, t, dest, zoneIdx)[Min(zoneIdx, |Without(h, t)|)] == t
    ensures !dest ==> t !in Placed(h, t, dest, zoneIdx)
    ensures forall e | e in Placed(h, t, dest, zoneIdx) :: e == t || e in h
    ensures NoDup(h) ==> NoDup(Placed(h, t, dest, zoneIdx))
  {
    var w := Without(h, t);
    if dest {
      WithoutInsertAt(w, Min(zoneIdx, |w|), t);
    }
    if NoDup(h) {
      WithoutNoDup(h, t);
      if dest {
        var i, p := Min(zoneIdx, |w|), Placed(h, t, dest, zoneIdx);
        forall a, b | 0 <= a < b < |p| ensures p[a] != p[b] {
          if a == i {
            assert p[b] in w;
          } else if b == i {
            assert p[a] in w;
          } else {
            var a', b' := if a < i then a else a - 1, if b < i then b else b - 1;
            assert p[a] == w[a'] && p[b] == w[b'];
          }
        }
      }
    }
  }

  /**
   * What the rest `h` of a container's old list contributes to its new one
   * when `n` elements are already seated: the index asked for is counted
   * from the loop's start, so from here it is `zoneIdx - n`.
   */
  function OrderFrom<T(==)>(h: seq<T>, t: T, dest: bool, zoneIdx: nat, n: nat): seq<T>
  {
    if dest && n <= zoneIdx then Placed(h, t, true, zoneIdx - n) else Without(h, t)
  }

  /** What one element `e` of the old list adds to the new one when `n` elements are already seated. */
  function OrderStep<T(==)>(e: T, t: T, dest: bool, zoneIdx: nat, n: nat): seq<T>
  {
    (if dest && zoneIdx == n then [t] else []) + (if e == t then [] else [e])
  }

  /** The seated prefix after one more element, followed by the rest, is the old prefix followed by the whole. */
  lemma OrderFromGlue<T>(placed: seq<T>, placed2: seq<T>, h: seq<T>, t: T, dest: bool, zoneIdx: nat)
    requires h != [] && placed2 == placed + OrderStep(h[0], t, dest, zoneIdx, |placed|)
    ensures placed2 + OrderFrom(h[1..], t, dest, zoneIdx, |placed2|) == placed + OrderFrom(h, t, dest, zoneIdx, |placed|)
  {
    var step := OrderStep(h[0], t, dest, zoneIdx, |placed|);
    assert h == [h[0]] + h[1..];
    OrderFromStep(h[0], h[1..], t, dest, zoneIdx, |placed|);
    ConcatAssoc(placed, step, OrderFrom(h[1..], t, dest, zoneIdx, |placed2|));
  }

  /** How `OrderFrom` unwinds by one element of the old list. */
  lemma OrderFromStep<T>(e: T, rest: seq<T>, t: T, dest: bool, zoneIdx: nat, n: nat)
    ensures var s := OrderStep(e, t, dest, zoneIdx, n);
            OrderFrom([e] + rest, t, dest, zoneIdx, n) == s + OrderFrom(rest, t, dest, zoneIdx, n + |s|)
  {
    WithoutCons(e, rest, t);
    if dest && zoneIdx == n {
      OrderFromAtZone(e, rest, t, dest, zoneIdx, n);
    } else if dest && n < zoneIdx && e != t {
      OrderFromBeforeZone(e, rest, t, dest, zoneIdx, n);
    } else if dest && n < zoneIdx {
      OrderFromDragged(e, rest, t, dest, zoneIdx, n);
    } else {
      OrderFromPastZone(e, rest, t, dest, zoneIdx, n);
    }
  }

  lemma OrderFromAtZone<T>(e: T, rest: seq<T>, t: T, dest: bool, zoneIdx: nat, n: nat)
    requires dest && zoneIdx == n
    requires Without([e] + rest, t) == (if e == t then [] else [e]) + Without(rest, t)
    ensures var s := OrderStep(e, t, dest, zoneIdx, n);
            OrderFrom([e] + rest, t, dest, zoneIdx, n) == s + OrderFrom(rest, t, dest, zoneIdx, n + |s|)
  {
    var w, k := Without(rest, t), if e == t then [] else [e];
    InsertAtFront(k + w, t);
    ConcatAssoc([t], k, w);
  }

  lemma OrderFromBeforeZone<T>(e: T, rest: seq<T>, t: T, dest: bool, zoneIdx: nat, n: nat)
    requires dest && n < zoneIdx && e != t
    requires Without([e] + rest, t) == [e] + Without(rest, t)
    ensures var s := OrderStep(e, t, dest, zoneIdx, n);
            OrderFrom([e] + rest, t, dest, zoneIdx, n) == s + OrderFrom(rest, t, dest, zoneIdx, n + |s|)
  {
    var w := Without(rest, t);
    assert OrderStep(e, t, dest, zoneIdx, n) == [e];
    var m := Min(zoneIdx - n - 1, |w|);
    InsertAtCons(e, w, m, t);
    assert OrderFrom([e] + rest, t, dest, zoneIdx, n) == InsertAt([e] + w, m + 1, t);
    assert OrderFrom(rest, t, dest, zoneIdx, n + 1) == InsertAt(w, m, t);
  }

  lemma OrderFromDragged<T>(e: T, rest: seq<T>, t: T, dest: bool, zoneIdx: nat, n: nat)
    requires dest && n < zoneIdx && e == t
    requires Without([e] + rest, t) == [] + Without(rest, t)
    ensures var s := OrderStep(e, t, dest, zoneIdx, n);
            OrderFrom([e] + rest, t, dest, zoneIdx, n) == s + OrderFrom(rest, t, dest, zoneIdx, n + |s|)
  {
    var w := Without(rest, t);
    assert [] + w == w;
    assert OrderStep(e, t, dest, zoneIdx, n) == [];
    assert Placed([e] + rest, t, true, zoneIdx - n) == InsertAt(w, Min(zoneIdx - n, |w|), t);
  }

  lemma OrderFromPastZone<T>(e: T, rest: seq<T>, t: T, dest: bool, zoneIdx: nat, n: nat)
    requires !(dest && n <= zoneIdx)
    requires Without([e] + rest, t) == (if e == t then [] else [e]) + Without(rest, t)
    ensures var s := OrderStep(e, t, dest, zoneIdx, n);
            OrderFrom([e] + rest, t, dest, zoneIdx, n) == s + OrderFrom(rest, t, dest, zoneIdx, n + |s|)
  {
    var k := if e == t then [] else [e];
    assert OrderStep(e, t, dest, zoneIdx, n) == k;
    assert OrderFrom(rest, t, dest, zoneIdx, n + |k|) == Without(rest, t);
  }

  /** The resting place along the layout axis of the item at position `j`, given the extents before it. */
  function HomeA(start: int, extents: seq<int>, j: nat, s: AxisState): int
    requires j <= |extents|
  {
    start + PrefixSum(extents, j) + s.m1 - s.offset
  }

  /** The resting place across the layout axis: every item starts at the container's cross start. */
  function HomeB(start: int, s: AxisState): int
  {
    start + s.m1 - s.offset
  }

  /**
   * Laid out this way, each item's outer box (margins included) begins where
   * the previous one's ends.
   */
  lemma Consecutive(start: int, extents: seq<int>, j: nat, prev: AxisState, next: AxisState)
    requires j + 1 < |extents| + 1 && extents[j] == prev.Extent()
    ensures HomeA(start, extents, j + 1, next) + next.offset - next.m1
         == HomeA(start, extents, j, prev) + prev.offset + prev.size + prev.m2
  {
  }

  /** `position_item_last` along the layout axis: right after the item before it. */
  function AfterLast(last: AxisState, s: AxisState): int
  {
    last.offset + last.posHome + last.size + last.m2 + s.m1 - s.offset
  }

  /** `position_item_last` across the layout axis: in line with the item before it. */
  function BesideLast(last: AxisState, s: AxisState): int
  {
    last.offset + last.posHome - last.m1 + s.m1 - s.offset
  }

  /**
   * When the item before it rests where the reflow puts it, a newly
   * appended item is placed exactly where the reflow would put it.
   */
  lemma AfterLastAgrees(startA: int, startB: int, extents: seq<int>, last: AxisState, lastB: AxisState,
                        s: AxisState, sB: AxisState)
    requires |extents| > 0 && extents[|extents| - 1] == last.Extent()
    requires last.posHome == HomeA(startA, extents, |extents| - 1, last)
    requires lastB.posHome == HomeB(startB, lastB)
    ensures AfterLast(last, s) == HomeA(startA, extents, |extents|, s)
    ensures BesideLast(lastB, sB) == HomeB(startB, sB)
  {
  }

  /**
   * Three items A, B, C of total size 50 in a container starting at 0, A
   * dragged until its midpoint is at 140: the search yields index 2 and the
   * new order is B, C, A.
   */
  lemma ThreeItemsReorder<T>(a: T, b: T, c: T)
    requires a != b && a != c
    ensures DropIndex([50, 50, 50, 50], 50, 25, 140, 25, 0, 0) == Some(2)
    ensures Placed([a, b, c], a, true, 2) == [b, c, a]
  {
    ThreeItemsExample();
    assert [a, b, c][1..] == [b, c];
    assert Without([b, c], a) == [b, c];
  }
}
