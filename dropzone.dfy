/**
 * The insertion-index search of `find_dropzone`. The dragged item's midpoint
 * `midA` along the layout axis is compared with the midpoint `midH` of its
 * own home, not with its current position, so that neighbours of another
 * size do not make the index flip back and forth. Moving back, slots are
 * walked downwards from the item's own index; moving forward, slots are
 * walked upwards from the container start. `sizes` holds one size per slot:
 * the total size of each item in `homes`, and the item's own size for every
 * slot without a registered item (the one past the end).
 */
module Dropzone {
  import opened Wrappers
  import opened Seqs

  function Min(a: int, b: int): int { if a < b then a else b }

  /** The backward loop from slot `i` down, with running edge `oA`. */
  function BackScan(sizes: seq<int>, own: int, midA: int, i: int, oA: int, found: Option<nat>): Option<nat>
    requires i < |sizes|
    decreases i + 1
  {
    if i < 0 then found
    else
      var o := oA - sizes[i];
      if midA < o + Min(sizes[i], own) then BackScan(sizes, own, midA, i - 1, o, Some(i)) else found
  }

  /** The forward loop from slot `i` up, with running edge `oA`. */
  function ForwardScan(sizes: seq<int>, own: int, midA: int, i: nat, oA: int, found: nat): nat
    requires i <= |sizes|
    decreases |sizes| - i
  {
    if i == |sizes| then found
    else
      var o := oA + sizes[i];
      if midA > o - Min(sizes[i], own) then ForwardScan(sizes, own, midA, i + 1, o, i) else found
  }

  /**
   * The index chosen for an item whose midpoint is `midA`, whose own home
   * midpoint is `midH` at index `idxH`, whose half-size is `mid`, in a
   * container whose first slot starts at `start`; None when the item sits
   * exactly on its home midpoint or no slot before it can take it.
   */
  function DropIndex(sizes: seq<int>, own: int, mid: int, midA: int, midH: int, idxH: nat, start: int): Option<nat>
    requires idxH < |sizes|
  {
    if midA < midH then BackScan(sizes, own, midA, idxH, midH + mid, None)
    else if midA > midH then Some(ForwardScan(sizes, own, midA, 0, start, 0))
    else None
  }

  // ---- reference definitions -------------------------------------------

  /** Sum of the sizes of slots `j` up to and including `hi`. */
  function RangeSum(sizes: seq<int>, j: nat, hi: nat): int
    requires j <= hi + 1 && hi < |sizes|
    decreases hi + 1 - j
  {
    if j == hi + 1 then 0 else sizes[j] + RangeSum(sizes, j + 1, hi)
  }

  /** Moving back: slot `j` is taken when the midpoint is before the slot's lower edge plus the smaller size. */
  predicate BackFits(sizes: seq<int>, own: int, midA: int, top: int, hi: nat, j: nat)
    requires j <= hi < |sizes|
  {
    midA < top - RangeSum(sizes, j, hi) + Min(sizes[j], own)
  }

  /** Moving forward: slot `j` is taken when the midpoint is past the slot's upper edge minus the smaller size. */
  predicate FwdFits(sizes: seq<int>, own: int, midA: int, start: int, j: nat)
    requires j < |sizes|
  {
    midA > start + PrefixSum(sizes, j + 1) - Min(sizes[j], own)
  }

  lemma {:induction false} BackScanFrom(sizes: seq<int>, own: int, midA: int, top: int, hi: nat, i: int, oA: int, found: Option<nat>)
    requires -1 <= i <= hi < |sizes|
    requires oA == top - RangeSum(sizes, i + 1, hi)
    requires found == if i == hi then None else Some(i + 1)
    requires forall j | i < j <= hi :: BackFits(sizes, own, midA, top, hi, j)
    ensures var r := BackScan(sizes, own, midA, i, oA, found);
            && (r.None? <==> i == hi && !BackFits(sizes, own, midA, top, hi, hi))
            && (r.Some? ==> r.value <= hi)
            && (r.Some? ==> forall j | r.value <= j <= hi :: BackFits(sizes, own, midA, top, hi, j))
            && (r.Some? && r.value > 0 ==> !BackFits(sizes, own, midA, top, hi, r.value - 1))
    decreases i + 1
  {
    if i >= 0 {
      var o := oA - sizes[i];
      var fits := midA < o + Min(sizes[i], own);
      assert fits == BackFits(sizes, own, midA, top, hi, i);
      if fits {
        BackScanFrom(sizes, own, midA, top, hi, i - 1, o, Some(i));
      } else {
        assert BackScan(sizes, own, midA, i, oA, found) == found;
      }
    }
  }

  /**
   * The backward scan yields the lowest slot of the unbroken run of slots,
   * counting down from the item's own index, that each take the item; it
   * yields nothing exactly when the item's own slot does not.
   */
  lemma BackScanFacts(sizes: seq<int>, own: int, midA: int, top: int, hi: nat)
    requires hi < |sizes|
    ensures var r := BackScan(sizes, own, midA, hi, top, None);
            && (r.None? <==> !BackFits(sizes, own, midA, top, hi, hi))
            && (r.Some? ==> r.value <= hi)
            && (r.Some? ==> forall j | r.value <= j <= hi :: BackFits(sizes, own, midA, top, hi, j))
            && (r.Some? && r.value > 0 ==> !BackFits(sizes, own, midA, top, hi, r.value - 1))
  {
    BackScanFrom(sizes, own, midA, top, hi, hi, top, None);
  }

  lemma {:induction false} ForwardScanFrom(sizes: seq<int>, own: int, midA: int, start: int, i: nat, oA: int, found: nat)
    requires 0 < |sizes| && i <= |sizes|
    requires oA == start + PrefixSum(sizes, i)
    requires found == if i == 0 then 0 else i - 1
    requires forall j | 0 <= j < i :: FwdFits(sizes, own, midA, start, j)
    ensures var r := ForwardScan(sizes, own, midA, i, oA, found);
            && r < |sizes|
            && (FwdFits(sizes, own, midA, start, 0) ==>
                  (forall j | 0 <= j <= r :: FwdFits(sizes, own, midA, start, j))
                  && (r + 1 < |sizes| ==> !FwdFits(sizes, own, midA, start, r + 1)))
            && (!FwdFits(sizes, own, midA, start, 0) ==> r == 0)
    decreases |sizes| - i
  {
    if i < |sizes| {
      var o := oA + sizes[i];
      if midA > o - Min(sizes[i], own) {
        ForwardScanFrom(sizes, own, midA, start, i + 1, o, i);
      }
    }
  }

  /**
   * The forward scan yields the highest slot of the unbroken run of slots,
   * counting up from the first, that each take the item, and slot 0 when
   * not even the first does.
   */
  lemma ForwardScanFacts(sizes: seq<int>, own: int, midA: int, start: int)
    requires 0 < |sizes|
    ensures var r := ForwardScan(sizes, own, midA, 0, start, 0);
            && r < |sizes|
            && (FwdFits(sizes, own, midA, start, 0) ==>
                  (forall j | 0 <= j <= r :: FwdFits(sizes, own, midA, start, j))
                  && (r + 1 < |sizes| ==> !FwdFits(sizes, own, midA, start, r + 1)))
            && (!FwdFits(sizes, own, midA, start, 0) ==> r == 0)
  {
    ForwardScanFrom(sizes, own, midA, start, 0, start, 0);
  }

  /**
   * No index when the item is on its home midpoint; at most its own index
   * when it moved back; at most one past the last item when it moved
   * forward, and then always some index.
   */
  lemma DropIndexBounds(sizes: seq<int>, own: int, mid: int, midA: int, midH: int, idxH: nat, start: int)
    requires idxH < |sizes|
    ensures var r := DropIndex(sizes, own, mid, midA, midH, idxH, start);
            && (midA == midH ==> r.None?)
            && (midA < midH && r.Some? ==> r.value <= idxH)
            && (midA > midH ==> r.Some? && r.value < |sizes|)
  {
    if midA < midH {
      BackScanFacts(sizes, own, midA, midH + mid, idxH);
    } else if midA > midH {
      ForwardScanFacts(sizes, own, midA, start);
    }
  }

  // ---- the loops as the source runs them ---------------------------------

  method ScanBackward(sizes: seq<int>, own: int, mid: int, midA: int, midH: int, idxH: nat) returns (idx: Option<nat>)
    requires idxH < |sizes|
    ensures idx == BackScan(sizes, own, midA, idxH, midH + mid, None)
    ensures idx.Some? ==> idx.value <= idxH
  {
    idx := None;
    var oA := midH + mid;
    var i: int := idxH;
    while i >= 0
      invariant -1 <= i <= idxH
      invariant BackScan(sizes, own, midA, idxH, midH + mid, None) == BackScan(sizes, own, midA, i, oA, idx)
      invariant idx.Some? ==> idx.value <= idxH
      decreases i + 1
    {
      var ciSize := sizes[i];
      var size := ciSize;
      if own < size {
        size := own;
      }
      var next := oA - ciSize;
      if midA < next + size {
        idx := Some(i);
      } else {
        break;
      }
      oA := next;
      i := i - 1;
    }
  }

  method ScanForward(sizes: seq<int>, own: int, midA: int, start: int) returns (idx: nat)
    ensures idx == ForwardScan(sizes, own, midA, 0, start, 0)
    ensures 0 < |sizes| ==> idx < |sizes|
  {
    idx := 0;
    var oA := start;
    var i := 0;
    while i < |sizes|
      invariant 0 <= i <= |sizes|
      invariant ForwardScan(sizes, own, midA, 0, start, 0) == ForwardScan(sizes, own, midA, i, oA, idx)
      invariant idx < |sizes| || (i == 0 && idx == 0)
    {
      var ciSize := sizes[i];
      var size := ciSize;
      if own < size {
        size := own;
      }
      var next := oA + ciSize;
      if midA > next - size {
        idx := i;
      } else {
        break;
      }
      oA := next;
      i := i + 1;
    }
  }

  /**
   * Three items of total size 50 in a container starting at 0, the first of
   * them dragged until its midpoint is at 140 (its home midpoint is 25):
   * the search lands on index 2.
   */
  lemma ThreeItemsExample()
    ensures DropIndex([50, 50, 50, 50], 50, 25, 140, 25, 0, 0) == Some(2)
  {
    var s := [50, 50, 50, 50];
    assert ForwardScan(s, 50, 140, 3, 150, 2) == 2;
  }
}
