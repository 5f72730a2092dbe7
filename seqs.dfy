/**
 * Sequence helpers shared by the model: removal of one element (the way the
 * reflow drops the dragged item), insertion at an index, and JavaScript's
 * `Array.prototype.splice(i, 1)`.
 */
module Seqs {

  predicate NoDup<T(==)>(s: seq<T>)
  {
    forall i, j | 0 <= i < j < |s| :: s[i] != s[j]
  }

  /** `s` with every occurrence of `x` dropped, the other elements in order. */
  function Without<T(==)>(s: seq<T>, x: T): (r: seq<T>)
    ensures x !in r
    ensures forall y | y in r :: y in s
    ensures forall y | y in s && y != x :: y in r
    ensures x !in s ==> r == s
  {
    if s == [] then []
    else
      assert s == [s[0]] + s[1..];
      (if s[0] == x then [] else [s[0]]) + Without(s[1..], x)
  }

  /** `s` with `x` placed at index `i`. */
  function InsertAt<T>(s: seq<T>, i: nat, x: T): seq<T>
    requires i <= |s|
  {
    s[..i] + [x] + s[i..]
  }

  lemma ConcatAssoc<T>(a: seq<T>, b: seq<T>, c: seq<T>)
    ensures (a + b) + c == a + (b + c)
  {
  }

  lemma WithoutCons<T>(e: T, rest: seq<T>, x: T)
    ensures Without([e] + rest, x) == (if e == x then [] else [e]) + Without(rest, x)
  {
    assert ([e] + rest)[1..] == rest;
  }

  lemma NoDupSnoc<T>(s: seq<T>, x: T)
    requires NoDup(s) && x !in s
    ensures NoDup(s + [x])
  {
    var q := s + [x];
    forall i, k | 0 <= i < k < |q| ensures q[i] != q[k] {
      if k < |s| { assert q[i] == s[i] && q[k] == s[k]; } else { assert q[i] in s; }
    }
  }

  lemma InsertAtFront<T>(w: seq<T>, x: T)
    ensures InsertAt(w, 0, x) == [x] + w
  {
    assert w[..0] == [] && w[0..] == w;
  }

  lemma InsertAtCons<T>(e: T, w: seq<T>, k: nat, x: T)
    requires k <= |w|
    ensures InsertAt([e] + w, k + 1, x) == [e] + InsertAt(w, k, x)
  {
    assert ([e] + w)[..k + 1] == [e] + w[..k];
    assert ([e] + w)[k + 1..] == w[k..];
  }

  /**
   * `arr.splice(i, 1)` for a non-negative start: the element at `i` goes,
   * a start past the end removes nothing.
   */
  function Splice<T>(s: seq<T>, i: nat): seq<T>
  {
    if i < |s| then s[..i] + s[i + 1..] else s
  }

  /** Index of the last occurrence of `x` in `s`. */
  function LastIndexOf<T(==)>(s: seq<T>, x: T): (r: nat)
    requires x in s
    ensures r < |s| && s[r] == x
    ensures forall j | r < j < |s| :: s[j] != x
  {
    if s[|s| - 1] == x then |s| - 1 else LastIndexOf(s[..|s| - 1], x)
  }

  lemma {:induction false} WithoutSnoc<T>(s: seq<T>, y: T, x: T)
    ensures Without(s + [y], x) == Without(s, x) + (if y == x then [] else [y])
  {
    var tail := if y == x then [] else [y];
    if s == [] {
      assert s + [y] == [y] && [y][1..] == [];
      assert Without([y], x) == tail + Without([], x);
    } else {
      var h := if s[0] == x then [] else [s[0]];
      assert (s + [y])[0] == s[0] && (s + [y])[1..] == s[1..] + [y];
      calc {
        Without(s + [y], x);
        h + Without(s[1..] + [y], x);
        { WithoutSnoc(s[1..], y, x); }
        h + (Without(s[1..], x) + tail);
        (h + Without(s[1..], x)) + tail;
        Without(s, x) + tail;
      }
    }
  }

  /** Removing what was just inserted gives back the original sequence. */
  lemma {:induction false} WithoutInsertAt<T>(s: seq<T>, i: nat, x: T)
    requires i <= |s| && x !in s
    ensures Without(InsertAt(s, i, x), x) == s
  {
    if i == 0 {
      assert InsertAt(s, i, x) == [x] + s;
      assert ([x] + s)[1..] == s;
    } else {
      assert InsertAt(s, i, x) == [s[0]] + InsertAt(s[1..], i - 1, x);
      WithoutInsertAt(s[1..], i - 1, x);
      assert s == [s[0]] + s[1..];
    }
  }

  lemma {:induction false} WithoutConcat<T>(a: seq<T>, b: seq<T>, x: T)
    ensures Without(a + b, x) == Without(a, x) + Without(b, x)
  {
    if a == [] {
      assert a + b == b;
    } else {
      assert (a + b)[1..] == a[1..] + b;
      WithoutConcat(a[1..], b, x);
    }
  }

  lemma SplitAt<T>(s: seq<T>, i: nat)
    requires i < |s|
    ensures s == s[..i] + ([s[i]] + s[i + 1..])
  {
    assert s == s[..i] + s[i..];
    assert s[i..] == [s[i]] + s[i + 1..];
  }

  lemma NoDupSplit<T>(s: seq<T>, i: nat)
    requires NoDup(s) && i < |s|
    ensures s[i] !in s[..i] && s[i] !in s[i + 1..]
  {
  }

  lemma WithoutAround<T>(pre: seq<T>, x: T, post: seq<T>)
    requires x !in pre && x !in post
    ensures Without(pre + ([x] + post), x) == pre + post
  {
    assert Without([x] + post, x) == post by {
      WithoutConcat([x], post, x);
      assert Without([x], x) == [] by { assert [x][1..] == []; }
    }
    WithoutConcat(pre, [x] + post, x);
  }

  /** In a sequence without duplicates, splicing out the index of `x` is removing `x`. */
  lemma SpliceIsWithout<T>(s: seq<T>, i: nat)
    requires NoDup(s) && i < |s|
    ensures Splice(s, i) == Without(s, s[i])
  {
    NoDupSplit(s, i);
    SplitAt(s, i);
    WithoutAround(s[..i], s[i], s[i + 1..]);
  }

  /** Without duplicates the last occurrence is the only one. */
  lemma LastIndexOfNoDup<T>(s: seq<T>, j: nat)
    requires NoDup(s) && j < |s|
    ensures LastIndexOf(s, s[j]) == j
  {
  }

  lemma {:induction false} WithoutNoDup<T>(s: seq<T>, x: T)
    requires NoDup(s)
    ensures NoDup(Without(s, x))
  {
    if s != [] {
      assert NoDup(s[1..]);
      WithoutNoDup(s[1..], x);
      assert s[0] !in s[1..];
      assert s[0] !in Without(s[1..], x);
    }
  }

  /** Sum of the first `n` lengths. */
  function PrefixSum(xs: seq<int>, n: nat): int
    requires n <= |xs|
  {
    if n == 0 then 0 else PrefixSum(xs, n - 1) + xs[n - 1]
  }

  /** Lengths appended later do not change the sum of an earlier prefix. */
  lemma {:induction false} PrefixSumExtend(xs: seq<int>, ys: seq<int>, n: nat)
    requires n <= |xs|
    ensures PrefixSum(xs + ys, n) == PrefixSum(xs, n)
  {
    if n > 0 {
      PrefixSumExtend(xs, ys, n - 1);
      assert (xs + ys)[n - 1] == xs[n - 1];
    }
  }

  /** `Set.prototype.add` on an insertion-ordered set held as a sequence: `x` joins at the end unless present. */
  function Mark<T(==)>(s: seq<T>, x: T): (r: seq<T>)
    ensures x in r
    ensures forall y | y in r :: y in s || y == x
    ensures forall y | y in s :: y in r
    ensures NoDup(s) ==> NoDup(r)
    ensures |s| <= |r| && r[..|s|] == s
  {
    if x in s then s else s + [x]
  }

  /** The position of the first occurrence of `x`. */
  function FirstIndex<T(==)>(s: seq<T>, x: T): (r: nat)
    requires x in s
    ensures r < |s| && s[r] == x
    ensures forall i | 0 <= i < r :: s[i] != x
  {
    if s[0] == x then 0 else 1 + FirstIndex(s[1..], x)
  }

  /** Appending leaves first occurrences where they were; a new element's first occurrence is the last position. */
  lemma FirstIndexSnoc<T>(s: seq<T>, y: T)
    ensures forall x | x in s :: FirstIndex(s + [y], x) == FirstIndex(s, x)
    ensures y !in s ==> FirstIndex(s + [y], y) == |s|
  {
    forall x | x in s ensures FirstIndex(s + [y], x) == FirstIndex(s, x) {
      var i, j := FirstIndex(s + [y], x), FirstIndex(s, x);
      assert (s + [y])[j] == x;
    }
  }
}
