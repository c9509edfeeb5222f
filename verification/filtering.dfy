/**
 * Order-preserving selection of the elements of a sequence that satisfy a
 * predicate: the meaning of an iterator pipeline `xs.filter(p).collect()`.
 */
module Filtering {

  /** The elements of `xs` that satisfy `p`, in their original order. */
  function Filter<T>(xs: seq<T>, p: T -> bool): (r: seq<T>)
    ensures |r| <= |xs|
    ensures forall k :: 0 <= k < |r| ==> p(r[k])
    decreases |xs|
  {
    if xs == [] then []
    else if p(xs[0]) then [xs[0]] + Filter(xs[1..], p)
    else Filter(xs[1..], p)
  }

  ghost predicate Increasing(idx: seq<nat>) {
    forall a, b :: 0 <= a < b < |idx| ==> idx[a] < idx[b]
  }

  /**
   * `r` is exactly the selection of `xs` by `p` through the positions `idx`:
   * the positions ascend, each element of `r` is the element of `xs` at its
   * position, and a position of `xs` is used exactly when `p` holds there.
   */
  ghost predicate Selects<T>(r: seq<T>, xs: seq<T>, p: T -> bool, idx: seq<nat>) {
    && |idx| == |r|
    && Increasing(idx)
    && (forall k :: 0 <= k < |idx| ==> idx[k] < |xs| && r[k] == xs[idx[k]])
    && (forall i :: 0 <= i < |xs| ==> (p(xs[i]) <==> i in idx))
  }

  /** The positions at or after `lo` where `p` holds, ascending. */
  ghost function PositionsFrom<T>(xs: seq<T>, p: T -> bool, lo: nat): seq<nat>
    decreases |xs| - lo
  {
    if lo >= |xs| then []
    else (if p(xs[lo]) then [lo] else []) + PositionsFrom(xs, p, lo + 1)
  }

  ghost function Positions<T>(xs: seq<T>, p: T -> bool): seq<nat> {
    PositionsFrom(xs, p, 0)
  }

  /** `Selects` restricted to the positions from `lo` on. */
  ghost predicate SelectsFrom<T>(r: seq<T>, xs: seq<T>, p: T -> bool, idx: seq<nat>, lo: nat) {
    && |idx| == |r|
    && Increasing(idx)
    && (forall k :: 0 <= k < |idx| ==> lo <= idx[k] < |xs| && r[k] == xs[idx[k]])
    && (forall i :: lo <= i < |xs| ==> (p(xs[i]) <==> i in idx))
  }

  lemma SelectsFromKept<T>(xs: seq<T>, p: T -> bool, lo: nat, rest: seq<T>, later: seq<nat>)
    requires lo < |xs| && p(xs[lo])
    requires SelectsFrom(rest, xs, p, later, lo + 1)
    ensures SelectsFrom([xs[lo]] + rest, xs, p, [lo] + later, lo)
  {
    var r, idx := [xs[lo]] + rest, [lo] + later;
    forall k | 0 <= k < |idx| ensures lo <= idx[k] < |xs| && r[k] == xs[idx[k]] {
      if k > 0 {
        assert idx[k] == later[k - 1] && r[k] == rest[k - 1];
      }
    }
    forall i | lo <= i < |xs| ensures p(xs[i]) <==> i in idx {
      assert i in idx <==> i == lo || i in later;
    }
  }

  lemma SelectsFromSkipped<T>(xs: seq<T>, p: T -> bool, lo: nat, rest: seq<T>, later: seq<nat>)
    requires lo < |xs| && !p(xs[lo])
    requires SelectsFrom(rest, xs, p, later, lo + 1)
    ensures SelectsFrom(rest, xs, p, later, lo)
  {
  }

  lemma {:induction false} FilterFromSelects<T>(xs: seq<T>, p: T -> bool, lo: nat)
    requires lo <= |xs|
    ensures SelectsFrom(Filter(xs[lo..], p), xs, p, PositionsFrom(xs, p, lo), lo)
    decreases |xs| - lo
  {
    if lo < |xs| {
      FilterFromSelects(xs, p, lo + 1);
      var rest, later := Filter(xs[lo + 1..], p), PositionsFrom(xs, p, lo + 1);
      assert xs[lo..][0] == xs[lo] && xs[lo..][1..] == xs[lo + 1..];
      if p(xs[lo]) {
        assert Filter(xs[lo..], p) == [xs[lo]] + rest && PositionsFrom(xs, p, lo) == [lo] + later;
        SelectsFromKept(xs, p, lo, rest, later);
      } else {
        assert Filter(xs[lo..], p) == rest && PositionsFrom(xs, p, lo) == later;
        SelectsFromSkipped(xs, p, lo, rest, later);
      }
    }
  }

  /** `Filter` keeps exactly the satisfying elements, in order. */
  lemma {:induction false} FilterSelects<T>(xs: seq<T>, p: T -> bool)
    ensures Selects(Filter(xs, p), xs, p, Positions(xs, p))
  {
    FilterFromSelects(xs, p, 0);
    assert xs[0..] == xs;
  }

  /** `a` can be obtained from `b` by deleting elements. */
  predicate IsSubsequence<T(==)>(a: seq<T>, b: seq<T>)
    decreases |b|
  {
    a == [] || (b != [] && ((a[0] == b[0] && IsSubsequence(a[1..], b[1..])) || IsSubsequence(a, b[1..])))
  }

  lemma {:induction false} FilterIsSubsequence<T>(xs: seq<T>, p: T -> bool)
    ensures IsSubsequence(Filter(xs, p), xs)
    decreases |xs|
  {
    if xs != [] {
      FilterIsSubsequence(xs[1..], p);
      if p(xs[0]) {
        assert ([xs[0]] + Filter(xs[1..], p))[1..] == Filter(xs[1..], p);
      }
    }
  }

  /** A weaker predicate keeps everything a stronger one keeps, in the same order. */
  lemma {:induction false} FilterMonotone<T>(xs: seq<T>, p: T -> bool, q: T -> bool)
    requires forall x :: x in xs && p(x) ==> q(x)
    ensures IsSubsequence(Filter(xs, p), Filter(xs, q))
    decreases |xs|
  {
    if xs != [] {
      FilterMonotone(xs[1..], p, q);
      var a, b := Filter(xs[1..], p), Filter(xs[1..], q);
      if p(xs[0]) {
        assert ([xs[0]] + a)[1..] == a;
        assert ([xs[0]] + b)[1..] == b;
      } else if q(xs[0]) {
        assert ([xs[0]] + b)[1..] == b;
      }
    }
  }

  /** Predicates that agree on `xs` select the same elements. */
  lemma {:induction false} FilterCongruent<T>(xs: seq<T>, p: T -> bool, q: T -> bool)
    requires forall k :: 0 <= k < |xs| ==> p(xs[k]) == q(xs[k])
    ensures Filter(xs, p) == Filter(xs, q)
    decreases |xs|
  {
    if xs != [] {
      FilterCongruent(xs[1..], p, q);
    }
  }

  /** A predicate that holds everywhere on `xs` keeps all of `xs`. */
  lemma {:induction false} FilterAll<T>(xs: seq<T>, p: T -> bool)
    requires forall k :: 0 <= k < |xs| ==> p(xs[k])
    ensures Filter(xs, p) == xs
    decreases |xs|
  {
    if xs != [] {
      FilterAll(xs[1..], p);
    }
  }
}
