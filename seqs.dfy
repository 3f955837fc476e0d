/**
 * The list comprehension `[... for x in xs if p(x)]` and what it promises:
 * it keeps exactly the elements that satisfy `p`, in their original order.
 */
module Seqs {

  /** `[x for x in xs if p(x)]`. */
  function Filter<T(!new)>(xs: seq<T>, p: T -> bool): (r: seq<T>)
    ensures |r| <= |xs|
    ensures forall x :: x in r <==> x in xs && p(x)
  {
    if xs == [] then []
    else
      assert xs == [xs[0]] + xs[1..];
      (if p(xs[0]) then [xs[0]] else []) + Filter(xs[1..], p)
  }

  /** `idx` lists positions of `xs`, strictly increasing, and `r` is what
      stands at them. */
  ghost predicate Indexes<T>(idx: seq<nat>, r: seq<T>, xs: seq<T>) {
    && |idx| == |r|
    && (forall k :: 0 <= k < |idx| ==> idx[k] < |xs| && r[k] == xs[idx[k]])
    && (forall k, l :: 0 <= k < l < |idx| ==> idx[k] < idx[l])
  }

  /** `r` is `xs` with some elements dropped and the rest in their order. */
  ghost predicate IsSubsequence<T>(r: seq<T>, xs: seq<T>) {
    exists idx :: Indexes(idx, r, xs)
  }

  /** `r` is `xs` with exactly the elements satisfying `p` kept, in order:
      the positions it keeps are exactly those where `p` holds. */
  ghost predicate IsSelection<T>(r: seq<T>, xs: seq<T>, p: T -> bool) {
    exists idx :: Indexes(idx, r, xs) && (forall i :: 0 <= i < |xs| ==> (p(xs[i]) <==> i in idx))
  }

  function Shift(idx: seq<nat>): (r: seq<nat>)
    ensures |r| == |idx| && forall k :: 0 <= k < |idx| ==> r[k] == idx[k] + 1
  {
    seq(|idx|, k requires 0 <= k < |idx| => idx[k] + 1)
  }

  /** The positions of `xs` where `p` holds, in increasing order. */
  ghost function Positions<T>(xs: seq<T>, p: T -> bool): seq<nat>
  {
    if xs == [] then [] else (if p(xs[0]) then [0] else []) + Shift(Positions(xs[1..], p))
  }

  lemma {:induction false} PositionsPickAt<T(!new)>(xs: seq<T>, p: T -> bool)
    ensures |Positions(xs, p)| == |Filter(xs, p)|
    ensures forall k :: 0 <= k < |Positions(xs, p)| ==>
      Positions(xs, p)[k] < |xs| && Filter(xs, p)[k] == xs[Positions(xs, p)[k]]
  {
    if xs != [] {
      PositionsPickAt(xs[1..], p);
      var tail := Positions(xs[1..], p);
      var idx := Positions(xs, p);
      var r := Filter(xs, p);
      var head := if p(xs[0]) then [xs[0]] else [];
      var first: seq<nat> := if p(xs[0]) then [0] else [];
      assert r == head + Filter(xs[1..], p);
      assert idx == first + Shift(tail);
      forall k | 0 <= k < |idx| ensures idx[k] < |xs| && r[k] == xs[idx[k]] {
        if k >= |head| {
          assert idx[k] == tail[k - |head|] + 1;
          assert r[k] == Filter(xs[1..], p)[k - |head|];
          assert xs[idx[k]] == xs[1..][tail[k - |head|]];
        }
      }
    }
  }

  lemma {:induction false} PositionsIncreasing<T>(xs: seq<T>, p: T -> bool)
    ensures forall k, l :: 0 <= k < l < |Positions(xs, p)| ==> Positions(xs, p)[k] < Positions(xs, p)[l]
  {
    if xs != [] {
      PositionsIncreasing(xs[1..], p);
      var tail := Positions(xs[1..], p);
      var idx := Positions(xs, p);
      var first: seq<nat> := if p(xs[0]) then [0] else [];
      assert idx == first + Shift(tail);
      forall k, l | 0 <= k < l < |idx| ensures idx[k] < idx[l] {
        assert idx[l] == tail[l - |first|] + 1;
        if k >= |first| {
          assert idx[k] == tail[k - |first|] + 1;
        }
      }
    }
  }

  lemma PositionsPick<T(!new)>(xs: seq<T>, p: T -> bool)
    ensures Indexes(Positions(xs, p), Filter(xs, p), xs)
  {
    PositionsPickAt(xs, p);
    PositionsIncreasing(xs, p);
  }

  lemma ShiftMember(t: seq<nat>, i: nat)
    ensures i in Shift(t) <==> i >= 1 && i - 1 in t
  {
    if i >= 1 && i - 1 in t {
      var k :| 0 <= k < |t| && t[k] == i - 1;
      assert Shift(t)[k] == i;
    }
  }

  lemma {:induction false} PositionsExact<T>(xs: seq<T>, p: T -> bool)
    ensures forall i :: 0 <= i < |xs| ==> (p(xs[i]) <==> i in Positions(xs, p))
  {
    if xs != [] {
      PositionsExact(xs[1..], p);
      var tail := Positions(xs[1..], p);
      var head: seq<nat> := if p(xs[0]) then [0] else [];
      assert Positions(xs, p) == head + Shift(tail);
      forall i | 0 <= i < |xs| ensures p(xs[i]) <==> i in Positions(xs, p) {
        ShiftMember(tail, i);
        if i > 0 {
          assert xs[i] == xs[1..][i - 1];
        } else {
          assert 0 !in Shift(tail);
        }
      }
    }
  }

  /** The positions `Filter` keeps: exactly those where `p` holds. */
  lemma FilterPositions<T(!new)>(xs: seq<T>, p: T -> bool) returns (idx: seq<nat>)
    ensures Indexes(idx, Filter(xs, p), xs)
    ensures forall i :: 0 <= i < |xs| ==> (p(xs[i]) <==> i in idx)
  {
    idx := Positions(xs, p);
    PositionsPick(xs, p);
    PositionsExact(xs, p);
  }

  lemma FilterIsSelection<T(!new)>(xs: seq<T>, p: T -> bool)
    ensures IsSelection(Filter(xs, p), xs, p)
    ensures IsSubsequence(Filter(xs, p), xs)
  {
    var idx := FilterPositions(xs, p);
  }

  /** A predicate that holds of every element keeps the whole sequence. */
  lemma {:induction false} FilterAll<T(!new)>(xs: seq<T>, p: T -> bool)
    requires forall x :: x in xs ==> p(x)
    ensures Filter(xs, p) == xs
  {
    if xs != [] {
      FilterAll(xs[1..], p);
    }
  }

  /** Filtering a concatenation filters each part. */
  lemma {:induction false} FilterAppend<T(!new)>(a: seq<T>, b: seq<T>, p: T -> bool)
    ensures Filter(a + b, p) == Filter(a, p) + Filter(b, p)
  {
    if a != [] {
      assert (a + b)[0] == a[0];
      assert (a + b)[1..] == a[1..] + b;
      FilterAppend(a[1..], b, p);
    } else {
      assert a + b == b;
    }
  }

  /** The positions of `xs` where `p` holds, as a set. */
  ghost function Where<T>(xs: seq<T>, p: T -> bool): (s: set<int>)
    ensures forall i :: i in s <==> 0 <= i < |xs| && p(xs[i])
  {
    set i | 0 <= i < |xs| && p(xs[i])
  }

  /** Adding one element at the end adds its position when it satisfies `p`. */
  lemma WhereSnoc<T>(init: seq<T>, last: T, p: T -> bool)
    ensures Where(init + [last], p) == Where(init, p) + (if p(last) then {|init|} else {})
    ensures |init| !in Where(init, p)
  {
    var xs := init + [last];
    forall i | 0 <= i < |init| ensures xs[i] == init[i] {
    }
  }

  /** The number of kept elements is the number of positions where `p` holds. */
  lemma {:induction false} FilterCount<T(!new)>(xs: seq<T>, p: T -> bool)
    ensures |Filter(xs, p)| == |Where(xs, p)|
  {
    if xs != [] {
      var init, last := xs[..|xs| - 1], xs[|xs| - 1];
      assert xs == init + [last];
      FilterAppend(init, [last], p);
      FilterCount(init, p);
      assert [last][1..] == [];
      assert |Filter([last], p)| == if p(last) then 1 else 0;
      WhereSnoc(init, last, p);
    }
  }

  /** Python's `xs[:n]` for `n >= 0`: the first `n` elements, or all of a
      shorter list. */
  function Take<T>(xs: seq<T>, n: nat): (r: seq<T>)
    ensures |r| == if n <= |xs| then n else |xs|
    ensures r <= xs
  {
    if n <= |xs| then xs[..n] else xs
  }
}
