/** Filtered lists: what passes a test, in order. */
module Lists {

  /** The elements that pass a test, in order. */
  function Filter<T>(keep: T -> bool, xs: seq<T>): seq<T> {
    if xs == [] then []
    else
      var n := |xs| - 1;
      Filter(keep, xs[..n]) + (if keep(xs[n]) then [xs[n]] else [])
  }

  /** The positions of the elements that pass, from left to right. */
  ghost predicate Positions<T>(keep: T -> bool, xs: seq<T>, at: seq<nat>) {
    && (forall j, k :: 0 <= j < k < |at| ==> at[j] < at[k])
    && (forall k :: 0 <= k < |at| ==> at[k] < |xs| && keep(xs[at[k]]))
    && (forall i: nat :: i < |xs| && keep(xs[i]) ==> i in at)
  }

  /** The list has exactly the elements at those positions. */
  ghost predicate AreAt<T>(ys: seq<T>, xs: seq<T>, at: seq<nat>) {
    |ys| == |at| && forall k :: 0 <= k < |at| ==> at[k] < |xs| && ys[k] == xs[at[k]]
  }

  /** Exactly the elements that pass are kept, each as often as it is there and in their order. */
  ghost predicate Kept<T>(keep: T -> bool, xs: seq<T>, ys: seq<T>) {
    exists at: seq<nat> :: Positions(keep, xs, at) && AreAt(ys, xs, at)
  }

  lemma {:induction false} FilterPositions<T>(keep: T -> bool, xs: seq<T>) returns (at: seq<nat>)
    ensures Positions(keep, xs, at) && AreAt(Filter(keep, xs), xs, at)
  {
    if xs == [] {
      at := [];
    } else {
      var n := |xs| - 1;
      at := FilterPositions(keep, xs[..n]);
      assert forall i :: 0 <= i < n ==> xs[..n][i] == xs[i];
      if keep(xs[n]) {
        var more := at + [n];
        forall i: nat | i < |xs| && keep(xs[i]) ensures i in more {
          if i < n {
            assert i in at;
          } else {
            assert more[|at|] == n;
          }
        }
        at := more;
      }
    }
  }

  lemma FilterKeeps<T>(keep: T -> bool, xs: seq<T>)
    ensures Kept(keep, xs, Filter(keep, xs))
  {
    var at := FilterPositions(keep, xs);
  }

  lemma {:induction false} InFilter<T>(keep: T -> bool, xs: seq<T>, x: T)
    ensures x in Filter(keep, xs) <==> x in xs && keep(x)
  {
    if xs != [] {
      var n := |xs| - 1;
      InFilter(keep, xs[..n], x);
      assert xs == xs[..n] + [xs[n]];
    }
  }

  lemma {:induction false} NonePass<T>(keep: T -> bool, xs: seq<T>)
    ensures Filter(keep, xs) == [] <==> forall x :: x in xs ==> !keep(x)
    ensures |Filter(keep, xs)| <= |xs|
  {
    if xs != [] {
      var n := |xs| - 1;
      NonePass(keep, xs[..n]);
      assert xs == xs[..n] + [xs[n]];
    }
  }

  lemma FilterAppend<T>(keep: T -> bool, xs: seq<T>, x: T)
    ensures Filter(keep, xs + [x]) == Filter(keep, xs) + (if keep(x) then [x] else [])
  {
    assert (xs + [x])[..|xs|] == xs;
  }

  /** Filtering twice is filtering by both tests. */
  lemma {:induction false} FilterTwice<T>(p: T -> bool, q: T -> bool, both: T -> bool, xs: seq<T>)
    requires forall x :: both(x) <==> p(x) && q(x)
    ensures Filter(q, Filter(p, xs)) == Filter(both, xs)
  {
    if xs != [] {
      var n := |xs| - 1;
      FilterTwice(p, q, both, xs[..n]);
      if p(xs[n]) {
        FilterAppend(q, Filter(p, xs[..n]), xs[n]);
      } else {
        assert Filter(p, xs[..n]) + [] == Filter(p, xs[..n]);
      }
    }
  }
}
