/** Lists sorted by a grade: taking them apart by grade and putting them together again. */
module Grading {

  /** The elements of one grade, in order. */
  function Pick<T>(grade: T -> nat, xs: seq<T>, k: nat): seq<T> {
    if xs == [] then []
    else (if grade(xs[0]) == k then [xs[0]] else []) + Pick(grade, xs[1..], k)
  }

  /** Blocks one after the other, from block k on. */
  function Flat<T>(blocks: seq<seq<T>>, k: nat): seq<T>
    requires k <= |blocks|
    decreases |blocks| - k
  {
    if k == |blocks| then [] else blocks[k] + Flat(blocks, k + 1)
  }

  /** All elements of one grade; block k has grade k. */
  ghost predicate AllOf<T>(grade: T -> nat, xs: seq<T>, k: nat) {
    forall i :: 0 <= i < |xs| ==> grade(xs[i]) == k
  }

  ghost predicate Graded<T>(grade: T -> nat, blocks: seq<seq<T>>) {
    forall k :: 0 <= k < |blocks| ==> AllOf(grade, blocks[k], k)
  }

  ghost predicate AtLeast<T>(grade: T -> nat, xs: seq<T>, k: nat) {
    forall i :: 0 <= i < |xs| ==> k <= grade(xs[i])
  }

  ghost predicate Ordered<T>(grade: T -> nat, xs: seq<T>) {
    xs != [] ==> AtLeast(grade, xs[1..], grade(xs[0])) && Ordered(grade, xs[1..])
  }

  lemma {:induction false} PickConcat<T>(grade: T -> nat, a: seq<T>, b: seq<T>, k: nat)
    ensures Pick(grade, a + b, k) == Pick(grade, a, k) + Pick(grade, b, k)
  {
    if a == [] {
      assert a + b == b;
    } else {
      PickConcat(grade, a[1..], b, k);
      var head := if grade(a[0]) == k then [a[0]] else [];
      assert (a + b)[0] == a[0] && (a + b)[1..] == a[1..] + b;
      assert head + (Pick(grade, a[1..], k) + Pick(grade, b, k)) == head + Pick(grade, a[1..], k) + Pick(grade, b, k);
    }
  }

  lemma {:induction false} PickAllOrNone<T>(grade: T -> nat, xs: seq<T>, j: nat, k: nat)
    requires AllOf(grade, xs, j)
    ensures Pick(grade, xs, k) == if j == k then xs else []
  {
    if xs != [] {
      PickAllOrNone(grade, xs[1..], j, k);
    }
  }

  lemma {:induction false} PickNone<T>(grade: T -> nat, xs: seq<T>, k: nat)
    requires AtLeast(grade, xs, k + 1)
    ensures Pick(grade, xs, k) == []
  {
    if xs != [] {
      PickNone(grade, xs[1..], k);
    }
  }

  lemma PickBlock<T>(grade: T -> nat, block: seq<T>, rest: seq<T>, j: nat, k: nat)
    requires AllOf(grade, block, j)
    ensures Pick(grade, block + rest, k) == if j == k then block + Pick(grade, rest, k) else Pick(grade, rest, k)
  {
    PickConcat(grade, block, rest, k);
    PickAllOrNone(grade, block, j, k);
    assert [] + Pick(grade, rest, k) == Pick(grade, rest, k);
  }

  /** Picking a grade out of flattened blocks gives that block. */
  lemma {:induction false} PickFlat<T>(grade: T -> nat, blocks: seq<seq<T>>, j: nat, k: nat)
    requires Graded(grade, blocks) && j <= |blocks| && k < |blocks|
    ensures Pick(grade, Flat(blocks, j), k) == if j <= k then blocks[k] else []
    decreases |blocks| - j
  {
    if j < |blocks| {
      var block, rest := blocks[j], Flat(blocks, j + 1);
      PickFlat(grade, blocks, j + 1, k);
      PickBlock(grade, block, rest, j, k);
      assert block + [] == block;
    }
  }

  lemma {:induction false} OrderedConcat<T>(grade: T -> nat, a: seq<T>, b: seq<T>, k: nat)
    requires AllOf(grade, a, k) && AtLeast(grade, b, k) && Ordered(grade, b)
    ensures Ordered(grade, a + b) && AtLeast(grade, a + b, k)
  {
    if a == [] {
      assert a + b == b;
    } else {
      OrderedConcat(grade, a[1..], b, k);
      assert (a + b)[1..] == a[1..] + b;
    }
  }

  lemma {:induction false} FlatOrdered<T>(grade: T -> nat, blocks: seq<seq<T>>, k: nat)
    requires Graded(grade, blocks) && k <= |blocks|
    ensures Ordered(grade, Flat(blocks, k)) && AtLeast(grade, Flat(blocks, k), k)
    decreases |blocks| - k
  {
    if k < |blocks| {
      FlatOrdered(grade, blocks, k + 1);
      OrderedConcat(grade, blocks[k], Flat(blocks, k + 1), k);
    }
  }

  lemma {:induction false} FlatBelow<T>(grade: T -> nat, blocks: seq<seq<T>>, k: nat)
    requires Graded(grade, blocks) && k <= |blocks|
    ensures forall i :: 0 <= i < |Flat(blocks, k)| ==> grade(Flat(blocks, k)[i]) < |blocks|
    decreases |blocks| - k
  {
    if k < |blocks| {
      FlatBelow(grade, blocks, k + 1);
      assert AllOf(grade, blocks[k], k);
    }
  }

  lemma {:induction false} OrderedAt<T>(grade: T -> nat, xs: seq<T>, i: nat, j: nat)
    requires Ordered(grade, xs) && i < j < |xs|
    ensures grade(xs[i]) <= grade(xs[j])
  {
    if i == 0 {
      assert xs[j] == xs[1..][j - 1];
    } else {
      OrderedAt(grade, xs[1..], i - 1, j - 1);
    }
  }

  function Picks<T>(grade: T -> nat, xs: seq<T>, n: nat): (r: seq<seq<T>>)
    ensures |r| == n && forall k :: 0 <= k < n ==> r[k] == Pick(grade, xs, k)
  {
    seq(n, k requires 0 <= k < n => Pick(grade, xs, k))
  }

  lemma {:induction false} FlatSame<T>(a: seq<seq<T>>, b: seq<seq<T>>, k: nat)
    requires |a| == |b| && k <= |a| && forall i :: k <= i < |a| ==> a[i] == b[i]
    ensures Flat(a, k) == Flat(b, k)
    decreases |a| - k
  {
    if k < |a| {
      FlatSame(a, b, k + 1);
    }
  }

  lemma {:induction false} FlatOfNothing<T>(grade: T -> nat, n: nat, k: nat)
    requires k <= n
    ensures Flat(Picks(grade, [], n), k) == []
    decreases n - k
  {
    if k < n {
      FlatOfNothing(grade, n, k + 1);
    }
  }

  lemma FlatTakesFirst<T>(grade: T -> nat, xs: seq<T>, n: nat, k: nat)
    requires k < n && xs != [] && grade(xs[0]) == k
    requires xs[1..] == Flat(Picks(grade, xs[1..], n), k)
    ensures xs == Flat(Picks(grade, xs, n), k)
  {
    var picks, less := Picks(grade, xs, n), Picks(grade, xs[1..], n);
    PicksOfRest(grade, xs, n, k);
    FlatSame(picks, less, k + 1);
    Reassociate([xs[0]], less[k], Flat(less, k + 1));
    assert xs == [xs[0]] + xs[1..];
  }

  lemma Reassociate<T>(a: seq<T>, b: seq<T>, c: seq<T>)
    ensures a + (b + c) == a + b + c
  {
  }

  lemma PicksOfRest<T>(grade: T -> nat, xs: seq<T>, n: nat, k: nat)
    requires k < n && xs != [] && grade(xs[0]) == k
    ensures Picks(grade, xs, n)[k] == [xs[0]] + Picks(grade, xs[1..], n)[k]
    ensures forall i :: k < i < n ==> Picks(grade, xs, n)[i] == Picks(grade, xs[1..], n)[i]
  {
    forall i | k < i < n ensures Pick(grade, xs, i) == Pick(grade, xs[1..], i) {
      assert [] + Pick(grade, xs[1..], i) == Pick(grade, xs[1..], i);
    }
  }

  lemma AboveFirst<T>(grade: T -> nat, xs: seq<T>, k: nat)
    requires xs != [] && Ordered(grade, xs) && k < grade(xs[0])
    ensures AtLeast(grade, xs, k + 1)
  {
    forall i | 0 <= i < |xs| ensures k + 1 <= grade(xs[i]) {
      if i > 0 {
        OrderedAt(grade, xs, 0, i);
      }
    }
  }

  /** An ordered list is its grades one after the other. */
  lemma {:induction false} OrderedIsFlat<T>(grade: T -> nat, xs: seq<T>, n: nat, k: nat)
    requires k <= n && Ordered(grade, xs) && AtLeast(grade, xs, k)
    requires forall i :: 0 <= i < |xs| ==> grade(xs[i]) < n
    ensures xs == Flat(Picks(grade, xs, n), k)
    decreases n - k, |xs|
  {
    if xs == [] {
      FlatOfNothing(grade, n, k);
    } else if grade(xs[0]) == k {
      OrderedIsFlat(grade, xs[1..], n, k);
      FlatTakesFirst(grade, xs, n, k);
    } else {
      AboveFirst(grade, xs, k);
      PickNone(grade, xs, k);
      OrderedIsFlat(grade, xs, n, k + 1);
    }
  }

  lemma FlatThree<T>(b: seq<seq<T>>, k: nat)
    requires k + 3 <= |b|
    ensures Flat(b, k) == b[k] + b[k + 1] + b[k + 2] + Flat(b, k + 3)
  {
    assert Flat(b, k + 1) == b[k + 1] + Flat(b, k + 2);
  }
}
