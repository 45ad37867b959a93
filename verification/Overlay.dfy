/** What an overlay mount shows: layers of directory trees, the highest first. */
module Overlay {
  import opened Paths
  import opened Text

  /** A link holds its target as a path from the root it is looked up in; none if it leads out of that root. */
  datatype Node = Executable | Plain | Directory | Link(to: Option<Path>)

  /** A tree by path; its root is a directory and has no entry. */
  type Tree = map<Path, Node>

  /** Everything in a tree is inside directories. */
  ghost predicate WellFormed(t: Tree) {
    forall p, k {:trigger p[..k]} :: p in t && 0 < k < |p| ==> p[..k] in t && t[p[..k]].Directory?
  }

  ghost predicate AllWellFormed(layers: seq<Tree>) {
    forall i :: 0 <= i < |layers| ==> WellFormed(layers[i])
  }

  // ----- lookup, one component at a time -----

  /** The entry of the highest layer that has one. */
  function First(layers: seq<Tree>, p: Path): Option<Node> {
    if layers == [] then None
    else if p in layers[0] then Some(layers[0][p])
    else First(layers[1..], p)
  }

  /** The layers merged below a directory: those that have it, up to one that has something else there. */
  function Merged(layers: seq<Tree>, p: Path): seq<Tree> {
    if layers == [] then []
    else if p !in layers[0] then Merged(layers[1..], p)
    else if layers[0][p].Directory? then [layers[0]] + Merged(layers[1..], p)
    else []
  }

  function Walk(layers: seq<Tree>, p: Path, k: nat): Option<Node>
    requires 1 <= k <= |p|
    decreases |p| - k
  {
    var entry := First(layers, p[..k]);
    if k == |p| then entry
    else if entry == Some(Directory) then Walk(Merged(layers, p[..k]), p, k + 1)
    else None
  }

  function Lookup(layers: seq<Tree>, p: Path): Option<Node> {
    if p == [] then Some(Directory) else Walk(layers, p, 1)
  }

  // ----- what shows, layer by layer -----

  /** Something that is no directory stands above p. */
  predicate Hides(t: Tree, p: Path) {
    exists k | 0 < k < |p| :: p[..k] in t && !t[p[..k]].Directory?
  }

  /** Layer i is the highest that holds p, and no layer above it hides p. */
  ghost predicate ShowsFrom(layers: seq<Tree>, p: Path, i: nat) {
    && i < |layers| && p in layers[i]
    && forall j :: 0 <= j < i ==> p !in layers[j] && !Hides(layers[j], p)
  }

  function Shown(layers: seq<Tree>, p: Path): Option<Node> {
    if layers == [] then None
    else if p in layers[0] then Some(layers[0][p])
    else if Hides(layers[0], p) then None
    else Shown(layers[1..], p)
  }

  lemma {:induction false} ShownIff(layers: seq<Tree>, p: Path, v: Node)
    ensures Shown(layers, p) == Some(v) <==> exists i: nat :: ShowsFrom(layers, p, i) && layers[i][p] == v
  {
    if layers != [] {
      var rest := layers[1..];
      ShownIff(rest, p, v);
      if p in layers[0] {
        assert ShowsFrom(layers, p, 0);
      } else {
        if i: nat :| ShowsFrom(rest, p, i) && rest[i][p] == v {
          if !Hides(layers[0], p) {
            assert ShowsFrom(layers, p, i + 1);
          }
        }
        if i: nat :| ShowsFrom(layers, p, i) && layers[i][p] == v {
          assert forall j :: 0 <= j < i - 1 ==> rest[j] == layers[j + 1];
          assert ShowsFrom(rest, p, i - 1);
        }
      }
    }
  }

  /** Every layer has the first k components of p as directories. */
  ghost predicate HaveWay(layers: seq<Tree>, p: Path, k: nat)
    requires k <= |p|
  {
    forall i :: 0 <= i < |layers| ==>
      forall j :: 0 < j <= k ==> p[..j] in layers[i] && layers[i][p[..j]].Directory?
  }

  lemma {:induction false} MergedKeeps(layers: seq<Tree>, p: Path, k: nat)
    requires k < |p| && AllWellFormed(layers) && HaveWay(layers, p, k)
    ensures AllWellFormed(Merged(layers, p[..k + 1])) && HaveWay(Merged(layers, p[..k + 1]), p, k + 1)
  {
    if layers != [] {
      MergedKeeps(layers[1..], p, k);
    }
  }

  /** A layer without the next component neither holds nor hides what is below it. */
  lemma NeitherHoldsNorHides(t: Tree, p: Path, k: nat)
    requires k < |p| && WellFormed(t) && HaveWay([t], p, k) && p[..k + 1] !in t
    ensures p !in t && !Hides(t, p)
  {
    assert HaveWay([t], p, k) ==> forall j :: 0 < j <= k ==> p[..j] in [t][0] && [t][0][p[..j]].Directory?;
    forall j | k + 1 < j <= |p| ensures p[..j] !in t {
      assert p[..j][..k + 1] == p[..k + 1];
    }
    if k + 1 < |p| {
      assert p[..|p|] == p;
    } else {
      assert p[..k + 1] == p;
    }
  }

  lemma {:induction false} ShownBelow(layers: seq<Tree>, p: Path, k: nat)
    requires k + 1 < |p| && AllWellFormed(layers) && HaveWay(layers, p, k)
    ensures Shown(layers, p) == Shown(Merged(layers, p[..k + 1]), p)
    ensures First(layers, p[..k + 1]) != Some(Directory) ==> Shown(layers, p) == None
  {
    if layers != [] {
      var q, t := p[..k + 1], layers[0];
      ShownBelow(layers[1..], p, k);
      if q !in t {
        NeitherHoldsNorHides(t, p, k);
      } else if !t[q].Directory? {
        assert p !in t;
        assert Hides(t, p);
      }
    }
  }

  lemma {:induction false} ShownAtEnd(layers: seq<Tree>, p: Path)
    requires p != [] && AllWellFormed(layers) && HaveWay(layers, p, |p| - 1)
    ensures Shown(layers, p) == First(layers, p)
  {
    if layers != [] {
      ShownAtEnd(layers[1..], p);
      assert !Hides(layers[0], p);
    }
  }

  lemma {:induction false} WalkIsShown(layers: seq<Tree>, p: Path, k: nat)
    requires 1 <= k <= |p| && AllWellFormed(layers) && HaveWay(layers, p, k - 1)
    ensures Walk(layers, p, k) == Shown(layers, p)
    decreases |p| - k
  {
    if k == |p| {
      assert p[..k] == p;
      ShownAtEnd(layers, p);
    } else {
      ShownBelow(layers, p, k - 1);
      if First(layers, p[..k]) == Some(Directory) {
        MergedKeeps(layers, p, k - 1);
        WalkIsShown(Merged(layers, p[..k]), p, k + 1);
      }
    }
  }

  /**
   * Looking a path up component by component finds the entry of the highest layer that holds it, unless a
   * layer above that one has something other than a directory on the way.
   */
  lemma LookupIsShown(layers: seq<Tree>, p: Path)
    requires p != [] && AllWellFormed(layers)
    ensures Lookup(layers, p) == Shown(layers, p)
  {
    WalkIsShown(layers, p, 1);
  }

  /** In a mount of two layers a lower entry shows exactly when the upper layer neither holds nor hides it. */
  lemma LowerShowsIff(upper: Tree, lower: Tree, p: Path)
    requires p != [] && WellFormed(upper) && WellFormed(lower)
    ensures p in upper ==> Lookup([upper, lower], p) == Some(upper[p])
    ensures p in lower && p !in upper ==> (Lookup([upper, lower], p) == Some(lower[p]) <==> !Hides(upper, p))
    ensures p !in lower && p !in upper ==> Lookup([upper, lower], p) == None
  {
    var layers := [upper, lower];
    LookupIsShown(layers, p);
    assert layers[1..] == [lower] && [lower][1..] == [];
    assert Shown([lower], p) == if p in lower then Some(lower[p]) else if Hides(lower, p) then None else Shown([], p);
  }

  /** A single layer shows what it holds. */
  lemma OneLayer(t: Tree, p: Path)
    requires p != [] && WellFormed(t)
    ensures Lookup([t], p) == if p in t then Some(t[p]) else None
  {
    LookupIsShown([t], p);
    assert [t][1..] == [];
  }

  lemma {:induction false} EmptyLayerWalk(layers: seq<Tree>, p: Path, k: nat)
    requires 1 <= k <= |p|
    ensures Walk([map[]] + layers, p, k) == Walk(layers, p, k)
  {
    var more := [map[]] + layers;
    assert more[1..] == layers;
  }

  // ----- symbolic links -----

  /** The kernel gives up after this many links. */
  const MAX_LINKS: nat := 40

  /** The path reached by following links on the way, and at its end as well if asked to. */
  function Resolve(layers: seq<Tree>, at: Path, rest: Path, followLast: bool, links: nat): Option<Path>
    decreases links, |rest|
  {
    if rest == [] then Some(at)
    else
      var next := at + [rest[0]];
      match Lookup(layers, next)
      case None => None
      case Some(Directory) => Resolve(layers, next, rest[1..], followLast, links)
      case Some(Link(to)) =>
        if |rest| == 1 && !followLast then Some(next)
        else if links == 0 || to.None? then None
        else Resolve(layers, [], to.value + rest[1..], followLast, links - 1)
      case Some(_) => if |rest| == 1 then Some(next) else None
  }

  /** `[ -x p ]`, which follows links to the end and also holds of directories. */
  predicate TestX(layers: seq<Tree>, p: Path) {
    var r := Resolve(layers, [], p, true, MAX_LINKS);
    r.Some? && Lookup(layers, r.value) in {Some(Executable), Some(Directory)}
  }

  /** `[ -L p ]`, which looks at the last link itself. */
  predicate TestL(layers: seq<Tree>, p: Path) {
    var r := Resolve(layers, [], p, false, MAX_LINKS);
    r.Some? && match Lookup(layers, r.value) case Some(Link(_)) => true case _ => false
  }

  /** Only directories lead to the end of the path. */
  ghost predicate WayShows(layers: seq<Tree>, at: Path, rest: Path) {
    forall k :: 0 < k < |rest| ==> Lookup(layers, at + rest[..k]) == Some(Directory)
  }

  /** At the end of such a way a path resolves to itself, unless a link there is followed to its target. */
  lemma {:induction false} ResolveWay(layers: seq<Tree>, at: Path, rest: Path, followLast: bool, links: nat)
    requires rest != [] && WayShows(layers, at, rest)
    ensures var end, found := at + rest, Lookup(layers, at + rest);
            Resolve(layers, at, rest, followLast, links) ==
              if found.None? then None
              else if !found.value.Link? || !followLast then Some(end)
              else if links == 0 || found.value.to.None? then None
              else Resolve(layers, [], found.value.to.value, followLast, links - 1)
    decreases |rest|
  {
    var next := at + [rest[0]];
    assert next + rest[1..] == at + rest;
    if |rest| == 1 {
      assert rest == [rest[0]] && rest[1..] == [];
      if Lookup(layers, next).Some? && Lookup(layers, next).value.Link? && Lookup(layers, next).value.to.Some? {
        assert Lookup(layers, next).value.to.value + [] == Lookup(layers, next).value.to.value;
      }
    } else {
      assert rest[..1] == [rest[0]];
      forall k | 0 < k < |rest[1..]| ensures Lookup(layers, next + rest[1..][..k]) == Some(Directory) {
        assert next + rest[1..][..k] == at + rest[..k + 1];
      }
      ResolveWay(layers, next, rest[1..], followLast, links);
    }
  }

  /** What the two tests say of a path that directories lead to. */
  lemma TestsAre(layers: seq<Tree>, p: Path)
    requires p != [] && WayShows(layers, [], p)
    ensures TestL(layers, p) <==> Lookup(layers, p).Some? && Lookup(layers, p).value.Link?
    ensures !TestL(layers, p) ==> (TestX(layers, p) <==> Lookup(layers, p) in {Some(Executable), Some(Directory)})
    ensures Lookup(layers, p) == Some(Link(None)) ==> !TestX(layers, p)
  {
    assert [] + p == p;
    ResolveWay(layers, [], p, true, MAX_LINKS);
    ResolveWay(layers, [], p, false, MAX_LINKS);
  }

  lemma {:induction false} ResolveSame(
      a: seq<Tree>, b: seq<Tree>, at: Path, rest: Path, followLast: bool, links: nat)
    requires forall p :: Lookup(a, p) == Lookup(b, p)
    ensures Resolve(a, at, rest, followLast, links) == Resolve(b, at, rest, followLast, links)
    decreases links, |rest|
  {
    if rest != [] {
      var next := at + [rest[0]];
      assert Lookup(a, next) == Lookup(b, next);
      match Lookup(a, next)
      case Some(Directory) => ResolveSame(a, b, next, rest[1..], followLast, links);
      case Some(Link(to)) =>
        if links > 0 && to.Some? {
          ResolveSame(a, b, [], to.value + rest[1..], followLast, links - 1);
        }
      case _ =>
    }
  }

  /** Tests do not notice an empty layer on top. */
  lemma EmptyLayerUnnoticed(layers: seq<Tree>, p: Path)
    ensures TestX([map[]] + layers, p) == TestX(layers, p) && TestL([map[]] + layers, p) == TestL(layers, p)
  {
    var more := [map[]] + layers;
    forall q ensures Lookup(more, q) == Lookup(layers, q) {
      if q != [] {
        EmptyLayerWalk(layers, q, 1);
      }
    }
    ResolveSame(more, layers, [], p, true, MAX_LINKS);
    ResolveSame(more, layers, [], p, false, MAX_LINKS);
  }
}
