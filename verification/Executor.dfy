/** The interpreter of operation lists over a staging tree; enables, udev helpers and binaries are spelled out. */
module Executor {
  import opened Lists
  import opened Paths
  import opened ServiceOps
  import opened Text

  datatype Item = Folder | Regular(content: string) | Link(target: string)

  type StagingTree = map<Path, Item>

  /** How copying one binary ends; an error stops the operation, a binary not found only fails it. */
  datatype Copied = Found | NotFound | Failed

  /**
   * The source tree, where links lead, and the handlers that live in code this model does not see. `to` is the
   * path of the tree that a link in the helpers' directory names by its target, if it is in the tree; `outside`
   * tells whether something is there, or can be copied there, if it is not.
   */
  datatype Env = Env(
    udevSource: map<string, string>,
    to: string -> Option<Path>,
    outside: string -> bool,
    copyBinary: (StagingTree, string, Dest) -> (StagingTree, Copied),
    other: (StagingTree, Op) -> (StagingTree, bool))

  // ----- creating what is missing -----

  /** Adds the pairs whose path is still free. */
  function AddMissing(st: StagingTree, pairs: seq<(Path, Item)>): StagingTree
    decreases |pairs|
  {
    if pairs == [] then st
    else AddMissing(if pairs[0].0 in st then st else st[pairs[0].0 := pairs[0].1], pairs[1..])
  }

  /** No path is to be made in two ways. */
  ghost predicate Agree(a: seq<(Path, Item)>, b: seq<(Path, Item)>) {
    forall x, y :: x in a && y in b && x.0 == y.0 ==> x == y
  }

  ghost predicate Wanted(pairs: seq<(Path, Item)>, q: Path, v: Item) {
    (q, v) in pairs
  }

  lemma {:induction false} AddMissingAt(st: StagingTree, pairs: seq<(Path, Item)>, q: Path)
    requires Agree(pairs, pairs)
    ensures q in st ==> q in AddMissing(st, pairs) && AddMissing(st, pairs)[q] == st[q]
    ensures q !in st ==> (q in AddMissing(st, pairs) <==> exists v :: Wanted(pairs, q, v))
    ensures q !in st && q in AddMissing(st, pairs) ==> Wanted(pairs, q, AddMissing(st, pairs)[q])
    decreases |pairs|
  {
    if pairs != [] {
      var (p, v) := pairs[0];
      var next := if p in st then st else st[p := v];
      AddMissingAt(next, pairs[1..], q);
      assert pairs == [pairs[0]] + pairs[1..];
      assert forall w :: Wanted(pairs, q, w) <==> (q, w) == pairs[0] || Wanted(pairs[1..], q, w);
      if p == q {
        assert Wanted(pairs, q, v);
      }
    }
  }

  lemma {:induction false} AddMissingKeeps(st: StagingTree, pairs: seq<(Path, Item)>, p: Path)
    requires p in st
    ensures p in AddMissing(st, pairs) && AddMissing(st, pairs)[p] == st[p]
    decreases |pairs|
  {
    if pairs != [] {
      AddMissingKeeps(if pairs[0].0 in st then st else st[pairs[0].0 := pairs[0].1], pairs[1..], p);
    }
  }

  /** Order and repetition do not matter. */
  lemma AddMissingSame(st: StagingTree, a: seq<(Path, Item)>, b: seq<(Path, Item)>)
    requires Agree(a, a) && Agree(b, b) && forall x :: x in a <==> x in b
    ensures AddMissing(st, a) == AddMissing(st, b)
  {
    var x, y := AddMissing(st, a), AddMissing(st, b);
    assert forall q, v :: Wanted(a, q, v) <==> Wanted(b, q, v);
    forall q ensures q in x <==> q in y {
      AddMissingAt(st, a, q);
      AddMissingAt(st, b, q);
    }
    forall q | q in x ensures x[q] == y[q] {
      AddMissingAt(st, a, q);
      AddMissingAt(st, b, q);
      if q !in st {
        assert (q, x[q]) in a && (q, y[q]) in a;
      }
    }
  }

  lemma {:induction false} AddMissingConcat(st: StagingTree, a: seq<(Path, Item)>, b: seq<(Path, Item)>)
    ensures AddMissing(st, a + b) == AddMissing(AddMissing(st, a), b)
    decreases |a|
  {
    if a == [] {
      assert a + b == b;
    } else {
      AddMissingConcat(if a[0].0 in st then st else st[a[0].0 := a[0].1], a[1..], b);
      assert (a + b)[1..] == a[1..] + b;
    }
  }

  // ----- enabling a unit -----

  function WantsDir(t: Target): Path {
    match t
    case MultiUser => ["etc", "systemd", "system", "multi-user.target.wants"]
    case Getty => ["etc", "systemd", "system", "getty.target.wants"]
    case Sockets => ["etc", "systemd", "system", "sockets.target.wants"]
    case Sysinit => ["etc", "systemd", "system", "sysinit.target.wants"]
  }

  /** The directories on the way to a wants directory, and the directory itself. */
  function Way(t: Target): seq<Path> {
    var d := WantsDir(t);
    [d[..1], d[..2], d[..3], d]
  }

  function EnablePairs(unit: string, t: Target): seq<(Path, Item)> {
    [(Way(t)[0], Folder), (Way(t)[1], Folder), (Way(t)[2], Folder), (Way(t)[3], Folder),
     (WantsDir(t) + [unit], Link("/usr/lib/systemd/system/" + unit))]
  }

  /** Something other than a directory. */
  predicate Obstructs(st: StagingTree, p: Path) {
    p in st && !st[p].Folder?
  }

  /** Something that is no directory stands at a path or on the way to it. */
  ghost predicate NoWay(st: StagingTree, d: Path) {
    exists p :: p != [] && p <= d && p in st && st[p] != Folder
  }

  /** Something that is no directory stands where one is needed. */
  predicate WayBlocked(st: StagingTree, t: Target) {
    exists p | p in Way(t) :: Obstructs(st, p)
  }

  /** A pair is a directory by a short path, or the link by the unit's name. */
  lemma PairShape(unit: string, t: Target, x: (Path, Item))
    requires x in EnablePairs(unit, t)
    ensures |x.0| <= 4 ==> x.1 == Folder
    ensures |x.0| > 4 ==> x.0[4] == unit && x.1 == Link("/usr/lib/systemd/system/" + unit)
  {
    assert |WantsDir(t)| == 4;
  }

  lemma EnablePairsAgree(u: string, t: Target, v: string, w: Target)
    ensures Agree(EnablePairs(u, t), EnablePairs(v, w))
  {
    forall x, y | x in EnablePairs(u, t) && y in EnablePairs(v, w) && x.0 == y.0 ensures x == y {
      PairShape(u, t, x);
      PairShape(v, w, y);
    }
  }

  /** Each target has a directory of its own. */
  lemma WantsApart(t: Target, u: Target)
    ensures WantsDir(t) == WantsDir(u) <==> t == u
  {
    assert WantsDir(t)[3] == WantsDir(u)[3] ==> t == u by {
      assert "multi-user.target.wants"[0] == 'm' && "getty.target.wants"[0] == 'g';
      assert "sockets.target.wants"[1] == 'o' && "sysinit.target.wants"[1] == 'y';
    }
  }

  lemma PairOfWay(unit: string, t: Target, k: nat)
    requires 0 < k <= 4
    ensures EnablePairs(unit, t)[k - 1] == (WantsDir(t)[..k], Folder) && WantsDir(t)[..k] in Way(t)
  {
    var d := WantsDir(t);
    assert d[..4] == d;
    assert Way(t)[k - 1] == d[..k];
  }

  lemma WayAdded(st: StagingTree, unit: string, t: Target, k: nat)
    requires !WayBlocked(st, t) && 0 < k <= 4
    ensures var d := WantsDir(t)[..k];
            d in AddMissing(st, EnablePairs(unit, t)) && AddMissing(st, EnablePairs(unit, t))[d] == Folder
  {
    var d, pairs := WantsDir(t)[..k], EnablePairs(unit, t);
    PairOfWay(unit, t, k);
    EnablePairsAgree(unit, t, unit, t);
    AddMissingAt(st, pairs, d);
    assert Wanted(pairs, d, Folder);
    if d !in st {
      PairShape(unit, t, (d, AddMissing(st, pairs)[d]));
    }
  }

  lemma LinkAdded(st: StagingTree, unit: string, t: Target)
    ensures var after, link := AddMissing(st, EnablePairs(unit, t)), WantsDir(t) + [unit];
            link in after && (link !in st ==> after[link] == Link("/usr/lib/systemd/system/" + unit))
  {
    var pairs, link := EnablePairs(unit, t), WantsDir(t) + [unit];
    var target := Link("/usr/lib/systemd/system/" + unit);
    EnablePairsAgree(unit, t, unit, t);
    AddMissingAt(st, pairs, link);
    assert pairs[4] == (link, target) && Wanted(pairs, link, target);
    if link !in st {
      PairShape(unit, t, (link, AddMissing(st, pairs)[link]));
    }
  }

  lemma OnlyWayAdded(st: StagingTree, unit: string, t: Target, p: Path)
    requires p !in st && p in AddMissing(st, EnablePairs(unit, t))
    ensures p == WantsDir(t) + [unit] || (p <= WantsDir(t) && AddMissing(st, EnablePairs(unit, t))[p] == Folder)
  {
    EnablePairsAgree(unit, t, unit, t);
    AddMissingAt(st, EnablePairs(unit, t), p);
    assert (p, AddMissing(st, EnablePairs(unit, t))[p]) in EnablePairs(unit, t);
  }

  /**
   * A unit has been enabled: its link is there, to the unit unless something had its place; every entry there
   * was is as it was; the way is there, and nothing else is new.
   */
  ghost predicate Enabled(was: StagingTree, now: StagingTree, unit: string, t: Target) {
    var link := WantsDir(t) + [unit];
    && link in now && (link !in was ==> now[link] == Link("/usr/lib/systemd/system/" + unit))
    && (forall p :: p in was ==> p in now && now[p] == was[p])
    && (forall k :: 0 < k <= 4 ==> WantsDir(t)[..k] in now && now[WantsDir(t)[..k]] == Folder)
    && (forall p :: p in now && p !in was ==> p == link || (p <= WantsDir(t) && now[p] == Folder))
  }

  lemma EnableAdds(st: StagingTree, unit: string, t: Target)
    requires !WayBlocked(st, t)
    ensures Enabled(st, AddMissing(st, EnablePairs(unit, t)), unit, t)
  {
    var pairs, after := EnablePairs(unit, t), AddMissing(st, EnablePairs(unit, t));
    LinkAdded(st, unit, t);
    forall p | p in st ensures p in after && after[p] == st[p] {
      AddMissingKeeps(st, pairs, p);
    }
    forall k | 0 < k <= 4 ensures WantsDir(t)[..k] in after && after[WantsDir(t)[..k]] == Folder {
      WayAdded(st, unit, t, k);
    }
    forall p | p in after && p !in st
      ensures p == WantsDir(t) + [unit] || (p <= WantsDir(t) && after[p] == Folder)
    {
      OnlyWayAdded(st, unit, t, p);
    }
  }

  lemma WayBlockedIff(st: StagingTree, t: Target)
    ensures WayBlocked(st, t) <==> NoWay(st, WantsDir(t))
  {
    if WayBlocked(st, t) {
      var p :| p in Way(t) && Obstructs(st, p);
      assert p != [] && p <= WantsDir(t);
    }
    forall p | p != [] && p <= WantsDir(t) && p in st && st[p] != Folder ensures WayBlocked(st, t) {
      var d := WantsDir(t);
      assert |d| == 4 && p == d[..|p|] && d[..4] == d;
      assert p == Way(t)[|p| - 1] && p in Way(t);
    }
  }

  /** All that a list of enable operations wants to be there. */
  function AllPairs(ops: seq<Op>): seq<(Path, Item)>
    requires forall op :: op in ops ==> op.EnableOp?
  {
    if ops == [] then [] else EnablePairs(ops[0].unit, ops[0].target) + AllPairs(ops[1..])
  }

  lemma {:induction false} InAllPairs(ops: seq<Op>, x: (Path, Item))
    requires forall op :: op in ops ==> op.EnableOp?
    ensures x in AllPairs(ops) <==> exists op :: op in ops && x in EnablePairs(op.unit, op.target)
  {
    if ops != [] {
      InAllPairs(ops[1..], x);
      assert forall op :: op in ops <==> op == ops[0] || op in ops[1..];
    }
  }

  lemma AllPairsAgree(a: seq<Op>, b: seq<Op>)
    requires forall op :: op in a ==> op.EnableOp?
    requires forall op :: op in b ==> op.EnableOp?
    ensures Agree(AllPairs(a), AllPairs(b))
  {
    forall x, y | x in AllPairs(a) && y in AllPairs(b) && x.0 == y.0 ensures x == y {
      InAllPairs(a, x);
      InAllPairs(b, y);
      var p :| p in a && x in EnablePairs(p.unit, p.target);
      var q :| q in b && y in EnablePairs(q.unit, q.target);
      EnablePairsAgree(p.unit, p.target, q.unit, q.target);
    }
  }

  function Enable(st: StagingTree, unit: string, t: Target): (StagingTree, bool) {
    if WayBlocked(st, t) then (st, false) else (AddMissing(st, EnablePairs(unit, t)), true)
  }

  // ----- binaries and udev helpers -----

  /** Copies all binaries unless one errs; the names not found are listed in order. */
  function CopyBins(env: Env, st: StagingTree, names: seq<string>, dest: Dest): (StagingTree, bool, seq<string>) {
    if names == [] then (st, true, [])
    else
      var n := |names| - 1;
      var (before, ok, missing) := CopyBins(env, st, names[..n], dest);
      if !ok then (before, false, missing)
      else
        var (after, how) := env.copyBinary(before, names[n], dest);
        match how
        case Found => (after, true, missing)
        case NotFound => (after, true, missing + [names[n]])
        case Failed => (after, false, missing)
  }

  const UDEV_DIR: Path := ["usr", "lib", "udev"]

  function UdevPlace(helper: string): (p: Path)
    ensures |p| == 4 && p[3] == helper
  {
    UDEV_DIR + [helper]
  }

  /** The kernel gives up after this many links. */
  const MAX_LINKS: nat := 40

  /** Where a path ends, links followed: at a path of the tree, or astray, outside it or in a loop. */
  datatype Landing = At(path: Path) | Astray(ok: bool)

  function Land(env: Env, st: StagingTree, p: Path, links: nat): Landing
    decreases links
  {
    if p in st && st[p].Link? then
      match env.to(st[p].target)
      case None => Astray(env.outside(st[p].target))
      case Some(q) => if links == 0 then Astray(false) else Land(env, st, q, links - 1)
    else At(p)
  }

  function HelperLands(env: Env, st: StagingTree, helper: string): Landing {
    Land(env, st, UdevPlace(helper), MAX_LINKS)
  }

  predicate Present(st: StagingTree, p: Path) {
    p == [] || p in st
  }

  predicate HasParent(st: StagingTree, p: Path) {
    |p| == 1 || (|p| > 1 && p[..|p| - 1] in st && st[p[..|p| - 1]].Folder?)
  }

  /** Copies one helper to where its place leads, unless something is there. */
  function InstallHelper(env: Env, st: StagingTree, helper: string): (StagingTree, bool) {
    if helper !in env.udevSource then (st, true)
    else
      match HelperLands(env, st, helper)
      case Astray(ok) => (st, ok)
      case At(p) =>
        if Present(st, p) then (st, true)
        else if HasParent(st, p) then (st[p := Regular(env.udevSource[helper])], true)
        else (st, false)
  }

  function InstallHelpers(env: Env, st: StagingTree, helpers: seq<string>): (StagingTree, bool)
    decreases |helpers|
  {
    if helpers == [] then (st, true)
    else
      var (next, ok) := InstallHelper(env, st, helpers[0]);
      if ok then InstallHelpers(env, next, helpers[1..]) else (next, false)
  }

  function UdevDirs(): seq<(Path, Item)> {
    [(UDEV_DIR[..1], Folder), (UDEV_DIR[..2], Folder), (UDEV_DIR, Folder)]
  }

  predicate UdevBlocked(st: StagingTree) {
    exists p | p in [UDEV_DIR[..1], UDEV_DIR[..2], UDEV_DIR] :: Obstructs(st, p)
  }

  function UdevHelpers(env: Env, st: StagingTree, helpers: seq<string>): (StagingTree, bool) {
    if UdevBlocked(st) then (st, false) else InstallHelpers(env, AddMissing(st, UdevDirs()), helpers)
  }

  // ----- udev helpers in any order -----

  /** The helper is there already or can be copied. */
  predicate Installable(env: Env, st: StagingTree, helper: string) {
    InstallHelper(env, st, helper).1
  }

  /** That is so exactly if its place leads to something, to a free path in a directory, or astray with success. */
  lemma InstallableIff(env: Env, st: StagingTree, helper: string)
    ensures Installable(env, st, helper) <==>
              || helper !in env.udevSource
              || HelperLands(env, st, helper) == Astray(true)
              || (HelperLands(env, st, helper).At?
                  && var p := HelperLands(env, st, helper).path;
                     p == [] || p in st || |p| == 1 || (p[..|p| - 1] in st && st[p[..|p| - 1]] == Folder))
  {
  }

  /** What installing the helper wants to be there: the file where its place leads. */
  function HelperPairs(env: Env, st: StagingTree, helper: string): seq<(Path, Item)> {
    if helper in env.udevSource && HelperLands(env, st, helper).At? then
      [(HelperLands(env, st, helper).path, Regular(env.udevSource[helper]))]
    else []
  }

  /** The same for a list, leaving out what is there. */
  function UdevPairs(env: Env, st: StagingTree, helpers: seq<string>): seq<(Path, Item)> {
    if helpers == [] then []
    else
      (if exists x | x in HelperPairs(env, st, helpers[0]) :: Present(st, x.0) then []
       else HelperPairs(env, st, helpers[0]))
      + UdevPairs(env, st, helpers[1..])
  }

  lemma {:induction false} InUdevPairs(env: Env, st: StagingTree, helpers: seq<string>, x: (Path, Item))
    ensures x in UdevPairs(env, st, helpers) <==>
              exists h :: h in helpers && x in HelperPairs(env, st, h) && !Present(st, x.0)
  {
    if helpers != [] {
      InUdevPairs(env, st, helpers[1..], x);
      assert forall h :: h in helpers <==> h == helpers[0] || h in helpers[1..];
    }
  }

  /** Grown by regular files in directories that were there. */
  ghost predicate Grown(st: StagingTree, t: StagingTree) {
    && (forall p :: p in st ==> p in t && t[p] == st[p])
    && (forall p :: p in t && p !in st ==> t[p].Regular? && HasParent(st, p))
  }

  lemma {:induction false} LandsTheSame(env: Env, st: StagingTree, t: StagingTree, p: Path, links: nat)
    requires Grown(st, t)
    ensures Land(env, t, p, links) == Land(env, st, p, links)
    decreases links
  {
    if p in st && st[p].Link? && env.to(st[p].target).Some? && links > 0 {
      LandsTheSame(env, st, t, env.to(st[p].target).value, links - 1);
    }
  }

  lemma OneUdevPair(env: Env, st: StagingTree, helper: string)
    ensures var land := HelperLands(env, st, helper);
            UdevPairs(env, st, [helper]) ==
              if helper in env.udevSource && land.At? && !Present(st, land.path)
              then [(land.path, Regular(env.udevSource[helper]))] else []
  {
    assert [helper][1..] == [];
    var pairs := HelperPairs(env, st, helper);
    if pairs != [] {
      assert pairs[0] in pairs;
    }
  }

  /** Installing in a grown tree: whether it works was clear from the first, and so was where the file goes. */
  lemma InstalledInGrown(env: Env, st: StagingTree, t: StagingTree, helper: string)
    requires Grown(st, t)
    ensures var (next, ok) := InstallHelper(env, t, helper);
            && (ok <==> Installable(env, st, helper))
            && (ok ==> next == AddMissing(t, UdevPairs(env, st, [helper])) && Grown(st, next))
  {
    LandsTheSame(env, st, t, UdevPlace(helper), MAX_LINKS);
    OneUdevPair(env, st, helper);
    if helper in env.udevSource && HelperLands(env, st, helper).At? {
      var p := HelperLands(env, st, helper).path;
      var pair := (p, Regular(env.udevSource[helper]));
      assert HasParent(t, p) <==> HasParent(st, p);
      if !Present(st, p) {
        assert AddMissing(t, [pair]) == if p in t then t else t[p := pair.1];
      }
    }
  }

  lemma FirstUdevPairs(env: Env, st: StagingTree, helpers: seq<string>)
    requires helpers != []
    ensures UdevPairs(env, st, helpers) == UdevPairs(env, st, [helpers[0]]) + UdevPairs(env, st, helpers[1..])
  {
    assert [helpers[0]][1..] == [];
  }

  /** A list works exactly if each helper does, and then adds the missing files where their places lead. */
  lemma {:induction false} HelpersAdded(env: Env, st: StagingTree, t: StagingTree, helpers: seq<string>)
    requires Grown(st, t)
    ensures InstallHelpers(env, t, helpers).1 <==> forall h :: h in helpers ==> Installable(env, st, h)
    ensures InstallHelpers(env, t, helpers).1 ==>
              InstallHelpers(env, t, helpers).0 == AddMissing(t, UdevPairs(env, st, helpers))
    decreases |helpers|
  {
    if helpers != [] {
      var h, rest := helpers[0], helpers[1..];
      assert forall k :: k in helpers <==> k == h || k in rest;
      InstalledInGrown(env, st, t, h);
      var (next, ok) := InstallHelper(env, t, h);
      if ok {
        HelpersAdded(env, st, next, rest);
        FirstUdevPairs(env, st, helpers);
        AddMissingConcat(t, UdevPairs(env, st, [h]), UdevPairs(env, st, rest));
      }
    }
  }

  lemma UdevBlockedIff(st: StagingTree)
    ensures UdevBlocked(st) <==> NoWay(st, UDEV_DIR)
  {
    forall p | p != [] && p <= UDEV_DIR && p in st && st[p] != Folder ensures UdevBlocked(st) {
      assert p == UDEV_DIR[..|p|] && UDEV_DIR[..3] == UDEV_DIR;
      assert p in [UDEV_DIR[..1], UDEV_DIR[..2], UDEV_DIR];
    }
  }

  lemma UdevWayMade(st: StagingTree)
    requires !UdevBlocked(st)
    ensures forall k :: 0 < k <= 3 ==>
              UDEV_DIR[..k] in AddMissing(st, UdevDirs()) && AddMissing(st, UdevDirs())[UDEV_DIR[..k]] == Folder
  {
    assert UDEV_DIR[..3] == UDEV_DIR;
    forall k | 0 < k <= 3
      ensures UDEV_DIR[..k] in AddMissing(st, UdevDirs()) && AddMissing(st, UdevDirs())[UDEV_DIR[..k]] == Folder
    {
      var p := UDEV_DIR[..k];
      assert UdevDirs()[k - 1] == (p, Folder) && p in [UDEV_DIR[..1], UDEV_DIR[..2], UDEV_DIR];
      AddMissingHas(st, UdevDirs(), (p, Folder));
      AddMissingAt(st, UdevDirs(), p);
    }
  }

  /**
   * A list of helpers has been installed: every entry there was is as it was, and each helper that the source
   * has is where its place leads, unless that is outside the tree.
   */
  ghost predicate HelpersInstalled(env: Env, was: StagingTree, now: StagingTree, helpers: seq<string>) {
    && (forall p :: p in was ==> p in now && now[p] == was[p])
    && forall h :: h in helpers && h in env.udevSource && HelperLands(env, was, h).At? ==>
         Present(now, HelperLands(env, was, h).path)
  }

  lemma HelpersAreInstalled(env: Env, st: StagingTree, helpers: seq<string>)
    requires InstallHelpers(env, st, helpers).1
    ensures HelpersInstalled(env, st, InstallHelpers(env, st, helpers).0, helpers)
  {
    var pairs, now := UdevPairs(env, st, helpers), InstallHelpers(env, st, helpers).0;
    HelpersAdded(env, st, st, helpers);
    forall p | p in st ensures p in now && now[p] == st[p] {
      AddMissingKeeps(st, pairs, p);
    }
    forall h | h in helpers && h in env.udevSource && HelperLands(env, st, h).At?
      ensures Present(now, HelperLands(env, st, h).path)
    {
      var p := HelperLands(env, st, h).path;
      if !Present(st, p) {
        var x := (p, Regular(env.udevSource[h]));
        assert x in HelperPairs(env, st, h);
        InUdevPairs(env, st, helpers, x);
        AddMissingHas(st, pairs, x);
      }
    }
  }

  lemma {:induction false} AddMissingHas(st: StagingTree, pairs: seq<(Path, Item)>, x: (Path, Item))
    requires x in pairs
    ensures x.0 in AddMissing(st, pairs)
    decreases |pairs|
  {
    var next := if pairs[0].0 in st then st else st[pairs[0].0 := pairs[0].1];
    if x == pairs[0] {
      AddMissingKeeps(next, pairs[1..], x.0);
    } else {
      AddMissingHas(next, pairs[1..], x);
    }
  }

  predicate SameNames(a: seq<string>, b: seq<string>) {
    (forall h | h in a :: h in b) && forall h | h in b :: h in a
  }

  /** Both fail, or both work and end alike. */
  predicate SameEnd(a: (StagingTree, bool), b: (StagingTree, bool)) {
    a.1 == b.1 && (a.1 ==> a.0 == b.0)
  }

  /** No two of the files still missing are to go to one path with different contents. */
  ghost predicate NoClash(env: Env, st: StagingTree, helpers: seq<string>) {
    var made := AddMissing(st, UdevDirs());
    Agree(UdevPairs(env, made, helpers), UdevPairs(env, made, helpers))
  }

  lemma SameUdevPairs(env: Env, st: StagingTree, a: seq<string>, b: seq<string>)
    requires SameNames(a, b)
    ensures forall x :: x in UdevPairs(env, st, a) <==> x in UdevPairs(env, st, b)
  {
    forall x ensures x in UdevPairs(env, st, a) <==> x in UdevPairs(env, st, b) {
      InUdevPairs(env, st, a, x);
      InUdevPairs(env, st, b, x);
    }
  }

  /** Installing helpers: order and repetition in the list do not matter, unless two of them clash. */
  lemma UdevHelpersOrderFree(env: Env, st: StagingTree, a: seq<string>, b: seq<string>)
    requires NoClash(env, st, a) && SameNames(a, b)
    ensures SameEnd(UdevHelpers(env, st, a), UdevHelpers(env, st, b))
  {
    var made := AddMissing(st, UdevDirs());
    HelpersAdded(env, made, made, a);
    HelpersAdded(env, made, made, b);
    SameUdevPairs(env, made, a, b);
    AddMissingSame(made, UdevPairs(env, made, a), UdevPairs(env, made, b));
  }

  /** The helper named first gets its file to the path where it goes. */
  lemma FirstStays(env: Env, st: StagingTree, h: string, helpers: seq<string>, x: (Path, Item))
    requires !UdevBlocked(st) && UdevHelpers(env, st, [h] + helpers).1
    requires x in UdevPairs(env, AddMissing(st, UdevDirs()), [h])
    ensures x.0 in UdevHelpers(env, st, [h] + helpers).0 && UdevHelpers(env, st, [h] + helpers).0[x.0] == x.1
  {
    var made := AddMissing(st, UdevDirs());
    var pairs, rest := UdevPairs(env, made, [h]), UdevPairs(env, made, helpers);
    HelpersAdded(env, made, made, [h] + helpers);
    assert [h][1..] == [] && ([h] + helpers)[1..] == helpers;
    InUdevPairs(env, made, [h], x);
    assert pairs == [x];
    assert UdevPairs(env, made, [h] + helpers) == [x] + rest;
    AddMissingKeeps(made[x.0 := x.1], rest, x.0);
    assert ([x] + rest)[1..] == rest;
  }

  lemma PairOf(env: Env, st: StagingTree, helpers: seq<string>, x: (Path, Item)) returns (h: string)
    requires x in UdevPairs(env, st, helpers)
    ensures h in helpers && x in UdevPairs(env, st, [h])
  {
    InUdevPairs(env, st, helpers, x);
    h :| h in helpers && x in HelperPairs(env, st, h) && !Present(st, x.0);
    InUdevPairs(env, st, [h], x);
  }

  lemma ClashMatters(env: Env, st: StagingTree, a: seq<string>) returns (b: seq<string>)
    requires UdevHelpers(env, st, a).1 && !NoClash(env, st, a)
    ensures SameNames(a, b) && !SameEnd(UdevHelpers(env, st, a), UdevHelpers(env, st, b))
  {
    var made := AddMissing(st, UdevDirs());
    var pairs := UdevPairs(env, made, a);
    var x, y :| x in pairs && y in pairs && x.0 == y.0 && x != y;
    var h := PairOf(env, made, a, x);
    var k := PairOf(env, made, a, y);
    b := [h] + a;
    if SameEnd(UdevHelpers(env, st, a), UdevHelpers(env, st, b)) {
      FirstStays(env, st, h, a, x);
      b := [k] + a;
      if SameEnd(UdevHelpers(env, st, a), UdevHelpers(env, st, b)) {
        FirstStays(env, st, k, a, y);
      }
    }
  }

  /**
   * A list of helpers has the same outcome in every order and with any repetition exactly when it fails, or
   * no two of its files still missing are to go to one path with different contents.
   */
  lemma UdevHelpersOrderFreeIff(env: Env, st: StagingTree, a: seq<string>)
    ensures (UdevHelpers(env, st, a).1 ==> NoClash(env, st, a)) <==>
              forall b :: SameNames(a, b) ==> SameEnd(UdevHelpers(env, st, a), UdevHelpers(env, st, b))
  {
    var made := AddMissing(st, UdevDirs());
    forall b | (UdevHelpers(env, st, a).1 ==> NoClash(env, st, a)) && SameNames(a, b)
      ensures SameEnd(UdevHelpers(env, st, a), UdevHelpers(env, st, b))
    {
      if NoClash(env, st, a) {
        UdevHelpersOrderFree(env, st, a, b);
      } else {
        HelpersAdded(env, made, made, a);
        HelpersAdded(env, made, made, b);
      }
    }
    if UdevHelpers(env, st, a).1 && !NoClash(env, st, a) {
      var b := ClashMatters(env, st, a);
    }
  }

  /** They do clash when links in the places of two helpers lead to one missing file: the first copy stays. */
  lemma DanglingOrderMatters() returns (env: Env, st: StagingTree, a: seq<string>, b: seq<string>)
    ensures !UdevBlocked(st) && forall h :: h in a <==> h in b
    ensures UdevHelpers(env, st, a) != UdevHelpers(env, st, b)
  {
    var x, y, there := "ata_id", "scsi_id", UdevPlace("id");
    env := Env(
      map[x := "ata", y := "scsi"],
      (target: string) => Some(UDEV_DIR + [target]),
      (target: string) => false,
      (t: StagingTree, name: string, dest: Dest) => (t, Found),
      (t: StagingTree, op: Op) => (t, true));
    a, b := [x, y], [y, x];
    assert x[0] == 'a' && y[0] == 's' && "id"[0] == 'i';
    st := map[UDEV_DIR[..1] := Folder, UDEV_DIR[..2] := Folder, UDEV_DIR := Folder,
              UdevPlace(x) := Link("id"), UdevPlace(y) := Link("id")];
    assert Land(env, st, there, MAX_LINKS - 1) == At(there);
    assert HelperLands(env, st, x) == HelperLands(env, st, y) == At(there);
    FirstOfTwoStays(env, st, there, x, y);
    FirstOfTwoStays(env, st, there, y, x);
    assert UdevHelpers(env, st, a).0[there] == Regular("ata");
    assert UdevHelpers(env, st, b).0[there] == Regular("scsi");
    assert "ata"[0] != "scsi"[0];
  }

  lemma FirstOfTwoStays(env: Env, st: StagingTree, there: Path, x: string, y: string)
    requires !UdevBlocked(st) && AddMissing(st, UdevDirs()) == st
    requires x in env.udevSource && HelperLands(env, st, x) == At(there)
    requires y in env.udevSource && HelperLands(env, st, y) == At(there)
    requires !Present(st, there) && HasParent(st, there)
    ensures UdevHelpers(env, st, [x, y]) == (st[there := Regular(env.udevSource[x])], true)
  {
    var next := st[there := Regular(env.udevSource[x])];
    LandsTheSame(env, st, next, UdevPlace(y), MAX_LINKS);
    assert InstallHelper(env, st, x) == (next, true) && InstallHelper(env, next, y) == (next, true);
    assert [x, y][1..] == [y] && [y][1..] == [];
    assert InstallHelpers(env, next, [y]) == (next, true);
  }

  // ----- the interpreter -----

  function Step(env: Env, st: StagingTree, op: Op): (StagingTree, bool) {
    match op
    case EnableOp(unit, t) => Enable(st, unit, t)
    case UdevHelpersOp(helpers) => UdevHelpers(env, st, helpers)
    case BinsOp(names, dest) =>
      var (after, ok, missing) := CopyBins(env, st, names, dest);
      (after, ok && missing == [])
    case _ => env.other(st, op)
  }

  /** Runs a list up to the first operation that fails; that one's own effects remain. */
  function Run(env: Env, st: StagingTree, ops: seq<Op>): (StagingTree, bool)
    decreases |ops|
  {
    if ops == [] then (st, true)
    else
      var (next, ok) := Step(env, st, ops[0]);
      if ok then Run(env, next, ops[1..]) else (next, false)
  }

  /** The states before each operation when all the earlier ones succeed. */
  ghost predicate Passes(env: Env, st: StagingTree, ops: seq<Op>, n: nat)
    requires n <= |ops|
  {
    Run(env, st, ops[..n]).1
  }

  lemma {:induction false} RunConcat(env: Env, st: StagingTree, a: seq<Op>, b: seq<Op>)
    ensures Run(env, st, a + b) == if Run(env, st, a).1 then Run(env, Run(env, st, a).0, b) else Run(env, st, a)
    decreases |a|
  {
    if a == [] {
      assert a + b == b;
    } else {
      RunConcat(env, Step(env, st, a[0]).0, a[1..], b);
      assert (a + b)[1..] == a[1..] + b;
    }
  }

  /**
   * A run fails exactly when some operation fails after a prefix that passes; it then ends in the state
   * which that operation leaves behind.
   */
  lemma {:induction false} RunStopsAtFirstFailure(env: Env, st: StagingTree, ops: seq<Op>)
    ensures !Run(env, st, ops).1 <==>
              exists n: nat :: n < |ops| && Passes(env, st, ops, n) && !Step(env, Run(env, st, ops[..n]).0, ops[n]).1
    ensures forall n: nat ::
              n < |ops| && Passes(env, st, ops, n) && !Step(env, Run(env, st, ops[..n]).0, ops[n]).1
              ==> Run(env, st, ops).0 == Step(env, Run(env, st, ops[..n]).0, ops[n]).0
  {
    forall n: nat | n < |ops| && Passes(env, st, ops, n) && !Step(env, Run(env, st, ops[..n]).0, ops[n]).1
      ensures Run(env, st, ops) == (Step(env, Run(env, st, ops[..n]).0, ops[n]).0, false)
    {
      RunConcat(env, st, ops[..n], ops[n..]);
      assert ops == ops[..n] + ops[n..];
    }
    if !Run(env, st, ops).1 {
      var n := FailurePoint(env, st, ops);
    }
  }

  lemma {:induction false} FailurePoint(env: Env, st: StagingTree, ops: seq<Op>) returns (n: nat)
    requires !Run(env, st, ops).1
    ensures n < |ops| && Passes(env, st, ops, n) && !Step(env, Run(env, st, ops[..n]).0, ops[n]).1
    decreases |ops|
  {
    var m := |ops| - 1;
    RunConcat(env, st, ops[..m], [ops[m]]);
    assert ops == ops[..m] + [ops[m]];
    if Run(env, st, ops[..m]).1 {
      assert [ops[m]][1..] == [];
      n := m;
    } else {
      n := FailurePoint(env, st, ops[..m]);
      assert ops[..m][..n] == ops[..n];
    }
  }

  // ----- enabling in any order -----

  lemma EnableBlocksNothing(st: StagingTree, unit: string, t: Target, p: Path)
    requires |p| <= 4
    ensures Obstructs(AddMissing(st, EnablePairs(unit, t)), p) <==> Obstructs(st, p)
  {
    var pairs := EnablePairs(unit, t);
    EnablePairsAgree(unit, t, unit, t);
    AddMissingAt(st, pairs, p);
    var after := AddMissing(st, pairs);
    if p !in st && p in after {
      PairShape(unit, t, (p, after[p]));
    }
  }

  lemma WayStaysClear(st: StagingTree, unit: string, t: Target, w: Target)
    ensures WayBlocked(AddMissing(st, EnablePairs(unit, t)), w) <==> WayBlocked(st, w)
  {
    var after := AddMissing(st, EnablePairs(unit, t));
    forall p | p in Way(w) ensures Obstructs(after, p) <==> Obstructs(st, p) {
      EnableBlocksNothing(st, unit, t, p);
    }
  }

  /** A run of enable operations succeeds exactly when no way is blocked, and then adds what is missing. */
  lemma {:induction false} RunEnables(env: Env, st: StagingTree, ops: seq<Op>)
    requires forall op :: op in ops ==> op.EnableOp?
    ensures Run(env, st, ops).1 <==> forall op :: op in ops ==> !WayBlocked(st, op.target)
    ensures Run(env, st, ops).1 ==> Run(env, st, ops).0 == AddMissing(st, AllPairs(ops))
    decreases |ops|
  {
    if ops != [] {
      var op, rest := ops[0], ops[1..];
      assert forall x :: x in ops <==> x == op || x in rest;
      if !WayBlocked(st, op.target) {
        var next := AddMissing(st, EnablePairs(op.unit, op.target));
        assert Step(env, st, op) == (next, true);
        RunEnables(env, next, rest);
        forall x | x in rest ensures WayBlocked(next, x.target) <==> WayBlocked(st, x.target) {
          WayStaysClear(st, op.unit, op.target, x.target);
        }
        AddMissingConcat(st, EnablePairs(op.unit, op.target), AllPairs(rest));
      }
    }
  }

  /** Any permutation or repetition of the same enable operations gives the same links, or fails as well. */
  lemma EnablesOrderFree(env: Env, st: StagingTree, a: seq<Op>, b: seq<Op>)
    requires forall op :: op in a ==> op.EnableOp?
    requires forall op :: op in a <==> op in b
    ensures Run(env, st, a).1 == Run(env, st, b).1
    ensures Run(env, st, a).1 ==> Run(env, st, a) == Run(env, st, b)
  {
    RunEnables(env, st, a);
    RunEnables(env, st, b);
    AllPairsAgree(a, a);
    AllPairsAgree(b, b);
    forall x ensures x in AllPairs(a) <==> x in AllPairs(b) {
      InAllPairs(a, x);
      InAllPairs(b, x);
    }
    AddMissingSame(st, AllPairs(a), AllPairs(b));
  }

  /** The same inside a larger list. */
  lemma EnablesOrderFreeWithin(env: Env, st: StagingTree, before: seq<Op>, a: seq<Op>, b: seq<Op>, after: seq<Op>)
    requires forall op :: op in a ==> op.EnableOp?
    requires forall op :: op in a <==> op in b
    ensures Run(env, st, before + a + after).1 == Run(env, st, before + b + after).1
    ensures Run(env, st, before + a + after).1 ==> Run(env, st, before + a + after) == Run(env, st, before + b + after)
  {
    RunConcat(env, st, before + a, after);
    RunConcat(env, st, before + b, after);
    RunConcat(env, st, before, a);
    RunConcat(env, st, before, b);
    EnablesOrderFree(env, Run(env, st, before).0, a, b);
  }

  lemma EnableOpsSame(a: seq<(Target, string)>, b: seq<(Target, string)>)
    requires forall x :: x in a <==> x in b
    ensures forall op :: op in EnableOps(a) <==> op in EnableOps(b)
    ensures forall op :: op in EnableOps(a) ==> op.EnableOp?
  {
    forall op | op in EnableOps(a) ensures op in EnableOps(b) && op.EnableOp? {
      var i :| 0 <= i < |a| && op == EnableOp(a[i].1, a[i].0);
      assert a[i] in b;
      var j :| 0 <= j < |b| && b[j] == a[i];
      assert EnableOps(b)[j] == op;
    }
    forall op | op in EnableOps(b) ensures op in EnableOps(a) {
      var i :| 0 <= i < |b| && op == EnableOp(b[i].1, b[i].0);
      assert b[i] in a;
      var j :| 0 <= j < |a| && a[j] == b[i];
      assert EnableOps(a)[j] == op;
    }
  }

  function BeforeEnables(s: Service): seq<Op> {
    DirOps(s.dirs) + BinsOps(s.bins, Bin) + BinsOps(s.sbins, Sbin)
    + (TreeOps(s.configTrees) + FileOps(s.configFiles) + SymlinkOps(s.symlinks))
    + (UnitsOps(s.units) + UserUnitsOps(s.userUnits))
  }

  function AfterEnables(s: Service): seq<Op> {
    CustomOps(s.custom) + GroupOps(s.groups) + UserOps(s.users)
  }

  lemma OpsAroundEnables(s: Service)
    ensures OpsOf(s) == BeforeEnables(s) + EnableOps(s.enable) + AfterEnables(s)
  {
    FlatUnrolled(Blocks(s));
    var a := DirOps(s.dirs) + BinsOps(s.bins, Bin) + BinsOps(s.sbins, Sbin)
             + (TreeOps(s.configTrees) + FileOps(s.configFiles) + SymlinkOps(s.symlinks));
    var u, e := UnitsOps(s.units) + UserUnitsOps(s.userUnits), EnableOps(s.enable);
    assert a + (u + e) == a + u + e;
  }

  /** Installing a service does not depend on the order or repetition of the units it enables. */
  lemma ServiceEnableOrderFree(env: Env, st: StagingTree, s: Service, enable: seq<(Target, string)>)
    requires forall x :: x in s.enable <==> x in enable
    ensures var a, b := Run(env, st, OpsOf(s)), Run(env, st, OpsOf(s.(enable := enable)));
            a.1 == b.1 && (a.1 ==> a == b)
  {
    var t := s.(enable := enable);
    OpsAroundEnables(s);
    OpsAroundEnables(t);
    assert BeforeEnables(s) == BeforeEnables(t) && AfterEnables(s) == AfterEnables(t);
    EnableOpsSame(s.enable, enable);
    EnablesOrderFreeWithin(env, st, BeforeEnables(s), EnableOps(s.enable), EnableOps(enable), AfterEnables(s));
  }

  // ----- missing binaries -----

  function IsNotFound(how: string -> Copied): string -> bool {
    n => how(n) == NotFound
  }

  function NotFoundIn(how: string -> Copied, names: seq<string>): seq<string> {
    Filter(IsNotFound(how), names)
  }

  /** The source alone decides how copying a binary ends. */
  ghost predicate EndsBySource(env: Env, dest: Dest, how: string -> Copied) {
    forall t, n :: env.copyBinary(t, n, dest).1 == how(n)
  }

  /**
   * Where the source alone decides how copying a binary ends: the operation gets through the list unless
   * some copy errs, and then every missing name is reported, in order and not just the first.
   */
  lemma {:induction false} AllMissingReported(
      env: Env, st: StagingTree, names: seq<string>, dest: Dest, how: string -> Copied)
    requires EndsBySource(env, dest, how)
    ensures CopyBins(env, st, names, dest).1 <==> forall i :: 0 <= i < |names| ==> how(names[i]) != Failed
    ensures CopyBins(env, st, names, dest).1 ==> CopyBins(env, st, names, dest).2 == NotFoundIn(how, names)
    decreases |names|
  {
    if names != [] {
      var n := |names| - 1;
      AllMissingReported(env, st, names[..n], dest, how);
      assert forall i :: 0 <= i < n ==> names[..n][i] == names[i];
      var before := CopyBins(env, st, names[..n], dest).0;
      assert env.copyBinary(before, names[n], dest).1 == how(names[n]);
    }
  }

  /** That report has exactly the names not found, each as often as it is listed and in order. */
  lemma NotFoundAre(how: string -> Copied, names: seq<string>)
    ensures exists at: seq<nat> ::
              && AreAt(NotFoundIn(how, names), names, at)
              && (forall j, k :: 0 <= j < k < |at| ==> at[j] < at[k])
              && forall i: nat :: i < |names| ==> (i in at <==> how(names[i]) == NotFound)
  {
    var at := FilterPositions(IsNotFound(how), names);
    assert forall i: nat :: i < |names| ==> (i in at <==> how(names[i]) == NotFound);
  }

  /** The tree after copying each of the names in turn, however that ends. */
  ghost predicate CopiesInTurn(env: Env, st: StagingTree, names: seq<string>, dest: Dest, trees: seq<StagingTree>) {
    && |trees| == |names| + 1 && trees[0] == st
    && forall i {:trigger names[i]} :: 0 <= i < |names| ==>
         trees[i + 1] == env.copyBinary(trees[i], names[i], dest).0
  }

  ghost predicate NoneErrs(env: Env, names: seq<string>, dest: Dest, trees: seq<StagingTree>)
    requires |trees| == |names| + 1
  {
    forall i {:trigger names[i]} :: 0 <= i < |names| ==> !env.copyBinary(trees[i], names[i], dest).1.Failed?
  }

  lemma CopiedOneMore(
      env: Env, st: StagingTree, names: seq<string>, name: string, dest: Dest, trees: seq<StagingTree>)
    requires CopiesInTurn(env, st, names, dest, trees)
    ensures var (after, how) := env.copyBinary(trees[|names|], name, dest);
            && CopiesInTurn(env, st, names + [name], dest, trees + [after])
            && (NoneErrs(env, names + [name], dest, trees + [after]) <==>
                  NoneErrs(env, names, dest, trees) && !how.Failed?)
  {
    var more, all := names + [name], trees + [env.copyBinary(trees[|names|], name, dest).0];
    assert more[|names|] == name;
    assert forall i :: 0 <= i < |names| ==> more[i] == names[i];
    assert forall i :: 0 <= i <= |names| ==> all[i] == trees[i];
  }

  /** Every binary copied stays: without an error the tree is that after copying all of them in turn. */
  lemma {:induction false} BinsCopiedInTurn(env: Env, st: StagingTree, names: seq<string>, dest: Dest)
    returns (trees: seq<StagingTree>)
    requires CopyBins(env, st, names, dest).1
    ensures CopiesInTurn(env, st, names, dest, trees) && NoneErrs(env, names, dest, trees)
    ensures CopyBins(env, st, names, dest).0 == trees[|names|]
    decreases |names|
  {
    if names == [] {
      trees := [st];
    } else {
      var n := |names| - 1;
      trees := BinsCopiedInTurn(env, st, names[..n], dest);
      CopiedOneMore(env, st, names[..n], names[n], dest, trees);
      assert names[..n] + [names[n]] == names;
      trees := trees + [env.copyBinary(trees[n], names[n], dest).0];
    }
  }

  /** With one, it is that after the first copy that errs, all before it having been made. */
  lemma {:induction false} BinsStopAtError(env: Env, st: StagingTree, names: seq<string>, dest: Dest)
    returns (k: nat)
    requires !CopyBins(env, st, names, dest).1
    ensures k < |names| && CopyBins(env, st, names[..k], dest).1
    ensures var before := CopyBins(env, st, names[..k], dest).0;
            env.copyBinary(before, names[k], dest) == (CopyBins(env, st, names, dest).0, Failed)
    decreases |names|
  {
    k := |names| - 1;
    if !CopyBins(env, st, names[..k], dest).1 {
      var n := k;
      k := BinsStopAtError(env, st, names[..n], dest);
      assert names[..n][..k] == names[..k];
    }
  }

  /** Copying puts what is found where it goes, and changes nothing else. */
  ghost predicate CopiesTo(env: Env, dest: Dest, how: string -> Copied, place: string -> Path, file: string -> Item) {
    forall t, n ::
      env.copyBinary(t, n, dest) == (if how(n) == Found then t[place(n) := file(n)] else t, how(n))
  }

  lemma BinsAddOne(
      env: Env, st: StagingTree, names: seq<string>, dest: Dest,
      how: string -> Copied, place: string -> Path, file: string -> Item)
    requires CopiesTo(env, dest, how, place, file) && names != []
    requires forall n :: n in names ==> how(n) != Failed
    ensures var n := |names| - 1;
            var before := CopyBins(env, st, names[..n], dest).0;
            CopyBins(env, st, names, dest).0 ==
              if how(names[n]) == Found then before[place(names[n]) := file(names[n])] else before
  {
    var n := |names| - 1;
    assert EndsBySource(env, dest, how);
    AllMissingReported(env, st, names[..n], dest, how);
    assert forall i :: 0 <= i < |names| ==> names[i] in names;
    var before := CopyBins(env, st, names[..n], dest).0;
    assert env.copyBinary(before, names[n], dest).1 == how(names[n]);
  }

  /** A list of binaries without an error leaves everything alone where none of those found goes, ... */
  lemma {:induction false} OnlyFoundBinsAdded(
      env: Env, st: StagingTree, names: seq<string>, dest: Dest,
      how: string -> Copied, place: string -> Path, file: string -> Item, p: Path)
    requires CopiesTo(env, dest, how, place, file)
    requires forall n :: n in names ==> how(n) != Failed
    requires forall n :: n in names && how(n) == Found ==> place(n) != p
    ensures var after := CopyBins(env, st, names, dest).0;
            (p in after <==> p in st) && (p in after ==> after[p] == st[p])
    decreases |names|
  {
    if names != [] {
      var n := |names| - 1;
      assert names[n] in names && forall x :: x in names[..n] ==> x in names;
      OnlyFoundBinsAdded(env, st, names[..n], dest, how, place, file, p);
      BinsAddOne(env, st, names, dest, how, place, file);
    }
  }

  /** ... and has each of those found where it goes, unless a later one goes there as well. */
  lemma {:induction false} FoundBinsAdded(
      env: Env, st: StagingTree, names: seq<string>, dest: Dest,
      how: string -> Copied, place: string -> Path, file: string -> Item, i: nat)
    requires CopiesTo(env, dest, how, place, file)
    requires forall n :: n in names ==> how(n) != Failed
    requires i < |names| && how(names[i]) == Found
    requires forall j :: i < j < |names| && how(names[j]) == Found ==> place(names[j]) != place(names[i])
    ensures var after := CopyBins(env, st, names, dest).0;
            place(names[i]) in after && after[place(names[i])] == file(names[i])
    decreases |names|
  {
    var n := |names| - 1;
    BinsAddOne(env, st, names, dest, how, place, file);
    if i < n {
      assert forall x :: x in names[..n] ==> x in names;
      assert forall j :: i <= j < n ==> names[..n][j] == names[j];
      FoundBinsAdded(env, st, names[..n], dest, how, place, file, i);
    }
  }

  /** The operation works exactly if every binary is found. */
  lemma BinsOpWorksIff(env: Env, st: StagingTree, names: seq<string>, dest: Dest, how: string -> Copied)
    requires EndsBySource(env, dest, how)
    ensures Step(env, st, BinsOp(names, dest)).1 <==> forall n :: n in names ==> how(n) == Found
  {
    AllMissingReported(env, st, names, dest, how);
    NonePass(IsNotFound(how), names);
  }

  // ----- whole runs -----

  /** The tree after each of the operations in turn, all of which work. */
  ghost predicate RunsInTurn(env: Env, st: StagingTree, ops: seq<Op>, trees: seq<StagingTree>) {
    && |trees| == |ops| + 1 && trees[0] == st
    && forall i {:trigger ops[i]} :: 0 <= i < |ops| ==> Step(env, trees[i], ops[i]) == (trees[i + 1], true)
  }

  lemma RanOneMore(env: Env, st: StagingTree, ops: seq<Op>, op: Op, trees: seq<StagingTree>, next: StagingTree)
    requires RunsInTurn(env, st, ops, trees) && Step(env, trees[|ops|], op) == (next, true)
    ensures RunsInTurn(env, st, ops + [op], trees + [next])
  {
    var more, all := ops + [op], trees + [next];
    assert forall i :: 0 <= i <= |ops| ==> all[i] == trees[i];
    forall i | 0 <= i < |more| ensures Step(env, all[i], more[i]) == (all[i + 1], true) {
      if i < |ops| {
        assert more[i] == ops[i];
      }
    }
  }

  /** A run that succeeds has worked all operations off in turn, each on the tree that the one before left. */
  lemma {:induction false} OpsRunInTurn(env: Env, st: StagingTree, ops: seq<Op>) returns (trees: seq<StagingTree>)
    requires Run(env, st, ops).1
    ensures RunsInTurn(env, st, ops, trees) && Run(env, st, ops).0 == trees[|ops|]
    decreases |ops|
  {
    if ops == [] {
      trees := [st];
    } else {
      var before, last := ops[..|ops| - 1], ops[|ops| - 1];
      assert ops == before + [last] && [last][1..] == [];
      RunConcat(env, st, before, [last]);
      trees := OpsRunInTurn(env, st, before);
      var next := Run(env, st, ops).0;
      RanOneMore(env, st, before, last, trees, next);
      trees := trees + [next];
    }
  }

  // ----- the imperative executor -----

  class Builder {
    var staging: StagingTree

    constructor (staging: StagingTree)
      ensures this.staging == staging
    {
      this.staging := staging;
    }

    method CreateIfMissing(pairs: seq<(Path, Item)>)
      modifies this
      ensures staging == AddMissing(old(staging), pairs)
    {
      for i := 0 to |pairs|
        invariant AddMissing(staging, pairs[i..]) == AddMissing(old(staging), pairs)
      {
        assert pairs[i..][0] == pairs[i] && pairs[i..][1..] == pairs[i + 1..];
        if pairs[i].0 !in staging {
          staging := staging[pairs[i].0 := pairs[i].1];
        }
      }
    }

    method HandleEnable(unit: string, t: Target) returns (ok: bool)
      modifies this
      ensures (staging, ok) == Enable(old(staging), unit, t)
      ensures ok <==> !NoWay(old(staging), WantsDir(t))
      ensures if ok then Enabled(old(staging), staging, unit, t) else staging == old(staging)
    {
      WayBlockedIff(staging, t);
      if WayBlocked(staging, t) {
        return false;
      }
      EnableAdds(staging, unit, t);
      CreateIfMissing(EnablePairs(unit, t));
      return true;
    }

    method CopyHelper(env: Env, helper: string) returns (ok: bool)
      modifies this
      ensures (staging, ok) == InstallHelper(env, old(staging), helper)
    {
      ok := true;
      if helper in env.udevSource {
        match HelperLands(env, staging, helper) {
          case Astray(works) => ok := works;
          case At(p) =>
            if !Present(staging, p) {
              ok := HasParent(staging, p);
              if ok {
                staging := staging[p := Regular(env.udevSource[helper])];
              }
            }
        }
      }
    }

    method HandleUdevHelpers(env: Env, helpers: seq<string>) returns (ok: bool)
      modifies this
      ensures (staging, ok) == UdevHelpers(env, old(staging), helpers)
      ensures NoWay(old(staging), UDEV_DIR) ==> !ok && staging == old(staging)
      ensures ok ==> HelpersInstalled(env, AddMissing(old(staging), UdevDirs()), staging, helpers)
      ensures ok ==> forall k :: 0 < k <= 3 ==> UDEV_DIR[..k] in staging && staging[UDEV_DIR[..k]] == Folder
    {
      UdevBlockedIff(staging);
      if UdevBlocked(staging) {
        return false;
      }
      CreateIfMissing(UdevDirs());
      ghost var made := staging;
      for i := 0 to |helpers|
        invariant InstallHelpers(env, staging, helpers[i..]) == InstallHelpers(env, made, helpers)
      {
        assert helpers[i..][0] == helpers[i] && helpers[i..][1..] == helpers[i + 1..];
        var done := CopyHelper(env, helpers[i]);
        if !done {
          return false;
        }
      }
      HelpersAreInstalled(env, made, helpers);
      UdevWayMade(old(staging));
      return true;
    }

    /** Goes on past binaries that are not found, so that all of them can be reported. */
    method HandleBins(env: Env, names: seq<string>, dest: Dest) returns (ok: bool, missing: seq<string>)
      modifies this
      ensures CopyBins(env, old(staging), names, dest).0 == staging
      ensures CopyBins(env, old(staging), names, dest).2 == missing
      ensures ok <==> CopyBins(env, old(staging), names, dest).1 && missing == []
      ensures ok ==> exists trees ::
                       && CopiesInTurn(env, old(staging), names, dest, trees) && NoneErrs(env, names, dest, trees)
                       && staging == trees[|names|]
    {
      missing := [];
      for i := 0 to |names|
        invariant CopyBins(env, old(staging), names[..i], dest) == (staging, true, missing)
      {
        assert names[..i + 1][..i] == names[..i];
        var (after, how) := env.copyBinary(staging, names[i], dest);
        staging := after;
        match how {
          case Found =>
          case NotFound => missing := missing + [names[i]];
          case Failed =>
            CopyBinsStays(env, old(staging), names, dest, i + 1);
            return false, missing;
        }
      }
      assert names[..|names|] == names;
      ghost var trees := BinsCopiedInTurn(env, old(staging), names, dest);
      ok := missing == [];
    }

    method ExecuteOp(env: Env, op: Op) returns (ok: bool)
      modifies this
      ensures (staging, ok) == Step(env, old(staging), op)
    {
      match op
      case EnableOp(unit, t) => ok := HandleEnable(unit, t);
      case UdevHelpersOp(helpers) => ok := HandleUdevHelpers(env, helpers);
      case BinsOp(names, dest) =>
        var missing;
        ok, missing := HandleBins(env, names, dest);
      case _ =>
        var r := env.other(staging, op);
        staging, ok := r.0, r.1;
    }

    /** Fail-fast: later operations are not even begun. */
    method Execute(env: Env, ops: seq<Op>) returns (ok: bool)
      modifies this
      ensures (staging, ok) == Run(env, old(staging), ops)
    {
      for i := 0 to |ops|
        invariant Run(env, staging, ops[i..]) == Run(env, old(staging), ops)
      {
        assert ops[i..][0] == ops[i] && ops[i..][1..] == ops[i + 1..];
        var done := ExecuteOp(env, ops[i]);
        if !done {
          return false;
        }
      }
      return true;
    }
  }

  lemma {:induction false} CopyBinsStays(env: Env, st: StagingTree, names: seq<string>, dest: Dest, i: nat)
    requires i <= |names| && !CopyBins(env, st, names[..i], dest).1
    ensures CopyBins(env, st, names, dest) == CopyBins(env, st, names[..i], dest)
    decreases |names|
  {
    if i == |names| {
      assert names[..i] == names;
    } else {
      var n := |names| - 1;
      assert names[..n][..i] == names[..i];
      CopyBinsStays(env, st, names[..n], dest, i);
    }
  }
}
