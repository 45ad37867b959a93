/** Verification of a staging tree before an image is made from it. */
module Staging {
  import opened Lists
  import opened Text

  /** A directory tree: the content at each path that can be stat-ed. */
  type Tree = map<string, string>

  /** The lists the distribution specification demands. */
  datatype Required = Required(
    binUtils: seq<string>, authBin: seq<string>, sshBin: seq<string>, nmBin: seq<string>,
    essentialUnits: seq<string>, nmUnits: seq<string>, wpaUnits: seq<string>,
    dirs: seq<string>, etcFiles: seq<string>)

  predicate KeepUnit(u: string) {
    !Contains(u, "networkd") && !Contains(u, "resolved") && u != "system.slice"
  }

  /** What a complete system has: the meaning of a passed verification. */
  ghost predicate Complete(req: Required, tree: Tree) {
    && (forall b :: b in req.binUtils || b in req.authBin || b in req.sshBin || b in req.nmBin
                    ==> "usr/bin/" + b in tree)
    && "usr/bin/bash" in tree
    && (forall u :: (u in req.essentialUnits || u in req.nmUnits || u in req.wpaUnits)
                    && !Contains(u, "networkd") && !Contains(u, "resolved") && u != "system.slice"
                    ==> "usr/lib/systemd/system/" + u in tree)
    && (forall d :: d in req.dirs ==> d in tree)
    && (forall f :: f in req.etcFiles ==> f in tree)
  }

  /** The paths of a list of names in one directory. */
  function Under(prefix: string, names: seq<string>): (r: set<string>)
    ensures forall n :: n in names ==> prefix + n in r
  {
    set n | n in names :: prefix + n
  }

  /** Every requirement can be met. */
  lemma CompleteTreeExists(req: Required) returns (tree: Tree)
    ensures Complete(req, tree)
  {
    var bins := Under("usr/bin/", req.binUtils + req.authBin + req.sshBin + req.nmBin);
    var units := Under("usr/lib/systemd/system/", req.essentialUnits + req.nmUnits + req.wpaUnits);
    var files := set f | f in req.dirs + req.etcFiles;
    tree := map p | p in bins + units + files + {"usr/bin/bash"} :: "";
  }

  /** The test whether an item's path is absent. */
  function Lacks(tree: Tree, prefix: string): string -> bool {
    x => prefix + x !in tree
  }

  /** The items of a list whose path is absent, in list order. */
  function Absent(tree: Tree, prefix: string, items: seq<string>): (r: seq<string>)
    ensures |r| <= |items|
    ensures r == [] <==> forall x :: x in items ==> prefix + x in tree
  {
    NonePass(Lacks(tree, prefix), items);
    Filter(Lacks(tree, prefix), items)
  }

  function KeptUnits(units: seq<string>): (r: seq<string>)
    ensures forall u :: u in r <==> u in units && KeepUnit(u)
  {
    assert forall u :: u in Filter(KeepUnit, units) <==> u in units && KeepUnit(u) by {
      forall u ensures u in Filter(KeepUnit, units) <==> u in units && KeepUnit(u) {
        InFilter(KeepUnit, units, u);
      }
    }
    Filter(KeepUnit, units)
  }

  function AllBins(req: Required): seq<string> {
    req.binUtils + req.authBin + req.sshBin + req.nmBin
  }

  function AllUnits(req: Required): seq<string> {
    KeptUnits(req.essentialUnits + req.nmUnits + req.wpaUnits)
  }

  function MissingBins(req: Required, tree: Tree): seq<string> {
    Absent(tree, "usr/bin/", AllBins(req)) + Absent(tree, "usr/bin/", ["bash"])
  }

  function MissingUnits(req: Required, tree: Tree): seq<string> {
    Absent(tree, "usr/lib/systemd/system/", AllUnits(req))
  }

  function MissingFiles(req: Required, tree: Tree): seq<string> {
    Absent(tree, "", req.dirs) + Absent(tree, "", req.etcFiles)
  }

  /** The report of a verification, in the order the checks are made. */
  function MissingItems(req: Required, tree: Tree): seq<string> {
    MissingBins(req, tree) + MissingUnits(req, tree) + MissingFiles(req, tree)
  }

  function CheckCount(req: Required): nat {
    |AllBins(req)| + 1 + |AllUnits(req)| + |req.dirs| + |req.etcFiles|
  }

  lemma NoBinsMissing(req: Required, tree: Tree)
    ensures MissingBins(req, tree) == [] <==>
              "usr/bin/bash" in tree
              && forall b :: b in req.binUtils || b in req.authBin || b in req.sshBin || b in req.nmBin
                             ==> "usr/bin/" + b in tree
  {
    var bins, bash := Absent(tree, "usr/bin/", AllBins(req)), Absent(tree, "usr/bin/", ["bash"]);
    assert MissingBins(req, tree) == [] <==> bins == [] && bash == [];
    assert "bash" in ["bash"] && "usr/bin/" + "bash" == "usr/bin/bash";
  }

  lemma NoFilesMissing(req: Required, tree: Tree)
    ensures MissingFiles(req, tree) == [] <==>
              (forall d :: d in req.dirs ==> d in tree) && (forall f :: f in req.etcFiles ==> f in tree)
  {
    var dirs, etcFiles := Absent(tree, "", req.dirs), Absent(tree, "", req.etcFiles);
    assert MissingFiles(req, tree) == [] <==> dirs == [] && etcFiles == [];
    assert forall x: string :: "" + x == x;
  }

  /** Nothing is reported missing exactly for a complete system. */
  lemma PassedMeansComplete(req: Required, tree: Tree)
    ensures MissingItems(req, tree) == [] <==> Complete(req, tree)
  {
    var bins, units, files := MissingBins(req, tree), MissingUnits(req, tree), MissingFiles(req, tree);
    assert MissingItems(req, tree) == [] <==> bins == [] && units == [] && files == [];
    NoBinsMissing(req, tree);
    NoFilesMissing(req, tree);
  }

  function LacksUnit(tree: Tree): string -> bool {
    u =>
      && !Contains(u, "networkd") && !Contains(u, "resolved") && u != "system.slice"
      && "usr/lib/systemd/system/" + u !in tree
  }

  /** The parts of a report: all that is absent, as often as it is listed and in the order of the lists. */
  datatype Report = Report(
    bins: seq<string>, bash: seq<string>, units: seq<string>, dirs: seq<string>, etcFiles: seq<string>)

  ghost predicate Exact(req: Required, tree: Tree, r: Report) {
    && Kept(Lacks(tree, "usr/bin/"), req.binUtils + req.authBin + req.sshBin + req.nmBin, r.bins)
    && r.bash == (if "usr/bin/bash" in tree then [] else ["bash"])
    && Kept(LacksUnit(tree), req.essentialUnits + req.nmUnits + req.wpaUnits, r.units)
    && Kept(Lacks(tree, ""), req.dirs, r.dirs)
    && Kept(Lacks(tree, ""), req.etcFiles, r.etcFiles)
  }

  ghost predicate Reports(req: Required, tree: Tree, missing: seq<string>) {
    exists r: Report :: Exact(req, tree, r) && missing == r.bins + r.bash + r.units + (r.dirs + r.etcFiles)
  }

  lemma AbsentUnits(req: Required, tree: Tree)
    ensures Kept(LacksUnit(tree), req.essentialUnits + req.nmUnits + req.wpaUnits, MissingUnits(req, tree))
  {
    var units := req.essentialUnits + req.nmUnits + req.wpaUnits;
    FilterTwice(KeepUnit, Lacks(tree, "usr/lib/systemd/system/"), LacksUnit(tree), units);
    FilterKeeps(LacksUnit(tree), units);
  }

  lemma AbsentBash(tree: Tree)
    ensures Absent(tree, "usr/bin/", ["bash"]) == if "usr/bin/bash" in tree then [] else ["bash"]
  {
    assert "usr/bin/" + "bash" == "usr/bin/bash" && [] + ["bash"] == ["bash"];
    FilterAppend(Lacks(tree, "usr/bin/"), [], "bash");
  }

  /** What verification reports is exact, list by list. */
  lemma MissingIsReported(req: Required, tree: Tree)
    ensures Reports(req, tree, MissingItems(req, tree))
  {
    FilterKeeps(Lacks(tree, "usr/bin/"), AllBins(req));
    AbsentBash(tree);
    AbsentUnits(req, tree);
    FilterKeeps(Lacks(tree, ""), req.dirs);
    FilterKeeps(Lacks(tree, ""), req.etcFiles);
    var r := Report(Absent(tree, "usr/bin/", AllBins(req)), Absent(tree, "usr/bin/", ["bash"]),
                    MissingUnits(req, tree), Absent(tree, "", req.dirs), Absent(tree, "", req.etcFiles));
    assert Exact(req, tree, r);
  }

  method CheckList(tree: Tree, prefix: string, items: seq<string>) returns (passed: nat, missing: seq<string>)
    ensures missing == Absent(tree, prefix, items)
    ensures passed + |missing| == |items|
  {
    passed, missing := 0, [];
    for i := 0 to |items|
      invariant missing == Absent(tree, prefix, items[..i])
      invariant passed + |missing| == i
    {
      if prefix + items[i] in tree {
        passed := passed + 1;
      } else {
        missing := missing + [items[i]];
      }
      assert items[..i + 1] == items[..i] + [items[i]];
      FilterAppend(Lacks(tree, prefix), items[..i], items[i]);
    }
    assert items[..|items|] == items;
  }

  method CheckBins(req: Required, tree: Tree) returns (passed: nat, missing: seq<string>)
    ensures missing == MissingBins(req, tree)
    ensures passed + |missing| == |AllBins(req)| + 1
  {
    var p, m := CheckList(tree, "usr/bin/", AllBins(req));
    passed, missing := CheckList(tree, "usr/bin/", ["bash"]);
    passed, missing := p + passed, m + missing;
  }

  method CheckUnits(req: Required, tree: Tree) returns (passed: nat, missing: seq<string>)
    ensures missing == MissingUnits(req, tree)
    ensures passed + |missing| == |AllUnits(req)|
  {
    passed, missing := CheckList(tree, "usr/lib/systemd/system/", AllUnits(req));
  }

  method CheckFiles(req: Required, tree: Tree) returns (passed: nat, missing: seq<string>)
    ensures missing == MissingFiles(req, tree)
    ensures passed + |missing| == |req.dirs| + |req.etcFiles|
  {
    var p, m := CheckList(tree, "", req.dirs);
    passed, missing := CheckList(tree, "", req.etcFiles);
    passed, missing := p + passed, m + missing;
  }

  /** Succeeds exactly on complete trees; otherwise reports every missing item. */
  method VerifyStaging(req: Required, tree: Tree) returns (ok: bool, passed: nat, missing: seq<string>)
    ensures ok <==> Complete(req, tree)
    ensures missing == MissingItems(req, tree)
    ensures passed + |missing| == CheckCount(req)
  {
    var p0, m0 := CheckBins(req, tree);
    var p1, m1 := CheckUnits(req, tree);
    var p2, m2 := CheckFiles(req, tree);
    passed, missing := p0 + p1 + p2, m0 + m1 + m2;
    ok := missing == [];
    PassedMeansComplete(req, tree);
  }
}
