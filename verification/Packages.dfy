/** Extraction of supplementary RPMs into the rootfs, resumable through a manifest written at the end. */
module Packages {
  import opened Lists
  import opened Paths
  import opened Text

  /** The RPMs on the installation medium, by package name. */
  type Medium = map<string, Files>

  // ----- the manifest file -----

  /** A missing file reads as empty. */
  function LoadManifest(content: string): seq<string> {
    if content == "" then [] else Split(Trim(content), '\n')
  }

  predicate BeginsBlank(s: string) {
    s == "" || IsWhitespace(s[0])
  }

  predicate EndsBlank(s: string) {
    s == "" || IsWhitespace(s[|s| - 1])
  }

  /** Names that survive the trimming and the line splitting of the manifest. */
  ghost predicate Recordable(names: seq<string>) {
    && (forall n :: n in names ==> '\n' !in n)
    && (names != [] ==> !BeginsBlank(names[0]) && !EndsBlank(names[|names| - 1]))
  }

  method SaveManifest(extracted: seq<string>) returns (content: string)
    ensures content == Unlines(extracted)
    ensures Recordable(extracted) ==> LoadManifest(content) == extracted
  {
    content := "";
    for i := 0 to |extracted|
      invariant content == Unlines(extracted[..i])
    {
      UnlinesAppend(extracted[..i], extracted[i]);
      assert extracted[..i + 1] == extracted[..i] + [extracted[i]];
      content := content + (extracted[i] + "\n");
    }
    assert extracted[..|extracted|] == extracted;
    if Recordable(extracted) {
      LoadSaved(extracted);
    }
  }

  lemma {:induction false} JoinEnds(names: seq<string>)
    requires names != [] && names[0] != "" && names[|names| - 1] != ""
    ensures var j := Join(names, "\n");
            j != "" && j[0] == names[0][0] && j[|j| - 1] == names[|names| - 1][|names[|names| - 1]| - 1]
  {
    var j := Join(names, "\n");
    if |names| > 1 {
      assert j[0] == names[0][0];
      JoinLast(names);
    }
  }

  lemma {:induction false} JoinLast(names: seq<string>)
    requires names != [] && names[|names| - 1] != ""
    ensures var j := Join(names, "\n");
            j != "" && j[|j| - 1] == names[|names| - 1][|names[|names| - 1]| - 1]
  {
    if |names| > 1 {
      JoinLast(names[1..]);
    }
  }

  /** Loading what was saved gives it back. */
  lemma LoadSaved(names: seq<string>)
    requires Recordable(names)
    ensures LoadManifest(Unlines(names)) == names
  {
    if names != [] {
      var j := Join(names, "\n");
      UnlinesIsJoin(names);
      JoinEnds(names);
      assert Unlines(names) == j + "\n";
      assert TrimStart(j + "\n") == j + "\n";
      assert (j + "\n")[..|j + "\n"| - 1] == j;
      assert TrimEnd(j + "\n") == TrimEnd(j) == j;
      SplitJoin(names, '\n');
    }
  }

  lemma FirstLineKeepsStart(text: string)
    requires !BeginsBlank(text)
    ensures !BeginsBlank(Split(text, '\n')[0])
  {
    SplitFirst(text, '\n');
  }

  lemma LastLineKeepsEnd(text: string)
    requires !EndsBlank(text)
    ensures !EndsBlank(Split(text, '\n')[|Split(text, '\n')| - 1])
  {
    SplitLast(text, '\n');
  }

  lemma LinesAreRecordable(text: string)
    requires !BeginsBlank(text) && !EndsBlank(text)
    ensures Recordable(Split(text, '\n'))
  {
    PiecesAreFree(text, '\n');
    FirstLineKeepsStart(text);
    LastLineKeepsEnd(text);
  }

  /** What was loaded can be saved and loaded again, unless the manifest held nothing but whitespace. */
  lemma LoadedIsRecordable(content: string)
    ensures Recordable(LoadManifest(content)) <==> content == "" || Trim(content) != ""
  {
    if Trim(content) != "" {
      TrimEnds(content);
      LinesAreRecordable(Trim(content));
    } else if content != "" {
      assert LoadManifest(content) == [""];
    }
  }

  // ----- what a build does -----

  /** The packages a build still has to extract, in list order, each once. */
  function Todo(manifest: seq<string>, packages: seq<string>): (r: seq<string>)
    ensures forall p :: p in r <==> p in packages && p !in manifest
    decreases |packages|
  {
    if packages == [] then []
    else if packages[0] in manifest then Todo(manifest, packages[1..])
    else [packages[0]] + Todo(manifest + [packages[0]], packages[1..])
  }

  predicate Has(medium: Medium, names: seq<string>) {
    forall n :: n in names ==> n in medium
  }

  /** Extraction overwrites files that exist (`cpio -u`). */
  function Unpack(rootfs: Files, medium: Medium, names: seq<string>): Files
    requires Has(medium, names)
    decreases |names|
  {
    if names == [] then rootfs else Unpack(rootfs + medium[names[0]], medium, names[1..])
  }

  function Registered(db: set<string>, names: seq<string>): set<string> {
    db + set n | n in names
  }

  function PathsOf(medium: Medium, names: seq<string>): set<string>
    requires Has(medium, names)
  {
    set n, p | n in names && p in medium[n] :: p
  }

  ghost predicate AgreeOutside(a: Files, b: Files, paths: set<string>) {
    forall p :: p !in paths ==> (p in a <==> p in b) && (p in a && p in b ==> a[p] == b[p])
  }

  /** Extracting a list of packages forgets what their files held before. */
  lemma {:induction false} UnpackForgets(a: Files, b: Files, medium: Medium, names: seq<string>)
    requires Has(medium, names)
    requires AgreeOutside(a, b, PathsOf(medium, names))
    ensures Unpack(a, medium, names) == Unpack(b, medium, names)
    decreases |names|
  {
    if names == [] {
      assert a == b;
    } else {
      var rest := names[1..];
      forall p | p !in PathsOf(medium, rest)
        ensures var x, y := a + medium[names[0]], b + medium[names[0]];
                (p in x <==> p in y) && (p in x && p in y ==> x[p] == y[p])
      {
        if p !in medium[names[0]] {
          assert p !in PathsOf(medium, names) by {
            assert forall n :: n in names ==> n == names[0] || n in rest;
          }
        }
      }
      UnpackForgets(a + medium[names[0]], b + medium[names[0]], medium, rest);
    }
  }

  lemma {:induction false} UnpackTouches(a: Files, medium: Medium, names: seq<string>)
    requires Has(medium, names)
    ensures AgreeOutside(a, Unpack(a, medium, names), PathsOf(medium, names))
    decreases |names|
  {
    if names != [] {
      UnpackTouches(a + medium[names[0]], medium, names[1..]);
      assert PathsOf(medium, names[1..]) <= PathsOf(medium, names);
      assert forall p :: p in medium[names[0]] ==> p in PathsOf(medium, names);
    }
  }

  /** Extraction leaves at each path what the last package that has it brings. */
  lemma {:induction false} UnpackHas(a: Files, medium: Medium, names: seq<string>, i: nat, p: string)
    requires Has(medium, names) && i < |names| && p in medium[names[i]]
    requires forall j :: i < j < |names| ==> p !in medium[names[j]]
    ensures p in Unpack(a, medium, names) && Unpack(a, medium, names)[p] == medium[names[i]][p]
    decreases |names|
  {
    var next, rest := a + medium[names[0]], names[1..];
    assert forall j :: 0 <= j < |rest| ==> rest[j] == names[j + 1];
    if i > 0 {
      UnpackHas(next, medium, rest, i - 1, p);
    } else {
      assert p !in PathsOf(medium, rest);
      UnpackTouches(next, medium, rest);
    }
  }

  /** The package state on disk. */
  datatype Disk = Disk(rootfs: Files, db: set<string>, manifest: string, version: string)

  /** The state after extracting and registering some packages; nothing is recorded yet. */
  function Extracted(d: Disk, medium: Medium, names: seq<string>): Disk
    requires Has(medium, names)
  {
    d.(rootfs := Unpack(d.rootfs, medium, names), db := Registered(d.db, names))
  }

  /** One uninterrupted build on a medium that has every package. */
  function FullBuild(d: Disk, medium: Medium, packages: seq<string>, version: string): Disk
    requires Has(medium, packages)
  {
    var m := LoadManifest(d.manifest);
    var todo := Todo(m, packages);
    Extracted(d, medium, todo).(manifest := Unlines(m + todo), version := version)
  }

  /**
   * Where a build stopped: some packages done, the next perhaps extracted in part, nothing recorded; or after
   * the manifest was saved, when the version file may hold the old version or the new one.
   */
  datatype Stop = Early(done: nat, torn: set<string>) | Saved(version: string)

  /** The files of a package that an interrupted extraction got to. */
  function Partly(files: Files, torn: set<string>): (r: Files)
    ensures r.Keys == files.Keys * torn
  {
    map p | p in files && p in torn :: files[p]
  }

  function FailedBuild(d: Disk, medium: Medium, packages: seq<string>, stop: Stop): Disk
    requires Has(medium, packages)
  {
    var todo := Todo(LoadManifest(d.manifest), packages);
    if stop.Saved? then FullBuild(d, medium, packages, stop.version)
    else if stop.done >= |todo| then Extracted(d, medium, todo)
    else
      var part := Partly(medium[todo[stop.done]], stop.torn);
      var done := Extracted(d, medium, todo[..stop.done]);
      done.(rootfs := done.rootfs + part)
  }

  function FailedBuilds(d: Disk, medium: Medium, packages: seq<string>, stops: seq<Stop>): Disk
    requires Has(medium, packages)
    decreases |stops|
  {
    if stops == [] then d
    else FailedBuilds(FailedBuild(d, medium, packages, stops[0]), medium, packages, stops[1..])
  }

  lemma FailedLeavesScope(d: Disk, medium: Medium, packages: seq<string>, stop: Stop)
    requires Has(medium, packages) && stop.Early?
    ensures var e := FailedBuild(d, medium, packages, stop);
            var todo := Todo(LoadManifest(d.manifest), packages);
            && e.manifest == d.manifest && e.version == d.version
            && AgreeOutside(d.rootfs, e.rootfs, PathsOf(medium, todo))
            && Registered(e.db, todo) == Registered(d.db, todo)
  {
    var todo := Todo(LoadManifest(d.manifest), packages);
    var done := if stop.done >= |todo| then todo else todo[..stop.done];
    UnpackTouches(d.rootfs, medium, done);
    assert forall n :: n in done ==> n in todo;
    assert PathsOf(medium, done) <= PathsOf(medium, todo);
  }

  /** The manifest is empty or holds more than whitespace: no build leaves it otherwise. */
  predicate Settled(d: Disk) {
    d.manifest == "" || Trim(d.manifest) != ""
  }

  predicate WellNamed(names: seq<string>) {
    forall n :: n in names ==> n != "" && forall c :: c in n ==> !IsWhitespace(c)
  }

  lemma FullBuildSettles(d: Disk, medium: Medium, packages: seq<string>, version: string)
    requires Has(medium, packages) && Settled(d) && WellNamed(packages)
    ensures Settled(FullBuild(d, medium, packages, version))
    ensures LoadManifest(FullBuild(d, medium, packages, version).manifest)
         == LoadManifest(d.manifest) + Todo(LoadManifest(d.manifest), packages)
  {
    var m := LoadManifest(d.manifest);
    var all := m + Todo(m, packages);
    LoadedIsRecordable(d.manifest);
    TodoRecordable(m, packages);
    LoadSaved(all);
    LoadedIsRecordable(Unlines(all));
  }

  lemma BuiltTwice(d: Disk, medium: Medium, packages: seq<string>, earlier: string, version: string)
    requires Has(medium, packages) && Settled(d) && WellNamed(packages)
    ensures FullBuild(FullBuild(d, medium, packages, earlier), medium, packages, version)
         == FullBuild(d, medium, packages, version)
  {
    var e, f := FullBuild(d, medium, packages, earlier), FullBuild(d, medium, packages, version);
    RebuildIsIdle(d, medium, packages, version);
    FullBuildSettles(d, medium, packages, earlier);
    assert e == f.(version := earlier);
    assert FullBuild(e, medium, packages, version) == FullBuild(f, medium, packages, version);
  }

  /** A build after one that stopped anywhere, even inside an extraction or between its two last writes. */
  lemma FullBuildAfterFailure(d: Disk, medium: Medium, packages: seq<string>, stop: Stop, version: string)
    requires Has(medium, packages)
    requires stop.Saved? ==> Settled(d) && WellNamed(packages)
    ensures FullBuild(FailedBuild(d, medium, packages, stop), medium, packages, version)
         == FullBuild(d, medium, packages, version)
  {
    if stop.Saved? {
      BuiltTwice(d, medium, packages, stop.version, version);
    } else {
      var e := FailedBuild(d, medium, packages, stop);
      var todo := Todo(LoadManifest(d.manifest), packages);
      FailedLeavesScope(d, medium, packages, stop);
      UnpackForgets(d.rootfs, e.rootfs, medium, todo);
    }
  }

  ghost predicate SomeSaved(stops: seq<Stop>) {
    exists s :: s in stops && s.Saved?
  }

  /**
   * A build that fails part-way any number of times and is then retried to success ends with the same
   * files, the same package database and the same manifest as one uninterrupted build.
   */
  lemma {:induction false} RetriesConverge(
      d: Disk, medium: Medium, packages: seq<string>, stops: seq<Stop>, version: string)
    requires Has(medium, packages)
    requires SomeSaved(stops) ==> Settled(d) && WellNamed(packages)
    ensures FullBuild(FailedBuilds(d, medium, packages, stops), medium, packages, version)
         == FullBuild(d, medium, packages, version)
    decreases |stops|
  {
    if stops != [] {
      assert stops[0] in stops && (SomeSaved(stops[1..]) ==> SomeSaved(stops));
      if stops[0].Saved? {
        FullBuildSettles(d, medium, packages, stops[0].version);
      }
      RetriesConverge(FailedBuild(d, medium, packages, stops[0]), medium, packages, stops[1..], version);
      FullBuildAfterFailure(d, medium, packages, stops[0], version);
    }
  }

  /** Names without whitespace can be recorded. */
  lemma WellNamedRecordable(names: seq<string>)
    requires WellNamed(names)
    ensures Recordable(names)
  {
    if names != [] {
      var first, last := names[0], names[|names| - 1];
      assert first in names && last in names && first[0] in first && last[|last| - 1] in last;
    }
  }

  /** A manifest of nothing but whitespace counts as one nameless package, which is lost at the next load. */
  lemma WhitespaceManifest(d: Disk, medium: Medium, packages: seq<string>, version: string)
    requires Has(medium, packages) && WellNamed(packages) && !Settled(d) && packages != []
    ensures var e := FullBuild(d, medium, packages, version);
            e.manifest == "\n" + Unlines(LoadManifest(e.manifest)) && Todo(LoadManifest(e.manifest), packages) == []
  {
    var todo := Todo([""], packages);
    assert LoadManifest(d.manifest) == [""];
    var e := FullBuild(d, medium, packages, version);
    var text := Unlines(todo);
    assert ([""] + todo)[1..] == todo;
    assert e.manifest == "" + "\n" + text == "\n" + text;
    assert packages[0] in packages && packages[0] in todo;
    assert WellNamed(todo);
    WellNamedRecordable(todo);
    LoadSaved(todo);
    assert ("\n" + text)[1..] == text;
    assert Trim(e.manifest) == Trim(text);
    assert forall p :: p in packages ==> p in todo;
    NothingTodo(todo, packages);
  }

  /** Stopping after the manifest is saved is harmless exactly from a settled manifest. */
  lemma SavedStopIff(d: Disk, medium: Medium, packages: seq<string>, earlier: string, version: string)
    requires Has(medium, packages) && WellNamed(packages) && packages != []
    ensures Settled(d) <==>
              FullBuild(FailedBuild(d, medium, packages, Saved(earlier)), medium, packages, version)
              == FullBuild(d, medium, packages, version)
  {
    if Settled(d) {
      BuiltTwice(d, medium, packages, earlier, version);
    } else {
      WhitespaceManifest(d, medium, packages, earlier);
      var e := FullBuild(d, medium, packages, earlier);
      var names := LoadManifest(e.manifest);
      assert names + [] == names;
      assert FullBuild(e, medium, packages, version).manifest == Unlines(names);
      assert FullBuild(d, medium, packages, version).manifest == e.manifest;
    }
  }

  lemma SavedStopSettles(d: Disk, medium: Medium, packages: seq<string>, version: string)
    requires Has(medium, packages) && WellNamed(packages) && !Settled(d) && packages != []
    ensures Settled(FullBuild(d, medium, packages, version))
  {
    WhitespaceManifest(d, medium, packages, version);
    assert packages[0] in packages && packages[0] in Todo([""], packages);
  }

  /** With such a stop among them, failed builds and a success converge exactly from a settled manifest. */
  lemma {:induction false} RetriesConvergeIff(
      d: Disk, medium: Medium, packages: seq<string>, stops: seq<Stop>, version: string)
    requires Has(medium, packages) && WellNamed(packages) && packages != []
    requires SomeSaved(stops)
    ensures Settled(d) <==>
              FullBuild(FailedBuilds(d, medium, packages, stops), medium, packages, version)
              == FullBuild(d, medium, packages, version)
    decreases |stops|
  {
    var e, rest := FailedBuild(d, medium, packages, stops[0]), stops[1..];
    if Settled(d) {
      RetriesConverge(d, medium, packages, stops, version);
    } else if stops[0].Saved? {
      SavedStopSettles(d, medium, packages, stops[0].version);
      RetriesConverge(e, medium, packages, rest, version);
      SavedStopIff(d, medium, packages, stops[0].version, version);
    } else {
      FailedLeavesScope(d, medium, packages, stops[0]);
      var s :| s in stops && s.Saved?;
      assert s in rest;
      RetriesConvergeIff(e, medium, packages, rest, version);
      FullBuildAfterFailure(d, medium, packages, stops[0], version);
    }
  }

  lemma {:induction false} SameRpms(a: Files, medium: Medium, full: Medium, names: seq<string>)
    requires forall n :: n in names ==> n in medium && n in full && medium[n] == full[n]
    ensures Unpack(a, medium, names) == Unpack(a, full, names)
    decreases |names|
  {
    if names != [] {
      SameRpms(a + medium[names[0]], medium, full, names[1..]);
    }
  }

  /** What `Recipe.Build` leaves when an RPM is missing is such an early stop, on the medium made whole later. */
  lemma MissingRpmIsAStop(d: Disk, medium: Medium, full: Medium, packages: seq<string>, k: nat)
    requires Has(full, packages)
    requires forall n :: n in medium && n in full ==> medium[n] == full[n]
    requires k < |Todo(LoadManifest(d.manifest), packages)|
    requires Has(medium, Todo(LoadManifest(d.manifest), packages)[..k])
    ensures var done := Todo(LoadManifest(d.manifest), packages)[..k];
            Extracted(d, medium, done) == FailedBuild(d, full, packages, Early(k, {}))
  {
    var todo := Todo(LoadManifest(d.manifest), packages);
    assert forall n :: n in todo[..k] ==> n in todo;
    SameRpms(d.rootfs, medium, full, todo[..k]);
    var none := Partly(full[todo[k]], {});
    assert none.Keys == {};
    assert none == map[];
    assert forall m: Files :: m + none == m;
  }

  // ----- the manifest of a successful build -----

  ghost predicate Distinct(xs: seq<string>) {
    forall i, j :: 0 <= i < j < |xs| ==> xs[i] != xs[j]
  }

  lemma TodoCovers(manifest: seq<string>, packages: seq<string>)
    ensures forall p :: p in packages ==> p in manifest + Todo(manifest, packages)
  {
  }

  lemma {:induction false} TodoDistinct(manifest: seq<string>, packages: seq<string>)
    ensures Distinct(Todo(manifest, packages))
    decreases |packages|
  {
    if packages != [] {
      if packages[0] in manifest {
        TodoDistinct(manifest, packages[1..]);
      } else {
        var more := manifest + [packages[0]];
        TodoDistinct(more, packages[1..]);
        assert packages[0] in more;
        assert packages[0] !in Todo(more, packages[1..]);
      }
    }
  }

  /** The packages added are new, distinct, and together with the old manifest cover the list. */
  lemma TodoAddsEachOnce(manifest: seq<string>, packages: seq<string>)
    ensures var todo := Todo(manifest, packages);
            && Distinct(todo)
            && (forall p :: p in todo ==> p !in manifest)
            && (forall p :: p in packages ==> p in manifest + todo)
            && (Distinct(manifest) ==> Distinct(manifest + todo))
  {
    TodoDistinct(manifest, packages);
    TodoCovers(manifest, packages);
    var todo := Todo(manifest, packages);
    forall i, j | Distinct(manifest) && 0 <= i < j < |manifest + todo|
      ensures (manifest + todo)[i] != (manifest + todo)[j]
    {
      if i < |manifest| <= j {
        assert manifest[i] in manifest && todo[j - |manifest|] in todo;
      }
    }
  }

  lemma {:induction false} TodoAppend(manifest: seq<string>, packages: seq<string>, p: string)
    ensures Todo(manifest, packages + [p]) ==
              Todo(manifest, packages) + (if p in manifest || p in packages then [] else [p])
    decreases |packages|
  {
    if packages == [] {
      assert ([] + [p])[1..] == [];
    } else {
      var first, rest := packages[0], packages[1..];
      assert packages == [first] + rest && (packages + [p])[1..] == rest + [p];
      TodoAppend(if first in manifest then manifest else manifest + [first], rest, p);
    }
  }

  /** A package is to do at its first place in the list, if it is not recorded yet. */
  ghost predicate IsNew(manifest: seq<string>, packages: seq<string>, i: nat)
    requires i < |packages|
  {
    packages[i] !in manifest && packages[i] !in packages[..i]
  }

  /** To do are exactly those packages, in list order. */
  lemma {:induction false} TodoAre(manifest: seq<string>, packages: seq<string>) returns (at: seq<nat>)
    ensures AreAt(Todo(manifest, packages), packages, at)
    ensures forall j, k :: 0 <= j < k < |at| ==> at[j] < at[k]
    ensures forall i: nat :: i < |packages| ==> (i in at <==> IsNew(manifest, packages, i))
    decreases |packages|
  {
    if packages == [] {
      at := [];
    } else {
      var n := |packages| - 1;
      var before, last := packages[..n], packages[n];
      assert packages == before + [last];
      TodoAppend(manifest, before, last);
      at := TodoAre(manifest, before);
      forall i: nat | i < n ensures IsNew(manifest, packages, i) <==> IsNew(manifest, before, i) {
        assert packages[..i] == before[..i];
      }
      if IsNew(manifest, packages, n) {
        var more := at + [n];
        assert more[|at|] == n && forall i :: i in more <==> i in at || i == n;
        at := more;
      }
    }
  }

  lemma {:induction false} NothingTodo(manifest: seq<string>, packages: seq<string>)
    requires forall p :: p in packages ==> p in manifest
    ensures Todo(manifest, packages) == []
  {
    if packages != [] {
      NothingTodo(manifest, packages[1..]);
    }
  }

  lemma TodoRecordable(manifest: seq<string>, packages: seq<string>)
    requires Recordable(manifest)
    requires WellNamed(packages)
    ensures Recordable(manifest + Todo(manifest, packages))
  {
    var todo := Todo(manifest, packages);
    assert forall p :: p in todo ==> p in packages;
    var all := manifest + todo;
    assert forall p :: p in all ==> p in manifest || p in todo;
    if todo == [] {
      assert all == manifest;
    } else {
      var last := todo[|todo| - 1];
      assert last in todo && last in packages && last[|last| - 1] in last;
      assert all[|all| - 1] == last;
      assert todo[0] in packages;
      assert all[0] == if manifest == [] then todo[0] else manifest[0];
    }
  }

  lemma IdleBuild(d: Disk, medium: Medium, packages: seq<string>)
    requires Has(medium, packages)
    requires Todo(LoadManifest(d.manifest), packages) == []
    requires d.manifest == Unlines(LoadManifest(d.manifest))
    ensures FullBuild(d, medium, packages, d.version) == d
  {
    var m := LoadManifest(d.manifest);
    assert m + [] == m;
    assert Extracted(d, medium, []) == d;
  }

  /** A rerun extracts nothing and changes nothing. */
  lemma RebuildIsIdle(d: Disk, medium: Medium, packages: seq<string>, version: string)
    requires Has(medium, packages)
    requires Settled(d) && WellNamed(packages)
    ensures var e := FullBuild(d, medium, packages, version);
            Todo(LoadManifest(e.manifest), packages) == [] && FullBuild(e, medium, packages, version) == e
  {
    var m := LoadManifest(d.manifest);
    var all := m + Todo(m, packages);
    LoadedIsRecordable(d.manifest);
    TodoRecordable(m, packages);
    LoadSaved(all);
    var e := FullBuild(d, medium, packages, version);
    assert LoadManifest(e.manifest) == all;
    assert Todo(all, packages) == [] by {
      TodoAddsEachOnce(m, packages);
      NothingTodo(all, packages);
    }
    IdleBuild(e, medium, packages);
  }

  /** What `is_built` demands before a build is skipped. */
  predicate Accepted(d: Disk, ctxVersion: string) {
    Trim(d.version) == ctxVersion && |LoadManifest(d.manifest)| >= 38
  }

  lemma {:induction false} ElementsAtMost(xs: seq<string>)
    ensures |set x | x in xs| <= |xs|
    ensures Distinct(xs) ==> |set x | x in xs| == |xs|
  {
    if xs != [] {
      ElementsAtMost(xs[1..]);
      assert (set x | x in xs) == {xs[0]} + set x | x in xs[1..];
      if Distinct(xs) {
        assert Distinct(xs[1..]);
        assert xs[0] !in xs[1..];
      }
    }
  }

  lemma Covered(xs: seq<string>, ys: seq<string>)
    requires Distinct(xs) && forall x :: x in xs ==> x in ys
    ensures |xs| <= |ys|
  {
    var a, b := set x | x in xs, set y | y in ys;
    ElementsAtMost(xs);
    ElementsAtMost(ys);
    assert a <= b;
    CardinalityMonotone(a, b);
  }

  lemma CardinalityMonotone(a: set<string>, b: set<string>)
    requires a <= b
    ensures |a| <= |b|
  {
    assert b == a + (b - a);
  }

  /** A finished build of a long enough list is accepted, whatever manifest it started from. */
  lemma BuildIsAccepted(d: Disk, medium: Medium, packages: seq<string>, version: string)
    requires Has(medium, packages) && Distinct(packages) && |packages| >= 38 && Trim(version) == version
    requires Settled(d) && WellNamed(packages)
    ensures Accepted(FullBuild(d, medium, packages, version), version)
  {
    var m := LoadManifest(d.manifest);
    var all := m + Todo(m, packages);
    LoadedIsRecordable(d.manifest);
    TodoRecordable(m, packages);
    LoadSaved(all);
    TodoAddsEachOnce(m, packages);
    Covered(packages, all);
  }

  // ----- the recipe -----

  datatype Outcome = Built(newCount: nat, total: nat) | MissingRpm(name: string)

  datatype Verdict = UpToDate(extracted: nat) | VersionChanged | ManifestEmpty | ManifestShort(found: nat)

  class Recipe {
    var rootfs: Files
    var db: set<string>
    var manifest: string
    var version: string

    ghost function Now(): Disk
      reads this
    {
      Disk(rootfs, db, manifest, version)
    }

    constructor (rootfs: Files)
      ensures Now() == Disk(rootfs, {}, "", "")
    {
      this.rootfs, db, manifest, version := rootfs, {}, "", "";
    }

    method AlreadyDone(extracted: seq<string>, pkg: string) returns (done: bool)
      ensures done <==> pkg in extracted
    {
      done := false;
      for j := 0 to |extracted|
        invariant pkg !in extracted[..j]
      {
        if extracted[j] == pkg {
          return true;
        }
      }
    }

    method Extract(medium: Medium, pkg: string)
      requires pkg in medium
      modifies `rootfs, `db
      ensures rootfs == old(rootfs) + medium[pkg] && db == old(db) + {pkg}
    {
      rootfs := rootfs + medium[pkg];
      db := db + {pkg};
    }

    /** Extracts what is still to do, up to the first package that the medium lacks. */
    method ExtractAll(medium: Medium, packages: seq<string>, m: seq<string>)
      returns (missing: Option<string>, extracted: seq<string>, newCount: nat)
      modifies `rootfs, `db
      ensures newCount <= |Todo(m, packages)| && extracted == m + Todo(m, packages)[..newCount]
      ensures Has(medium, Todo(m, packages)[..newCount])
      ensures Now() == Extracted(old(Now()), medium, Todo(m, packages)[..newCount])
      ensures missing.None? ==> newCount == |Todo(m, packages)|
      ensures missing.Some? ==> newCount < |Todo(m, packages)|
                                && Todo(m, packages)[newCount] == missing.value && missing.value !in medium
    {
      ghost var d, todo := Now(), Todo(m, packages);
      extracted, newCount := m, 0;
      for i := 0 to |packages|
        invariant newCount <= |todo| && extracted == m + todo[..newCount]
        invariant todo[newCount..] == Todo(extracted, packages[i..])
        invariant Has(medium, todo[..newCount])
        invariant Now() == Extracted(d, medium, todo[..newCount])
      {
        var pkg := packages[i];
        TodoStep(extracted, packages, i, todo, newCount);
        var done := AlreadyDone(extracted, pkg);
        if done {
          continue;
        }
        if pkg !in medium {
          return Some(pkg), extracted, newCount;
        }
        ExtractedAppend(d, medium, todo, newCount);
        Extract(medium, pkg);
        extracted := extracted + [pkg];
        newCount := newCount + 1;
      }
      assert packages[|packages|..] == [];
      missing := None;
    }

    /**
     * A success is the uninterrupted build. A failure names the first package still to extract that the
     * medium lacks, and leaves extractions behind that no file records.
     */
    method Build(medium: Medium, packages: seq<string>, ctxVersion: string) returns (r: Outcome)
      modifies this
      ensures r.Built? <==> Has(medium, Todo(LoadManifest(old(manifest)), packages))
      ensures r.Built? ==>
                var m := LoadManifest(old(manifest));
                var todo := Todo(m, packages);
                && Now() == Extracted(old(Now()), medium, todo).(manifest := Unlines(m + todo), version := ctxVersion)
                && r.newCount == |todo| && r.total == |m| + |todo|
                && manifest == Unlines(m + todo) && version == ctxVersion
                && (forall n :: n in db <==> n in old(db) || n in todo)
      ensures r.MissingRpm? ==>
                var todo := Todo(LoadManifest(old(manifest)), packages);
                exists k: nat ::
                  && k < |todo| && todo[k] == r.name && r.name !in medium && Has(medium, todo[..k])
                  && Now() == Extracted(old(Now()), medium, todo[..k])
    {
      var m := LoadManifest(manifest);
      ghost var todo := Todo(m, packages);
      var missing, extracted, newCount := ExtractAll(medium, packages, m);
      if missing.Some? {
        return MissingRpm(missing.value);
      }
      assert todo[..newCount] == todo;
      manifest := SaveManifest(extracted);
      version := ctxVersion;
      r := Built(newCount, |extracted|);
    }

    /** The recorded version is current and the manifest is long enough. */
    method IsBuilt(ctxVersion: string) returns (v: Verdict)
      ensures v.UpToDate? <==> Accepted(Now(), ctxVersion)
      ensures v == var n := |LoadManifest(manifest)|;
                   if Trim(version) != ctxVersion then VersionChanged
                   else if n == 0 then ManifestEmpty
                   else if n < 38 then ManifestShort(n)
                   else UpToDate(n)
    {
      if Trim(version) != ctxVersion {
        return VersionChanged;
      }
      var m := LoadManifest(manifest);
      if |m| == 0 {
        return ManifestEmpty;
      }
      if |m| < 38 {
        return ManifestShort(|m|);
      }
      return UpToDate(|m|);
    }
  }

  lemma TodoStep(extracted: seq<string>, packages: seq<string>, i: nat, todo: seq<string>, k: nat)
    requires i < |packages| && k <= |todo| && todo[k..] == Todo(extracted, packages[i..])
    ensures if packages[i] in extracted then todo[k..] == Todo(extracted, packages[i + 1..])
            else && k < |todo| && todo[k] == packages[i]
                 && todo[k + 1..] == Todo(extracted + [packages[i]], packages[i + 1..])
  {
    assert packages[i..][0] == packages[i] && packages[i..][1..] == packages[i + 1..];
    if packages[i] !in extracted {
      assert todo[k] == todo[k..][0] && todo[k + 1..] == todo[k..][1..];
    }
  }

  lemma ExtractedAppend(d: Disk, medium: Medium, todo: seq<string>, k: nat)
    requires k < |todo| && todo[k] in medium && Has(medium, todo[..k])
    ensures todo[..k + 1] == todo[..k] + [todo[k]] && Has(medium, todo[..k + 1])
    ensures var e := Extracted(d, medium, todo[..k]);
            Extracted(d, medium, todo[..k + 1])
              == e.(rootfs := e.rootfs + medium[todo[k]], db := e.db + {todo[k]})
  {
    assert todo[..k + 1] == todo[..k] + [todo[k]];
    UnpackAppend(d.rootfs, medium, todo[..k], todo[k]);
  }

  lemma {:induction false} UnpackAppend(a: Files, medium: Medium, names: seq<string>, n: string)
    requires n in medium && Has(medium, names)
    ensures Has(medium, names + [n])
    ensures Unpack(a, medium, names + [n]) == Unpack(a, medium, names) + medium[n]
    decreases |names|
  {
    if names != [] {
      UnpackAppend(a + medium[names[0]], medium, names[1..], n);
      assert (names + [n])[1..] == names[1..] + [n];
    }
  }
}
