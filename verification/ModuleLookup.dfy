/** The copy of configured kernel modules: names with any module suffix select one file of the source. */
module ModuleLookup {
  import opened Lists
  import opened Text

  /** `trim_end_matches`: takes the suffix off as often as it is there. */
  function TrimEndMatches(s: string, suffix: string): (r: string)
    requires suffix != ""
    ensures |r| <= |s| && (EndsWith(s, suffix) ==> |r| < |s|)
    decreases |s|
  {
    if EndsWith(s, suffix) then TrimEndMatches(s[..|s| - |suffix|], suffix) else s
  }

  function Base(configured: string): string {
    TrimEndMatches(TrimEndMatches(TrimEndMatches(configured, ".ko.xz"), ".ko.gz"), ".ko")
  }

  lemma TrimAdded(b: string, suffix: string)
    requires suffix != ""
    ensures TrimEndMatches(b + suffix, suffix) == TrimEndMatches(b, suffix)
  {
    var s := b + suffix;
    assert s[|s| - |suffix|..] == suffix && s[..|s| - |suffix|] == b;
  }

  lemma LastTwo(s: string, suffix: string)
    requires |s| >= 2 && |suffix| >= 2
    ensures EndsWith(s, suffix) ==>
              s[|s| - 1] == suffix[|suffix| - 1] && s[|s| - 2] == suffix[|suffix| - 2]
  {
    if EndsWith(s, suffix) {
      var t := s[|s| - |suffix|..];
      assert t[|suffix| - 1] == s[|s| - 1] && t[|suffix| - 2] == s[|s| - 2];
    }
  }

  lemma BaseOfKo(b: string)
    ensures Base(b + ".ko") == TrimEndMatches(b, ".ko")
  {
    var s := b + ".ko";
    assert s[|s| - 1] == 'o' && ".ko.xz"[5] == ".ko.gz"[5] == 'z';
    LastTwo(s, ".ko.xz");
    LastTwo(s, ".ko.gz");
    TrimAdded(b, ".ko");
  }

  lemma BaseOfGz(b: string)
    ensures Base(b + ".ko.gz") == TrimEndMatches(TrimEndMatches(b, ".ko.gz"), ".ko")
  {
    var s := b + ".ko.gz";
    assert s[|s| - 2] == 'g' && ".ko.xz"[4] == 'x';
    LastTwo(s, ".ko.xz");
    TrimAdded(b, ".ko.gz");
  }

  lemma BaseOfXz(b: string)
    ensures Base(b + ".ko.xz") == Base(b)
  {
    TrimAdded(b, ".ko.xz");
  }

  lemma CompressedIsNotKo(b: string)
    requires EndsWith(b, ".ko.xz") || EndsWith(b, ".ko.gz")
    ensures TrimEndMatches(b, ".ko") == b
  {
    LastTwo(b, ".ko.xz");
    LastTwo(b, ".ko.gz");
    LastTwo(b, ".ko");
    assert b[|b| - 1] == 'z' && ".ko"[2] == 'o';
  }

  lemma GzDiffers(b: string)
    requires EndsWith(b, ".ko.gz")
    ensures Base(b + ".ko.gz") != Base(b + ".ko")
  {
    BaseOfKo(b);
    BaseOfGz(b);
    CompressedIsNotKo(b);
    assert |TrimEndMatches(b, ".ko.gz")| < |b|;
  }

  lemma XzDiffers(b: string)
    requires EndsWith(b, ".ko.xz")
    ensures Base(b + ".ko.xz") != Base(b + ".ko")
  {
    BaseOfKo(b);
    BaseOfXz(b);
    CompressedIsNotKo(b);
    var once := TrimEndMatches(b, ".ko.xz");
    assert |once| < |b|;
    assert |Base(b)| <= |once|;
  }

  lemma PlainAgrees(b: string)
    requires !EndsWith(b, ".ko.xz") && !EndsWith(b, ".ko.gz")
    ensures Base(b + ".ko") == Base(b + ".ko.xz") == Base(b + ".ko.gz")
  {
    BaseOfKo(b);
    BaseOfGz(b);
    BaseOfXz(b);
  }

  /** The three spellings of a name mean the same module exactly when the name has no compressed suffix itself. */
  lemma SpellingsAgreeIff(b: string)
    ensures Base(b + ".ko") == Base(b + ".ko.xz") == Base(b + ".ko.gz")
        <==> !EndsWith(b, ".ko.xz") && !EndsWith(b, ".ko.gz")
  {
    if EndsWith(b, ".ko.gz") {
      GzDiffers(b);
    } else if EndsWith(b, ".ko.xz") {
      XzDiffers(b);
    } else {
      PlainAgrees(b);
    }
  }

  // ----- selection -----

  datatype Found = Regular(content: string) | Folder

  type Source = map<string, Found>

  const SUFFIXES: seq<string> := [".ko", ".ko.xz", ".ko.gz"]

  function Select(src: Source, base: string): Option<string> {
    if base + ".ko" in src then Some(base + ".ko")
    else if base + ".ko.xz" in src then Some(base + ".ko.xz")
    else if base + ".ko.gz" in src then Some(base + ".ko.gz")
    else None
  }

  function Selected(src: Source, configured: string): Option<string> {
    Select(src, Base(configured))
  }

  function NotFoundIn(src: Source): string -> bool {
    m => Selected(src, m).None?
  }

  /** The configured modules of which the source has no file, in order. */
  function Missing(src: Source, modules: seq<string>): seq<string> {
    Filter(NotFoundIn(src), modules)
  }

  /** `file_name()`: what follows the last slash. */
  function FileName(path: string): string {
    var parts := Split(path, '/');
    parts[|parts| - 1]
  }

  /** What is selected for the name is a directory. */
  predicate IsFolder(src: Source, configured: string) {
    Selected(src, configured).Some? && src[Selected(src, configured).value].Folder?
  }

  function FolderIn(src: Source): string -> bool {
    m => IsFolder(src, m)
  }

  predicate Copyable(src: Source, modules: seq<string>) {
    Filter(FolderIn(src), modules) == []
  }

  function Installed(dst: map<string, string>, src: Source, modules: seq<string>): map<string, string>
    requires Copyable(src, modules)
  {
    if modules == [] then dst
    else
      var n := |modules| - 1;
      var before := Installed(dst, src, modules[..n]);
      match Selected(src, modules[n])
      case None => before
      case Some(path) => before[FileName(path) := src[path].content]
  }

  /** The spellings agree on every source. */
  lemma SpellingsSelectTheSame(src: Source, b: string)
    requires !EndsWith(b, ".ko.xz") && !EndsWith(b, ".ko.gz")
    ensures Selected(src, b + ".ko") == Selected(src, b + ".ko.xz") == Selected(src, b + ".ko.gz")
  {
    SpellingsAgreeIff(b);
  }

  /** The source has a file for the name under one of the suffixes. */
  ghost predicate HasFile(src: Source, base: string) {
    exists s :: s in SUFFIXES && base + s in src
  }

  lemma SelectSome(src: Source, base: string)
    ensures Select(src, base).Some? <==> HasFile(src, base)
  {
    assert SUFFIXES == [".ko", ".ko.xz", ".ko.gz"];
    assert forall s :: s in SUFFIXES <==> s == ".ko" || s == ".ko.xz" || s == ".ko.gz";
  }

  lemma CopyableIff(src: Source, modules: seq<string>)
    ensures Copyable(src, modules) <==> forall m :: m in modules ==> !IsFolder(src, m)
  {
    NonePass(FolderIn(src), modules);
  }

  /** Nothing is missing exactly when every module has a file under one of the suffixes. */
  lemma NothingMissingIff(src: Source, modules: seq<string>)
    ensures Missing(src, modules) == [] <==>
              forall m :: m in modules ==> HasFile(src, Base(m))
  {
    NonePass(NotFoundIn(src), modules);
    forall m ensures Selected(src, m).Some? <==> HasFile(src, Base(m)) {
      SelectSome(src, Base(m));
    }
  }

  /** Reported missing are exactly those without a file, each as often as it is configured and in order. */
  lemma MissingAre(src: Source, modules: seq<string>)
    ensures exists at: seq<nat> ::
              && AreAt(Missing(src, modules), modules, at)
              && (forall j, k :: 0 <= j < k < |at| ==> at[j] < at[k])
              && forall i: nat :: i < |modules| ==> (i in at <==> !HasFile(src, Base(modules[i])))
  {
    var at := FilterPositions(NotFoundIn(src), modules);
    forall i: nat | i < |modules| ensures i in at <==> !HasFile(src, Base(modules[i])) {
      SelectSome(src, Base(modules[i]));
    }
  }

  /** The first of the three suffixes that the source has decides which file is taken. */
  lemma SelectIs(src: Source, base: string, path: string)
    ensures Select(src, base) == Some(path) <==>
              exists i :: 0 <= i < |SUFFIXES| && path == base + SUFFIXES[i] && path in src
                          && forall j :: 0 <= j < i ==> base + SUFFIXES[j] !in src
  {
    assert SUFFIXES == [".ko", ".ko.xz", ".ko.gz"];
    if Select(src, base) == Some(path) {
      var i := if base + ".ko" in src then 0 else if base + ".ko.xz" in src then 1 else 2;
      assert path == base + SUFFIXES[i] && forall j :: 0 <= j < i ==> base + SUFFIXES[j] !in src;
    }
    forall i | 0 <= i < |SUFFIXES| && path == base + SUFFIXES[i] && path in src
               && forall j :: 0 <= j < i ==> base + SUFFIXES[j] !in src
      ensures Select(src, base) == Some(path)
    {
      assert i > 0 ==> base + SUFFIXES[0] !in src;
      assert i > 1 ==> base + SUFFIXES[1] !in src;
    }
  }

  /** A name without module suffix is its own base, and what a suffix is added to. */
  lemma BaseIs(b: string)
    requires !EndsWith(b, ".ko") && !EndsWith(b, ".ko.xz") && !EndsWith(b, ".ko.gz")
    ensures Base(b) == Base(b + ".ko") == Base(b + ".ko.xz") == Base(b + ".ko.gz") == b
  {
    SpellingsAgreeIff(b);
    BaseOfKo(b);
  }

  /** The file name is what follows the last slash. */
  lemma FileNameIs(dir: string, name: string)
    requires '/' !in name
    ensures FileName(name) == name && FileName(dir + "/" + name) == name
  {
    SplitFree(name, '/');
    LastPiece(dir, name);
  }

  lemma {:induction false} LastPiece(dir: string, name: string)
    requires '/' !in name
    ensures FileName(dir + "/" + name) == name
    decreases |dir|
  {
    var s := dir + "/" + name;
    SplitFree(name, '/');
    if dir == "" {
      assert s[1..] == name;
    } else {
      LastPiece(dir[1..], name);
      assert s[1..] == dir[1..] + "/" + name;
      var rest := Split(s[1..], '/');
      if s[0] != '/' && |rest| == 1 {
        TwoPieces(dir[1..], name);
      }
    }
  }

  lemma {:induction false} TwoPieces(dir: string, name: string)
    ensures |Split(dir + "/" + name, '/')| > 1
    decreases |dir|
  {
    var s := dir + "/" + name;
    if dir == "" {
      assert s[1..] == name;
    } else {
      TwoPieces(dir[1..], name);
      assert s[1..] == dir[1..] + "/" + name;
    }
  }

  lemma LastInstalled(dst: map<string, string>, src: Source, modules: seq<string>)
    requires Copyable(src, modules) && modules != []
    ensures Copyable(src, modules[..|modules| - 1])
    ensures var found := Selected(src, modules[|modules| - 1]);
            var before := Installed(dst, src, modules[..|modules| - 1]);
            && (found.Some? ==> src[found.value].Regular?)
            && Installed(dst, src, modules) ==
                 if found.None? then before else before[FileName(found.value) := src[found.value].content]
  {
  }

  lemma OneMore(dst: map<string, string>, src: Source, modules: seq<string>, i: nat)
    requires i < |modules| && Copyable(src, modules[..i])
    ensures var found := Selected(src, modules[i]);
            && Missing(src, modules[..i + 1])
               == Missing(src, modules[..i]) + (if found.None? then [modules[i]] else [])
            && (Copyable(src, modules[..i + 1]) <==> (found.Some? ==> src[found.value].Regular?))
            && (Copyable(src, modules[..i + 1]) ==>
                  Installed(dst, src, modules[..i + 1]) ==
                    var before := Installed(dst, src, modules[..i]);
                    if found.None? then before else before[FileName(found.value) := src[found.value].content])
  {
    var some := modules[..i + 1];
    assert some[..i] == modules[..i] && some[i] == modules[i];
    assert some == modules[..i] + [modules[i]];
    FilterAppend(NotFoundIn(src), modules[..i], modules[i]);
    FilterAppend(FolderIn(src), modules[..i], modules[i]);
    if Copyable(src, some) {
      LastInstalled(dst, src, some);
    }
  }

  /** A module's file is installed with its content unless a later module brings a file of the same name. */
  lemma {:induction false} InstalledHas(dst: map<string, string>, src: Source, modules: seq<string>, i: nat)
    requires Copyable(src, modules) && i < |modules| && Selected(src, modules[i]).Some?
    requires forall j :: i < j < |modules| && Selected(src, modules[j]).Some? ==>
               FileName(Selected(src, modules[j]).value) != FileName(Selected(src, modules[i]).value)
    ensures var path := Selected(src, modules[i]).value;
            FileName(path) in Installed(dst, src, modules)
            && src[path] == Regular(Installed(dst, src, modules)[FileName(path)])
  {
    var n := |modules| - 1;
    LastInstalled(dst, src, modules);
    if i < n {
      var before := modules[..n];
      assert before[i] == modules[i];
      assert forall j :: i < j < n ==> before[j] == modules[j];
      InstalledHas(dst, src, before, i);
    }
  }

  /** What no module's file is called is as before. */
  lemma {:induction false} OnlyInstalled(dst: map<string, string>, src: Source, modules: seq<string>, name: string)
    requires Copyable(src, modules)
    requires forall m :: m in modules && Selected(src, m).Some? ==> FileName(Selected(src, m).value) != name
    ensures var after := Installed(dst, src, modules);
            (name in after <==> name in dst) && (name in after ==> after[name] == dst[name])
  {
    if modules != [] {
      var before, last := modules[..|modules| - 1], modules[|modules| - 1];
      LastInstalled(dst, src, modules);
      assert last in modules && forall m :: m in before ==> m in modules;
      OnlyInstalled(dst, src, before, name);
    }
  }

  datatype Outcome = Done | MissingModules(names: seq<string>) | CopyFailed(path: string)

  class ModuleDirectory {
    var files: map<string, string>

    constructor (files: map<string, string>)
      ensures this.files == files
    {
      this.files := files;
    }

    method FindFile(src: Source, base: string) returns (r: Option<string>)
      ensures r == Select(src, base)
    {
      assert SUFFIXES[0] == ".ko" && SUFFIXES[1] == ".ko.xz" && SUFFIXES[2] == ".ko.gz";
      for i := 0 to |SUFFIXES|
        invariant forall j :: 0 <= j < i ==> base + SUFFIXES[j] !in src
      {
        if base + SUFFIXES[i] in src {
          assert i > 0 ==> base + SUFFIXES[0] !in src;
          assert i > 1 ==> base + SUFFIXES[1] !in src;
          return Some(base + SUFFIXES[i]);
        }
      }
      assert base + SUFFIXES[0] !in src && base + SUFFIXES[1] !in src && base + SUFFIXES[2] !in src;
      return None;
    }

    /**
     * Copies every module that is there, then fails with the exact list of those that are not. A directory
     * by a module's name stops the copy there.
     */
    method CopyFromConfig(src: Source, modules: seq<string>) returns (r: Outcome)
      modifies this
      ensures r.CopyFailed? <==> !Copyable(src, modules)
      ensures r.CopyFailed? ==>
                exists i: nat ::
                  && i < |modules| && Copyable(src, modules[..i]) && IsFolder(src, modules[i])
                  && Some(r.path) == Selected(src, modules[i]) && files == Installed(old(files), src, modules[..i])
      ensures !r.CopyFailed? ==>
                && files == Installed(old(files), src, modules)
                && r == if Missing(src, modules) == [] then Done else MissingModules(Missing(src, modules))
    {
      var missing: seq<string> := [];
      for i := 0 to |modules|
        invariant Copyable(src, modules[..i])
        invariant missing == Missing(src, modules[..i])
        invariant files == Installed(old(files), src, modules[..i])
      {
        OneMore(old(files), src, modules, i);
        var found := FindFile(src, Base(modules[i]));
        if found.Some? {
          if src[found.value].Folder? {
            CopyableIff(src, modules);
            assert modules[i] in modules && IsFolder(src, modules[i]);
            return CopyFailed(found.value);
          }
          files := files[FileName(found.value) := src[found.value].content];
        } else {
          missing := missing + [modules[i]];
        }
      }
      assert modules[..|modules|] == modules;
      if missing != [] {
        return MissingModules(missing);
      }
      return Done;
    }
  }
}
