/** The recursive copy of a kernel module tree into a file system that may already hold other files. */
module ModuleTree {
  import opened Paths
  import opened Text

  type Name = string

  /** A source tree; the entries of a directory have no order of their own. */
  datatype Node = File(content: string) | Dir(entries: map<Name, Node>)

  datatype Entry = IsDir | IsFile(content: string)

  type Entries = map<Path, Entry>

  function At(fs: Entries, p: Path): Option<Entry> {
    if p in fs then Some(fs[p]) else None
  }

  /** What the source has at a path below its root. */
  function Lookup(n: Node, p: Path): Option<Entry>
    decreases |p|
  {
    match n
    case File(content) => if p == [] then Some(IsFile(content)) else None
    case Dir(entries) =>
      if p == [] then Some(IsDir)
      else if p[0] in entries then Lookup(entries[p[0]], p[1..])
      else None
  }

  /** A proper part of the way to a path: the directories that must be there. */
  predicate OnTheWay(q: Path, at: Path) {
    q != [] && q <= at
  }

  /** A file where the copy needs a directory, or a directory where it needs a file. */
  ghost predicate Clash(have: Option<Entry>, want: Option<Entry>) {
    have.Some? && want.Some? && have.value.IsDir? != want.value.IsDir?
  }

  /** Some path of the source clashes with what is at its place. */
  ghost predicate Clashes(fs: Entries, src: Node, at: Path) {
    exists p {:trigger Lookup(src, p)} :: Clash(At(fs, at + p), Lookup(src, p))
  }

  ghost predicate FileInTheWay(fs: Entries, at: Path) {
    exists q {:trigger OnTheWay(q, at)} :: OnTheWay(q, at) && Clash(At(fs, q), Some(IsDir))
  }

  ghost predicate Conflict(fs: Entries, src: Node, at: Path) {
    FileInTheWay(fs, at) || Clashes(fs, src, at)
  }

  /** The source laid over the file system at a path, path by path. */
  function Placed(fs: Entries, src: Node, at: Path, q: Path): Option<Entry> {
    if at <= q && Lookup(src, q[|at|..]).Some? then Lookup(src, q[|at|..]) else At(fs, q)
  }

  /** The file system after the copy: the way to the destination is made as well. */
  function Merged(fs: Entries, src: Node, at: Path, q: Path): Option<Entry> {
    if OnTheWay(q, at) then Some(IsDir) else Placed(fs, src, at, q)
  }

  // ----- counting -----

  /** What is below one child is at the child's name. */
  lemma LookupChild(src: Node, c: Name, p: Path)
    requires src.Dir? && c in src.entries
    ensures Lookup(src, [c] + p) == Lookup(src.entries[c], p)
  {
    assert ([c] + p)[1..] == p;
  }

  /** `extension() == "ko"`: something before the last dot, and "ko" after it. */
  predicate IsKo(name: Name) {
    |name| > 3 && EndsWith(name, ".ko")
  }

  /** The paths of the .ko files of a tree whose root goes by a name. */
  function KoFiles(name: Name, n: Node): set<Path>
    decreases n
  {
    match n
    case File(_) => if IsKo(name) then {[]} else {}
    case Dir(entries) => set c, p | c in entries && p in KoFiles(c, entries[c]) :: [c] + p
  }

  function KoAmong(entries: map<Name, Node>, names: set<Name>): set<Path> {
    set c, p | c in entries && c in names && p in KoFiles(c, entries[c]) :: [c] + p
  }

  /** The source has a file there whose name is a stem, not empty, followed by ".ko". */
  ghost predicate HasKoAt(src: Node, p: Path) {
    && p != [] && Lookup(src, p).Some? && Lookup(src, p).value.IsFile?
    && exists stem: Name :: stem != "" && p[|p| - 1] == stem + ".ko"
  }

  lemma IsKoIff(name: Name)
    ensures IsKo(name) <==> exists stem: Name :: stem != "" && name == stem + ".ko"
  {
    if IsKo(name) {
      var stem := name[..|name| - 3];
      assert name == stem + ".ko";
    }
    forall stem: Name | stem != "" && name == stem + ".ko" ensures IsKo(name) {
      assert name[|name| - 3..] == ".ko";
    }
  }

  lemma {:induction false} KoFilesAt(name: Name, n: Node, p: Path)
    ensures p in KoFiles(name, n) <==> if p == [] then n.File? && IsKo(name) else HasKoAt(n, p)
    decreases n
  {
    if n.Dir? && p != [] {
      var c, rest := p[0], p[1..];
      assert p == [c] + rest;
      if c in n.entries {
        KoFilesAt(c, n.entries[c], rest);
        LookupChild(n, c, rest);
        KoBelow(n, c, rest);
        if p in KoFiles(name, n) {
          var d, q :| d in n.entries && q in KoFiles(d, n.entries[d]) && p == [d] + q;
          assert d == c && q == rest;
        }
      }
    }
  }

  lemma KoBelow(n: Node, c: Name, rest: Path)
    requires n.Dir? && c in n.entries
    ensures HasKoAt(n, [c] + rest) <==>
              if rest == [] then n.entries[c].File? && IsKo(c) else HasKoAt(n.entries[c], rest)
  {
    LookupChild(n, c, rest);
    IsKoIff(c);
    var p := [c] + rest;
    if rest == [] {
      assert p[|p| - 1] == c;
    } else {
      assert p[|p| - 1] == rest[|rest| - 1];
    }
  }

  /** Counted are exactly the files with something before a final ".ko", at any depth. */
  ghost predicate AreKoFiles(src: Node, ps: set<Path>) {
    forall p :: p in ps <==> HasKoAt(src, p)
  }

  lemma KoFilesAre(name: Name, src: Node)
    requires src.Dir?
    ensures AreKoFiles(src, KoFiles(name, src))
  {
    forall p ensures p in KoFiles(name, src) <==> HasKoAt(src, p) {
      KoFilesAt(name, src, p);
    }
  }

  lemma {:induction false} PrefixedSize(c: Name, ps: set<Path>)
    ensures |set p | p in ps :: [c] + p| == |ps|
  {
    if ps != {} {
      var x :| x in ps;
      var rest := ps - {x};
      PrefixedSize(c, rest);
      var big, small := set p | p in ps :: [c] + p, set p | p in rest :: [c] + p;
      assert big == small + {[c] + x};
      assert [c] + x !in small by {
        forall p | p in rest ensures [c] + p != [c] + x {
          assert ([c] + p)[1..] == p && ([c] + x)[1..] == x;
        }
      }
    }
  }

  /** Each child adds its own .ko files and no other child's. */
  lemma KoAmongMore(entries: map<Name, Node>, names: set<Name>, c: Name)
    requires c in entries && c !in names
    ensures |KoAmong(entries, names + {c})| == |KoAmong(entries, names)| + |KoFiles(c, entries[c])|
  {
    var own := set p | p in KoFiles(c, entries[c]) :: [c] + p;
    assert KoAmong(entries, names + {c}) == KoAmong(entries, names) + own;
    forall q | q in own ensures q !in KoAmong(entries, names) {
      assert q[0] == c;
    }
    assert KoAmong(entries, names) !! own;
    PrefixedSize(c, KoFiles(c, entries[c]));
  }

  // ----- the copy -----

  /** The file system when the children in `done` have been copied. */
  function Partly(fs: Entries, src: Node, at: Path, done: set<Name>, q: Path): Option<Entry> {
    if at < q && q[|at|] in done && Lookup(src, q[|at|..]).Some? then Lookup(src, q[|at|..]) else At(fs, q)
  }

  ghost predicate CopiedSome(fs: Entries, now: Entries, src: Node, at: Path, done: set<Name>) {
    forall q :: At(now, q) == Partly(fs, src, at, done, q)
  }

  ghost predicate IsPlaced(fs: Entries, now: Entries, src: Node, at: Path) {
    forall q :: At(now, q) == Placed(fs, src, at, q)
  }

  lemma CopiedMore(
      fs: Entries, now: Entries, next: Entries, src: Node, at: Path, done: set<Name>, c: Name)
    requires src.Dir? && c in src.entries && c !in done
    requires CopiedSome(fs, now, src, at, done) && IsPlaced(now, next, src.entries[c], at + [c])
    ensures CopiedSome(fs, next, src, at, done + {c})
  {
    forall q ensures At(next, q) == Partly(fs, src, at, done + {c}, q) {
      if at + [c] <= q {
        var p := q[|at| + 1..];
        assert q[|at|] == c && q[|at|..] == [c] + p;
        LookupChild(src, c, p);
      }
    }
  }

  /** Copying other children first does not change whether a child clashes. */
  lemma ClashesApart(fs: Entries, now: Entries, src: Node, at: Path, done: set<Name>, c: Name)
    requires src.Dir? && c in src.entries && c !in done
    requires CopiedSome(fs, now, src, at, done)
    ensures Clashes(now, src.entries[c], at + [c]) <==> Clashes(fs, src.entries[c], at + [c])
  {
    forall p: Path ensures At(now, at + [c] + p) == At(fs, at + [c] + p) {
      assert (at + [c] + p)[|at|] == c;
    }
  }

  ghost predicate WithWay(was: Entries, made: Entries, at: Path) {
    forall q :: At(made, q) == if OnTheWay(q, at) then Some(IsDir) else At(was, q)
  }

  ghost predicate IsMerged(was: Entries, now: Entries, src: Node, at: Path) {
    forall q :: At(now, q) == Merged(was, src, at, q)
  }

  ghost predicate ChildClashes(fs: Entries, src: Node, at: Path, names: set<Name>) {
    src.Dir? && exists c {:trigger src.entries[c]} ::
      c in names && c in src.entries && Clashes(fs, src.entries[c], at + [c])
  }

  /** With the way made, a conflict is a clash of some child. */
  lemma ConflictIsAChilds(was: Entries, made: Entries, src: Node, at: Path)
    requires src.Dir? && !FileInTheWay(was, at) && At(was, []) == Some(IsDir)
    requires WithWay(was, made, at)
    ensures Conflict(was, src, at) <==> ChildClashes(made, src, at, src.entries.Keys)
  {
    forall c, p: Path | c in src.entries
      ensures Clash(At(was, at + ([c] + p)), Lookup(src, [c] + p))
         <==> Clash(At(made, at + [c] + p), Lookup(src.entries[c], p))
    {
      LookupChild(src, c, p);
      assert at + ([c] + p) == at + [c] + p;
      assert !OnTheWay(at + [c] + p, at);
    }
    if c :| c in src.entries && Clashes(made, src.entries[c], at + [c]) {
      var p :| Clash(At(made, at + [c] + p), Lookup(src.entries[c], p));
      assert Clash(At(was, at + ([c] + p)), Lookup(src, [c] + p));
    }
    if Clashes(was, src, at) {
      var p :| Clash(At(was, at + p), Lookup(src, p));
      if p == [] {
        assert at + p == at && Lookup(src, p) == Some(IsDir);
        assert at != [] ==> OnTheWay(at, at);
        assert false;
      } else {
        assert p == [p[0]] + p[1..];
      }
    }
  }

  /** The way to a path is clear: every directory above it is there. */
  ghost predicate WayMade(fs: Entries, p: Path) {
    p != [] && forall q {:trigger OnTheWay(q, p)} :: OnTheWay(q, p) && q != p ==> At(fs, q) == Some(IsDir)
  }

  class FileSystem {
    var entries: Entries

    /** The root of the file system is a directory. */
    ghost predicate Valid()
      reads this
    {
      At(entries, []) == Some(IsDir)
    }

    constructor (entries: Entries)
      requires At(entries, []) == Some(IsDir)
      ensures Valid() && this.entries == entries
    {
      this.entries := entries;
    }

    /** `create_dir_all`: fails on the first file in the way. */
    method MakeDirs(at: Path) returns (ok: bool)
      requires Valid()
      modifies this
      ensures Valid()
      ensures ok <==> !FileInTheWay(old(entries), at)
      ensures ok ==> WithWay(old(entries), entries, at)
    {
      ghost var was := entries;
      for i := 1 to |at| + 1
        invariant forall q {:trigger OnTheWay(q, at)} :: OnTheWay(q, at) && |q| < i ==> !Clash(At(was, q), Some(IsDir))
        invariant Valid()
        invariant forall q :: At(entries, q) == if OnTheWay(q, at) && |q| < i then Some(IsDir) else At(was, q)
      {
        var q := at[..i];
        assert OnTheWay(q, at) && At(entries, q) == At(was, q);
        assert forall r :: OnTheWay(r, at) && |r| == i ==> r == q;
        if q in entries && entries[q].IsFile? {
          return false;
        }
        entries := entries[q := IsDir];
      }
      return true;
    }

    /**
     * Copies a directory, in whatever order its entries come, and counts its .ko files. It works exactly
     * when no file is in the way of a directory or the other way round; then every source entry is at its
     * place, and everything the source does not name is as before.
     */
    method CopyDir(src: Node, at: Path, count: nat, ghost name: Name) returns (ok: bool, total: nat)
      requires Valid() && src.Dir?
      modifies this
      ensures Valid()
      ensures ok <==> !Conflict(old(entries), src, at)
      ensures ok ==> IsMerged(old(entries), entries, src, at)
      ensures ok ==> total == count + |KoFiles(name, src)| && AreKoFiles(src, KoFiles(name, src))
      decreases src, 1
    {
      ghost var was := entries;
      KoFilesAre(name, src);
      ok := MakeDirs(at);
      if !ok {
        return false, count;
      }
      ghost var made := entries;
      ConflictIsAChilds(was, made, src, at);
      ok, total := CopyEntries(src, at, count);
      if ok {
        assert KoAmong(src.entries, src.entries.Keys) == KoFiles(name, src);
        AllCopied(was, made, entries, src, at);
      }
    }

    /** The loop over the directory's entries, in any order. */
    method CopyEntries(src: Node, at: Path, count: nat) returns (ok: bool, total: nat)
      requires Valid() && src.Dir? && (forall q :: OnTheWay(q, at) ==> At(entries, q) == Some(IsDir))
      modifies this
      ensures Valid()
      ensures ok <==> !ChildClashes(old(entries), src, at, src.entries.Keys)
      ensures ok ==> CopiedSome(old(entries), entries, src, at, src.entries.Keys)
      ensures ok ==> total == count + |KoAmong(src.entries, src.entries.Keys)|
      decreases src, 0
    {
      ghost var made := entries;
      ok, total := true, count;
      var unread := src.entries.Keys;
      ghost var done: set<Name> := {};
      while unread != {}
        invariant Valid() && ok && unread !! done && unread + done == src.entries.Keys
        invariant CopiedSome(made, entries, src, at, done)
        invariant !ChildClashes(made, src, at, done)
        invariant total == count + |KoAmong(src.entries, done)|
        decreases unread
      {
        var c :| c in unread;
        ghost var now := entries;
        ClashesApart(made, now, src, at, done, c);
        WayToChild(made, now, src, at, done, c);
        ok, total := CopyEntry(src.entries[c], at + [c], total, c);
        if !ok {
          return;
        }
        CopiedMore(made, now, entries, src, at, done, c);
        KoAmongMore(src.entries, done, c);
        unread, done := unread - {c}, done + {c};
      }
      assert done == src.entries.Keys;
    }

    method CopyEntry(src: Node, at: Path, count: nat, name: Name) returns (ok: bool, total: nat)
      requires Valid() && WayMade(entries, at)
      modifies this
      ensures Valid()
      ensures ok <==> !Clashes(old(entries), src, at)
      ensures ok ==> IsPlaced(old(entries), entries, src, at)
      ensures ok ==> total == count + |KoFiles(name, src)|
      decreases src, 2
    {
      ghost var was := entries;
      assert at + [] == at;
      match src
      case Dir(_) =>
        ClashesWithWayMade(was, src, at);
        ok, total := CopyDir(src, at, count, name);
      case File(content) =>
        ok, total := !(at in entries && entries[at].IsDir?), count;
        assert Clash(At(was, at + []), Lookup(src, [])) <==> !ok;
        if ok {
          entries := entries[at := IsFile(content)];
          forall q | at <= q ensures q[|at|..] == [] <==> q == at {
          }
          total := count + if IsKo(name) then 1 else 0;
        }
    }

    /**
     * The module tree of a custom kernel: its `kernel` subdirectory, if there is one. A file by that name
     * cannot be read as a directory: the copy fails, having made the destination directory at most.
     */
    method CopyModulesRecursive(kernel: Option<Node>, dst: Path) returns (ok: bool, total: nat)
      requires Valid()
      modifies this
      ensures Valid()
      ensures kernel.None? ==> ok && entries == old(entries) && total == 0
      ensures kernel.Some? && kernel.value.Dir? ==>
                && (ok <==> !Conflict(old(entries), kernel.value, dst + ["kernel"]))
                && (ok ==> total == |KoFiles("kernel", kernel.value)|
                           && AreKoFiles(kernel.value, KoFiles("kernel", kernel.value))
                           && IsMerged(old(entries), entries, kernel.value, dst + ["kernel"]))
      ensures kernel.Some? && kernel.value.File? ==>
                !ok && (FileInTheWay(old(entries), dst + ["kernel"])
                        || WithWay(old(entries), entries, dst + ["kernel"]))
    {
      if kernel.None? {
        return true, 0;
      }
      match kernel.value
      case Dir(_) =>
        ok, total := CopyDir(kernel.value, dst + ["kernel"], 0, "kernel");
      case File(_) =>
        var made := MakeDirs(dst + ["kernel"]);
        ok, total := false, 0;
    }
  }

  lemma WayToChild(made: Entries, now: Entries, src: Node, at: Path, done: set<Name>, c: Name)
    requires forall q :: OnTheWay(q, at) ==> At(made, q) == Some(IsDir)
    requires CopiedSome(made, now, src, at, done)
    ensures WayMade(now, at + [c])
  {
    forall q | OnTheWay(q, at + [c]) && q != at + [c] ensures At(now, q) == Some(IsDir) {
      assert q == (at + [c])[..|q|];
      assert OnTheWay(q, at);
      assert !(at < q);
    }
  }

  lemma ClashesWithWayMade(fs: Entries, src: Node, at: Path)
    requires src.Dir? && WayMade(fs, at)
    ensures Conflict(fs, src, at) <==> Clashes(fs, src, at)
    ensures forall q :: !FileInTheWay(fs, at) ==> Merged(fs, src, at, q) == Placed(fs, src, at, q)
  {
    assert at + [] == at && OnTheWay(at, at);
    assert Clash(At(fs, at + []), Lookup(src, [])) <==> Clash(At(fs, at), Some(IsDir));
    forall q | OnTheWay(q, at) ensures Placed(fs, src, at, q) == Some(IsDir) {
      if q == at {
        assert q[|at|..] == [];
      }
    }
  }

  lemma AllCopied(was: Entries, made: Entries, now: Entries, src: Node, at: Path)
    requires src.Dir? && At(was, []) == Some(IsDir)
    requires WithWay(was, made, at) && CopiedSome(made, now, src, at, src.entries.Keys)
    ensures IsMerged(was, now, src, at)
  {
    forall q ensures At(now, q) == Merged(was, src, at, q) {
      if at == q {
        assert q[|at|..] == [];
      } else if at <= q {
        assert q[|at|..][0] == q[|at|];
      }
    }
  }

  // ----- consequences -----

  /** A file where the source has a directory, or a directory where it has a file. */
  ghost predicate Differs(fs: Entries, src: Node, at: Path, p: Path) {
    && Lookup(src, p).Some? && at + p in fs
    && ((Lookup(src, p).value.IsDir? && fs[at + p].IsFile?) || (Lookup(src, p).value.IsFile? && fs[at + p].IsDir?))
  }

  ghost predicate FileOnTheWay(fs: Entries, at: Path, q: Path) {
    OnTheWay(q, at) && q in fs && fs[q].IsFile?
  }

  /** A conflict is a file on the way, or an entry of the other kind at the place of one of the source. */
  lemma ConflictIff(fs: Entries, src: Node, at: Path)
    ensures Conflict(fs, src, at) <==>
              (exists q :: FileOnTheWay(fs, at, q)) || (exists p :: Differs(fs, src, at, p))
  {
    forall p: Path ensures Clash(At(fs, at + p), Lookup(src, p)) <==> Differs(fs, src, at, p) {
    }
    forall q: Path ensures OnTheWay(q, at) && Clash(At(fs, q), Some(IsDir)) <==> FileOnTheWay(fs, at, q) {
    }
    if Clashes(fs, src, at) {
      var p :| Clash(At(fs, at + p), Lookup(src, p));
      assert Differs(fs, src, at, p);
    }
    if FileInTheWay(fs, at) {
      var q :| OnTheWay(q, at) && Clash(At(fs, q), Some(IsDir));
      assert FileOnTheWay(fs, at, q);
    }
  }

  /** Every source file arrives with its content, and what the source does not name stays. */
  lemma CopyIsExact(was: Entries, now: Entries, src: Node, at: Path)
    requires src.Dir? && IsMerged(was, now, src, at)
    ensures forall p, content :: Lookup(src, p) == Some(IsFile(content)) ==> At(now, at + p) == Some(IsFile(content))
    ensures forall q :: !OnTheWay(q, at) && (at <= q ==> Lookup(src, q[|at|..]).None?) ==> At(now, q) == At(was, q)
  {
    forall p, content | Lookup(src, p) == Some(IsFile(content)) ensures At(now, at + p) == Some(IsFile(content)) {
      assert (at + p)[|at|..] == p;
      assert p != [];
    }
  }

  /** Copying again meets no conflict and changes nothing. */
  lemma CopyTwice(was: Entries, now: Entries, again: Entries, src: Node, at: Path)
    requires src.Dir? && IsMerged(was, now, src, at)
    ensures !Conflict(now, src, at)
    ensures IsMerged(now, again, src, at) ==> again == now
  {
    forall p: Path | Lookup(src, p).Some? ensures !Clash(At(now, at + p), Lookup(src, p)) {
      assert (at + p)[|at|..] == p;
      if p == [] {
        assert at + p == at;
      }
    }
    if IsMerged(now, again, src, at) {
      forall q ensures At(again, q) == At(now, q) {
      }
      SameEverywhere(now, again);
    }
  }

  lemma SameEverywhere(a: Entries, b: Entries)
    requires forall q :: At(a, q) == At(b, q)
    ensures a == b
  {
    forall q ensures q in a <==> q in b {
      assert At(a, q) == At(b, q);
    }
    forall q | q in a ensures a[q] == b[q] {
      assert At(a, q) == At(b, q);
    }
  }
}
