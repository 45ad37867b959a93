/** The rewrite of the shadow file that empties the root password, and the removal of SSH host keys. */
module Shadow {
  import opened Text

  /** `splitn(n, ':')`: the last piece keeps the separators that are left. */
  function SplitN(s: string, n: nat): (pieces: seq<string>)
    requires n >= 1
    ensures 1 <= |pieces| <= n
    decreases |s|
  {
    if n == 1 || s == "" then [s]
    else if s[0] == ':' then [""] + SplitN(s[1..], n - 1)
    else
      var rest := SplitN(s[1..], n);
      [[s[0]] + rest[0]] + rest[1..]
  }

  function RewriteLine(line: string): string {
    if StartsWith(line, "root:") then
      var parts := SplitN(line, 3);
      if |parts| >= 3 then "root::" + parts[2] else line
    else line
  }

  function RewriteLines(lines: seq<string>): (r: seq<string>)
    ensures |r| == |lines| && forall i :: 0 <= i < |r| ==> r[i] == RewriteLine(lines[i])
  {
    if lines == [] then [] else [RewriteLine(lines[0])] + RewriteLines(lines[1..])
  }

  function Rewrite(content: string): string {
    Join(RewriteLines(Lines(content)), "\n") + "\n"
  }

  // ----- one line, seen as the colon-separated record it is -----

  function Fields(line: string): seq<string> {
    Split(line, ':')
  }

  /** The first n - 1 fields, and all the others joined again. */
  function Folded(f: seq<string>, n: nat): seq<string>
    requires n >= 1
  {
    if |f| <= n then f else f[..n - 1] + [Join(f[n - 1..], ":")]
  }

  lemma FoldedCons(p: string, f: seq<string>, n: nat)
    requires n >= 2
    ensures Folded([p] + f, n) == [p] + Folded(f, n - 1)
  {
    var g := [p] + f;
    if |g| > n {
      assert g[..n - 1] == [p] + f[..n - 2] && g[n - 1..] == f[n - 2..];
    }
  }

  lemma FoldedFirst(f: seq<string>, p: string, n: nat)
    requires n >= 2 && f != []
    ensures Folded([p] + f[1..], n) == [p] + Folded(f, n)[1..] && Folded(f, n)[0] == f[0]
  {
    assert f == [f[0]] + f[1..];
    FoldedCons(f[0], f[1..], n);
    FoldedCons(p, f[1..], n);
  }

  /** Splitting at most n times stops early. */
  lemma {:induction false} SplitNFields(s: string, n: nat)
    requires n >= 1
    ensures SplitN(s, n) == Folded(Fields(s), n)
    decreases |s|
  {
    if n == 1 {
      JoinSplit(s, ':');
    } else if s != "" {
      var g := Fields(s[1..]);
      if s[0] == ':' {
        SplitNFields(s[1..], n - 1);
        FoldedCons("", g, n);
      } else {
        SplitNFields(s[1..], n);
        FoldedFirst(g, [s[0]] + g[0], n);
      }
    }
  }

  /** The parts of a record of three or more fields. */
  lemma Record(line: string) returns (rest: string)
    requires |Fields(line)| >= 3
    ensures |SplitN(line, 3)| == 3 && SplitN(line, 3)[2] == rest && Fields(rest) == Fields(line)[2..]
    ensures line == Fields(line)[0] + ":" + (Fields(line)[1] + ":" + rest)
  {
    var f := Fields(line);
    SplitNFields(line, 3);
    rest := Join(f[2..], ":");
    PiecesAreFree(line, ':');
    SplitJoin(f[2..], ':');
    JoinSplit(line, ':');
    assert f[1..][1..] == f[2..];
    if |f| == 3 {
      assert f[2..] == [f[2]];
    }
  }

  lemma ShortRecord(line: string)
    ensures |SplitN(line, 3)| >= 3 <==> |Fields(line)| >= 3
  {
    SplitNFields(line, 3);
  }

  lemma FieldsOfRoot(rest: string)
    ensures Fields("root::" + rest) == ["root", ""] + Fields(rest)
  {
    assert "root::" + rest == "root" + [':'] + ("" + [':'] + rest);
    SplitCons("root", ':', "" + [':'] + rest);
    SplitCons("", ':', rest);
  }

  lemma RootIsFirst(line: string)
    requires StartsWith(line, "root:")
    ensures Fields(line)[0] == "root"
  {
    var rest := line[5..];
    assert line == "root" + [':'] + rest;
    SplitCons("root", ':', rest);
  }

  /** A root record of three or more fields loses its second field and nothing else; other lines are kept. */
  lemma RewriteLineSpec(line: string)
    ensures StartsWith(line, "root:") && |Fields(line)| >= 3 ==>
              Fields(RewriteLine(line)) == Fields(line)[1 := ""]
    ensures !(StartsWith(line, "root:") && |Fields(line)| >= 3) ==> RewriteLine(line) == line
  {
    ShortRecord(line);
    if StartsWith(line, "root:") {
      if |Fields(line)| >= 3 {
        RootIsFirst(line);
        var rest := Record(line);
        FieldsOfRoot(rest);
        var f := Fields(line);
        assert f[1 := ""] == ["root", ""] + f[2..];
      }
    }
  }

  /** Records with the same fields are the same line. */
  lemma SameFields(a: string, b: string)
    requires Fields(a) == Fields(b)
    ensures a == b
  {
    JoinSplit(a, ':');
    JoinSplit(b, ':');
  }

  lemma RewriteLineTwice(line: string)
    ensures RewriteLine(RewriteLine(line)) == RewriteLine(line)
  {
    RewriteLineSpec(line);
    var once := RewriteLine(line);
    if once != line {
      RewriteLineSpec(once);
      assert StartsWith(once, "root:") by {
        assert once[..5] == "root:";
      }
      assert Fields(once)[1 := ""] == Fields(once);
      SameFields(RewriteLine(once), once);
    }
  }

  /** Rewriting never lengthens a line, nor does it add or drop a carriage return at its end. */
  lemma RewriteLineShape(line: string)
    requires '\n' !in line
    ensures '\n' !in RewriteLine(line)
    ensures |RewriteLine(line)| <= |line|
    ensures EndsInCr(RewriteLine(line)) <==> EndsInCr(line)
  {
    ShortRecord(line);
    if StartsWith(line, "root:") && |Fields(line)| >= 3 {
      var rest := Record(line);
      RootIsFirst(line);
      var front := Fields(line)[0] + ":" + Fields(line)[1] + ":";
      assert line == front + rest;
      SameEnd(front, "root::", rest);
    }
  }

  lemma SameEnd(a: string, b: string, tail: string)
    requires a != "" && b != "" && a[|a| - 1] == b[|b| - 1] == ':'
    ensures EndsInCr(a + tail) <==> EndsInCr(b + tail)
  {
    if tail == "" {
      assert a + tail == a && b + tail == b;
    } else {
      var end := tail[|tail| - 1];
      assert (a + tail)[|a + tail| - 1] == end && (b + tail)[|b + tail| - 1] == end;
    }
  }

  // ----- the whole file -----

  /** No line is left ending in a carriage return once its line ending is taken off. */
  predicate CrFree(content: string) {
    forall l :: l in Lines(content) ==> !EndsInCr(l)
  }

  lemma RewriteIsUnlines(content: string)
    requires content != ""
    ensures Rewrite(content) == Unlines(RewriteLines(Lines(content)))
    ensures Lines(Rewrite(content)) == StripAll(RewriteLines(Lines(content)))
  {
    var ls := RewriteLines(Lines(content));
    UnlinesIsJoin(ls);
    forall l | l in ls ensures '\n' !in l {
      var i :| 0 <= i < |ls| && ls[i] == l;
      assert Lines(content)[i] in Lines(content);
      RewriteLineShape(Lines(content)[i]);
    }
    LinesUnlines(ls);
  }

  /**
   * Line by line: order and count are kept, root records lose their password, the rest is untouched; that is
   * what is written, for any content. Read again, a line written with a carriage return at its end loses that.
   */
  lemma RewriteSpec(content: string)
    ensures content == "" ==> Rewrite(content) == "\n"
    ensures var before, written := Lines(content), RewriteLines(Lines(content));
            && |written| == |before|
            && (forall i :: 0 <= i < |before| ==>
                  if StartsWith(before[i], "root:") && |Fields(before[i])| >= 3
                  then Fields(written[i]) == Fields(before[i])[1 := ""]
                  else written[i] == before[i])
            && (content != "" ==> Rewrite(content) == Unlines(written) && Lines(Rewrite(content)) == StripAll(written))
            && (CrFree(content) ==> StripAll(written) == written)
  {
    if content == "" {
      RewriteOfEmpty();
    } else {
      RewriteIsUnlines(content);
    }
    var before := Lines(content);
    forall i | 0 <= i < |before|
      ensures if StartsWith(before[i], "root:") && |Fields(before[i])| >= 3
              then Fields(RewriteLine(before[i])) == Fields(before[i])[1 := ""]
              else RewriteLine(before[i]) == before[i]
    {
      RewriteLineSpec(before[i]);
    }
    if CrFree(content) {
      forall i | 0 <= i < |before| ensures !EndsInCr(RewriteLine(before[i])) {
        assert before[i] in before;
        RewriteLineShape(before[i]);
      }
      NothingToStrip(RewriteLines(before));
    }
  }

  /** Without a root record the rewrite only adds a missing final newline. */
  lemma NoRootLine(content: string)
    requires content != "" && '\r' !in content
    requires forall l :: l in Lines(content) ==> !StartsWith(l, "root:")
    ensures Rewrite(content) == Terminated(content)
  {
    RewriteIsUnlines(content);
    var ls := Lines(content);
    assert forall i :: 0 <= i < |ls| ==> ls[i] in ls;
    assert RewriteLines(ls) == ls;
    UnlinesLines(content);
  }

  lemma {:induction false} CrLengths(lines: seq<string>)
    requires forall i :: 0 <= i < |lines| ==> '\n' !in lines[i]
    ensures |Unlines(RewriteLines(StripAll(lines)))| <= |Unlines(lines)|
    ensures (exists i :: 0 <= i < |lines| && EndsInCr(lines[i])) ==>
              |Unlines(RewriteLines(StripAll(lines)))| < |Unlines(lines)|
  {
    if lines != [] {
      CrLengths(lines[1..]);
      var l := StripCr(lines[0]);
      RewriteLineShape(l);
      assert StripAll(lines)[1..] == StripAll(lines[1..]);
      assert RewriteLines(StripAll(lines))[1..] == RewriteLines(StripAll(lines[1..]));
      assert RewriteLines(StripAll(lines))[0] == RewriteLine(l);
      assert forall i :: 1 <= i < |lines| ==> lines[i] == lines[1..][i - 1];
    }
  }

  lemma RewriteTwice(content: string)
    requires content != ""
    ensures Rewrite(Rewrite(content)) == Unlines(RewriteLines(StripAll(RewriteLines(Lines(content)))))
  {
    RewriteIsUnlines(content);
    RewriteIsUnlines(Rewrite(content));
  }

  lemma RewriteLinesTwice(lines: seq<string>)
    ensures RewriteLines(RewriteLines(lines)) == RewriteLines(lines)
  {
    forall i | 0 <= i < |lines| ensures RewriteLine(RewriteLines(lines)[i]) == RewriteLines(lines)[i] {
      RewriteLineTwice(lines[i]);
    }
  }

  lemma NothingToStrip(lines: seq<string>)
    requires forall i :: 0 <= i < |lines| ==> !EndsInCr(lines[i])
    ensures StripAll(lines) == lines
  {
  }

  lemma RewriteOfEmpty()
    ensures Rewrite("") == "\n" && Rewrite("\n") == "\n"
  {
    LinesCons("", "");
    assert "" + "\n" + "" == "\n";
    assert Lines("\n") == [""] && RewriteLines([""]) == [""];
  }

  /** Rewriting twice is rewriting once, exactly when no line ends in a stray carriage return. */
  lemma IdempotentIff(content: string)
    ensures Rewrite(Rewrite(content)) == Rewrite(content) <==> CrFree(content)
  {
    if content == "" {
      RewriteOfEmpty();
    } else {
      var once := RewriteLines(Lines(content));
      RewriteIsUnlines(content);
      RewriteTwice(content);
      OnceShape(content);
      if CrFree(content) {
        NothingToStrip(once);
        RewriteLinesTwice(Lines(content));
      } else {
        CrLengths(once);
      }
    }
  }

  lemma OnceShape(content: string)
    ensures var once := RewriteLines(Lines(content));
            && (forall i :: 0 <= i < |once| ==> '\n' !in once[i])
            && (CrFree(content) <==> forall i :: 0 <= i < |once| ==> !EndsInCr(once[i]))
  {
    var ls := Lines(content);
    forall i | 0 <= i < |ls|
      ensures '\n' !in RewriteLine(ls[i]) && (EndsInCr(RewriteLine(ls[i])) <==> EndsInCr(ls[i]))
    {
      assert ls[i] in ls;
      RewriteLineShape(ls[i]);
    }
  }

  // ----- the image being configured -----

  class EtcDirectory {
    var shadow: Option<string>

    constructor (shadow: Option<string>)
      ensures this.shadow == shadow
    {
      this.shadow := shadow;
    }

    /** Fails without a shadow file; otherwise replaces it by its rewrite. */
    method SetEmptyRootPassword() returns (ok: bool)
      modifies this
      ensures ok <==> old(shadow).Some?
      ensures shadow == if ok then Some(Rewrite(old(shadow).value)) else None
    {
      if shadow.None? {
        return false;
      }
      var lines := Lines(shadow.value);
      var newLines := EmptyRootPasswords(lines);
      shadow := Some(Join(newLines, "\n") + "\n");
      return true;
    }

    method EmptyRootPasswords(lines: seq<string>) returns (newLines: seq<string>)
      ensures newLines == RewriteLines(lines)
    {
      newLines := [];
      ghost var rewritten := RewriteLines(lines);
      for i := 0 to |lines|
        invariant newLines == rewritten[..i]
      {
        var newLine := EmptyRootPassword(lines[i]);
        newLines := newLines + [newLine];
      }
    }

    method EmptyRootPassword(line: string) returns (newLine: string)
      ensures newLine == RewriteLine(line)
    {
      newLine := line;
      if StartsWith(line, "root:") {
        var parts := SplitN(line, 3);
        if |parts| >= 3 {
          newLine := "root::" + parts[2];
        }
      }
    }
  }
}
