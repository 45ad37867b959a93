/** Strings as the Rust and Rhai code uses them: splitting, joining, lines, trimming, suffixes. */
module Text {

  datatype Option<+T> = None | Some(value: T)

  predicate StartsWith(s: string, prefix: string) {
    prefix <= s
  }

  predicate EndsWith(s: string, suffix: string) {
    |suffix| <= |s| && s[|s| - |suffix|..] == suffix
  }

  predicate OccursAt(haystack: string, needle: string, i: nat) {
    i + |needle| <= |haystack| && haystack[i..i + |needle|] == needle
  }

  /** `haystack.contains(needle)`. */
  predicate Contains(haystack: string, needle: string) {
    exists i: nat | i <= |haystack| :: OccursAt(haystack, needle, i)
  }

  /** That is: the needle stands somewhere in the haystack. */
  lemma ContainsIff(haystack: string, needle: string)
    ensures Contains(haystack, needle) <==> exists before, after :: haystack == before + needle + after
  {
    if Contains(haystack, needle) {
      var i: nat :| i <= |haystack| && OccursAt(haystack, needle, i);
      assert haystack == haystack[..i] + needle + haystack[i + |needle|..];
    }
    forall before, after | haystack == before + needle + after ensures Contains(haystack, needle) {
      assert haystack[|before|..|before| + |needle|] == needle;
      assert OccursAt(haystack, needle, |before|);
    }
  }

  predicate IsWhitespace(c: char) {
    c in {' ', '\t', '\n', '\r'}
  }

  function TrimStart(s: string): string {
    if s != "" && IsWhitespace(s[0]) then TrimStart(s[1..]) else s
  }

  function TrimEnd(s: string): string {
    if s != "" && IsWhitespace(s[|s| - 1]) then TrimEnd(s[..|s| - 1]) else s
  }

  function Trim(s: string): string {
    TrimEnd(TrimStart(s))
  }

  /** `s.split(c)`: always at least one piece, pieces never contain the separator. */
  function Split(s: string, c: char): (pieces: seq<string>)
    ensures |pieces| >= 1
  {
    if s == "" then [""]
    else
      var rest := Split(s[1..], c);
      if s[0] == c then [""] + rest else [[s[0]] + rest[0]] + rest[1..]
  }

  lemma {:induction false} PiecesAreFree(s: string, c: char)
    ensures forall p :: p in Split(s, c) ==> c !in p
  {
    if s != "" {
      PiecesAreFree(s[1..], c);
    }
  }

  function Join(pieces: seq<string>, sep: string): string {
    if |pieces| == 0 then ""
    else if |pieces| == 1 then pieces[0]
    else pieces[0] + sep + Join(pieces[1..], sep)
  }

  /** Prefixing a separator-free piece to a text. */
  lemma {:induction false} SplitCons(p: string, c: char, rest: string)
    requires c !in p
    ensures Split(p + [c] + rest, c) == [p] + Split(rest, c)
  {
    if p == "" {
      assert p + [c] + rest == [c] + rest;
    } else {
      assert p == [p[0]] + p[1..];
      SplitCons(p[1..], c, rest);
      assert (p + [c] + rest)[1..] == p[1..] + [c] + rest;
    }
  }

  lemma {:induction false} SplitFree(p: string, c: char)
    requires c !in p
    ensures Split(p, c) == [p]
  {
    if p != "" {
      assert p == [p[0]] + p[1..];
      SplitFree(p[1..], c);
    }
  }

  /** Joining and splitting undo each other. */
  lemma {:induction false} SplitJoin(pieces: seq<string>, c: char)
    requires |pieces| >= 1 && forall p :: p in pieces ==> c !in p
    ensures Split(Join(pieces, [c]), c) == pieces
  {
    if |pieces| == 1 {
      SplitFree(pieces[0], c);
    } else {
      SplitJoin(pieces[1..], c);
      SplitCons(pieces[0], c, Join(pieces[1..], [c]));
    }
  }

  lemma {:induction false} JoinSplit(s: string, c: char)
    ensures Join(Split(s, c), [c]) == s
  {
    if s != "" {
      JoinSplit(s[1..], c);
      var rest := Split(s[1..], c);
      assert s == [s[0]] + s[1..];
      if s[0] == c {
        assert Split(s, c)[1..] == rest;
      } else if |rest| > 1 {
        assert Split(s, c)[1..] == rest[1..];
      }
    }
  }

  /** Every line followed by a newline. */
  function Unlines(lines: seq<string>): string {
    if lines == [] then "" else lines[0] + "\n" + Unlines(lines[1..])
  }

  lemma {:induction false} UnlinesIsJoin(lines: seq<string>)
    requires lines != []
    ensures Join(lines, "\n") + "\n" == Unlines(lines)
  {
    if |lines| > 1 {
      UnlinesIsJoin(lines[1..]);
    } else {
      assert lines[1..] == [];
      assert lines[0] + "\n" + "" == lines[0] + "\n";
    }
  }

  lemma {:induction false} UnlinesAppend(lines: seq<string>, line: string)
    ensures Unlines(lines + [line]) == Unlines(lines) + line + "\n"
  {
    if lines == [] {
      assert [line][1..] == [];
    } else {
      UnlinesAppend(lines[1..], line);
      assert (lines + [line])[1..] == lines[1..] + [line];
    }
  }

  predicate EndsInCr(s: string) {
    s != "" && s[|s| - 1] == '\r'
  }

  function StripCr(s: string): string {
    if EndsInCr(s) then s[..|s| - 1] else s
  }

  function IndexOf(s: string, c: char): (i: nat)
    requires c in s
    ensures i < |s| && s[i] == c && c !in s[..i]
  {
    if s[0] == c then 0 else 1 + IndexOf(s[1..], c)
  }

  /** `s.lines()`: a line ends at LF or CR LF; a last line without LF keeps a final CR. */
  function Lines(s: string): (lines: seq<string>)
    ensures forall l :: l in lines ==> '\n' !in l
    ensures lines == [] <==> s == ""
    decreases |s|
  {
    if s == "" then []
    else if '\n' in s then
      var i := IndexOf(s, '\n');
      [StripCr(s[..i])] + Lines(s[i + 1..])
    else [s]
  }

  lemma {:induction false} IndexIs(s: string, c: char, i: nat)
    requires i < |s| && s[i] == c && c !in s[..i]
    ensures IndexOf(s, c) == i
  {
    if i > 0 {
      assert s[..i][0] == s[0];
      assert s[1..][..i - 1] == s[..i][1..];
      IndexIs(s[1..], c, i - 1);
    }
  }

  lemma LinesCons(line: string, rest: string)
    requires '\n' !in line
    ensures Lines(line + "\n" + rest) == [StripCr(line)] + Lines(rest)
  {
    var s := line + "\n" + rest;
    assert s[..|line|] == line && s[|line|] == '\n' && s[|line| + 1..] == rest;
    IndexIs(s, '\n', |line|);
  }

  /** A line may end in CR LF as well. */
  lemma LinesCrLf(line: string, rest: string)
    requires '\n' !in line
    ensures EndsInCr(line + "\r") && StripCr(line + "\r") == line
    ensures Lines(line + "\r\n" + rest) == [line] + Lines(rest)
  {
    assert line + "\r\n" + rest == (line + "\r") + "\n" + rest;
    assert (line + "\r")[..|line|] == line;
    LinesCons(line + "\r", rest);
  }

  function StripAll(lines: seq<string>): (r: seq<string>)
    ensures |r| == |lines| && forall i :: 0 <= i < |r| ==> r[i] == StripCr(lines[i])
  {
    if lines == [] then [] else [StripCr(lines[0])] + StripAll(lines[1..])
  }

  /** Reading back printed lines gives them without their final carriage returns. */
  lemma {:induction false} LinesUnlines(lines: seq<string>)
    requires forall l :: l in lines ==> '\n' !in l
    ensures Lines(Unlines(lines)) == StripAll(lines)
  {
    if lines != [] {
      LinesUnlines(lines[1..]);
      LinesCons(lines[0], Unlines(lines[1..]));
    }
  }

  predicate EndsInNewline(s: string) {
    s != "" && s[|s| - 1] == '\n'
  }

  /** The text with its missing final newline added. */
  function Terminated(s: string): string {
    if s == "" || EndsInNewline(s) then s else s + "\n"
  }

  lemma TerminatedCons(line: string, rest: string)
    ensures Terminated(line + "\n" + rest) == line + "\n" + Terminated(rest)
  {
    var s := line + "\n" + rest;
    if rest == "" {
      assert s[|s| - 1] == '\n';
    } else {
      assert s[|s| - 1] == rest[|rest| - 1];
      assert s + "\n" == line + "\n" + (rest + "\n");
    }
  }

  /** Printing the lines of a CR-free text gives it back, with a final newline. */
  lemma {:induction false} UnlinesLines(s: string)
    requires '\r' !in s
    ensures Unlines(Lines(s)) == Terminated(s)
    decreases |s|
  {
    if '\n' in s {
      var i := IndexOf(s, '\n');
      var line, rest := s[..i], s[i + 1..];
      assert s == line + "\n" + rest;
      UnlinesLines(rest);
      UnlinesLinesCons(line, rest);
    } else if s != "" {
      assert [s][1..] == [];
      assert Lines(s) == [s];
      assert Unlines([s]) == s + "\n" + "";
    }
  }

  lemma UnlinesLinesCons(line: string, rest: string)
    requires '\n' !in line && '\r' !in line
    requires Unlines(Lines(rest)) == Terminated(rest)
    ensures Unlines(Lines(line + "\n" + rest)) == Terminated(line + "\n" + rest)
  {
    LinesCons(line, rest);
    TerminatedCons(line, rest);
    assert !EndsInCr(line);
    assert ([line] + Lines(rest))[1..] == Lines(rest);
    assert Unlines([line] + Lines(rest)) == line + "\n" + Unlines(Lines(rest));
  }

  lemma {:induction false} TrimStartEnds(s: string)
    ensures TrimStart(s) != "" ==> !IsWhitespace(TrimStart(s)[0])
  {
    if s != "" && IsWhitespace(s[0]) {
      TrimStartEnds(s[1..]);
    }
  }

  lemma {:induction false} TrimEndEnds(s: string)
    ensures TrimEnd(s) <= s
    ensures TrimEnd(s) != "" ==> !IsWhitespace(TrimEnd(s)[|TrimEnd(s)| - 1])
  {
    if s != "" && IsWhitespace(s[|s| - 1]) {
      TrimEndEnds(s[..|s| - 1]);
    }
  }

  /** A trimmed text neither begins nor ends with whitespace. */
  lemma TrimEnds(s: string)
    requires Trim(s) != ""
    ensures Trim(s)[0] !in {' ', '\t', '\n', '\r'} && Trim(s)[|Trim(s)| - 1] !in {' ', '\t', '\n', '\r'}
  {
    TrimStartEnds(s);
    TrimEndEnds(TrimStart(s));
  }

  ghost predicate Blank(s: string) {
    forall c :: c in s ==> c in {' ', '\t', '\n', '\r'}
  }

  /** And nothing but whitespace is trimmed off. */
  lemma {:induction false} TrimStartOnly(s: string) returns (before: string)
    ensures s == before + TrimStart(s) && Blank(before)
  {
    before := "";
    if s != "" && IsWhitespace(s[0]) {
      var more := TrimStartOnly(s[1..]);
      before := [s[0]] + more;
    }
  }

  lemma {:induction false} TrimEndOnly(s: string) returns (after: string)
    ensures s == TrimEnd(s) + after && Blank(after)
  {
    after := "";
    if s != "" && IsWhitespace(s[|s| - 1]) {
      var more := TrimEndOnly(s[..|s| - 1]);
      after := more + [s[|s| - 1]];
    }
  }

  lemma TrimOnly(s: string) returns (before: string, after: string)
    ensures s == before + Trim(s) + after && Blank(before) && Blank(after)
  {
    before := TrimStartOnly(s);
    after := TrimEndOnly(TrimStart(s));
  }

  /** The first piece keeps the beginning of a text that is not a separator. */
  lemma SplitFirst(s: string, c: char)
    requires s != "" && s[0] != c
    ensures Split(s, c)[0] != "" && Split(s, c)[0][0] == s[0]
  {
  }

  /** The last piece keeps the end of a text that is not a separator. */
  lemma {:induction false} SplitLast(s: string, c: char)
    requires s != "" && s[|s| - 1] != c
    ensures var ps := Split(s, c);
            var last := ps[|ps| - 1];
            last != "" && last[|last| - 1] == s[|s| - 1]
  {
    if |s| == 1 {
      assert s[1..] == "";
      assert Split(s, c) == [[s[0]] + ""];
    } else {
      SplitLast(s[1..], c);
      var rest := Split(s[1..], c);
      var last := rest[|rest| - 1];
      if s[0] == c {
        assert Split(s, c) == [""] + rest;
      } else {
        assert Split(s, c) == [[s[0]] + rest[0]] + rest[1..];
      }
    }
  }
}
