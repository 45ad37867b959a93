/** The headless boot test: a loop over serial output lines, with two deadlines and ordered pattern checks. */
module BootWatcher {
  import opened Text

  const SUCCESS_PATTERNS: seq<string> := [
    "login:",
    "Welcome to LevitateOS",
    "Startup finished",
    "systemd[1]: Reached target",
    "systemd[1]: Started Getty"
  ]

  const FAILURE_PATTERNS: seq<string> := [
    "Kernel panic",
    "not syncing",
    "VFS: Cannot open root device",
    "No init found",
    "can't find /init",
    "EROFS error",
    "failed to mount",
    "emergency.target",
    "No bootable device",
    "Boot Failed"
  ]

  const SECOND: nat := 1_000_000_000

  const STALL_TIMEOUT: nat := 30 * SECOND

  /** What `recv_timeout` returns. */
  datatype Event = Line(text: string) | Silence | Hangup

  /** One turn of the loop: the clock (ns since the start) at both deadline checks and after receiving. */
  datatype Tick = Tick(atTimeout: nat, atStall: nat, event: Event, atRecv: nat)

  datatype Stage = NoOutput | Uefi | Kernel | Init

  datatype Outcome =
    | Watching
    | Success(pattern: string)
    | BootFailed(pattern: string, context: seq<string>)
    | TimedOut(tail: seq<string>)
    | Stalled(stage: Stage)
    | Exited(tail: seq<string>)

  /** What the watcher is told: both pattern lists, the timeout, and the first reading of `last_output`. */
  datatype Setup = Setup(success: seq<string>, failure: seq<string>, timeout: nat, begun: nat)

  // ----- reference notions, in terms of the whole trace -----

  predicate Matches(line: string, patterns: seq<string>) {
    exists p | p in patterns :: Contains(line, p)
  }

  /** The pattern is the first of the list that the line contains. */
  ghost predicate IsFirstMatch(line: string, patterns: seq<string>, p: string) {
    exists i :: 0 <= i < |patterns| && patterns[i] == p && Contains(line, p)
                && forall j :: 0 <= j < i ==> !Contains(line, patterns[j])
  }

  lemma LaterMatch(line: string, patterns: seq<string>, p: string)
    requires patterns != [] && !Contains(line, patterns[0]) && IsFirstMatch(line, patterns[1..], p)
    ensures IsFirstMatch(line, patterns, p)
  {
    var rest := patterns[1..];
    var i :| 0 <= i < |rest| && rest[i] == p && Contains(line, p)
             && forall j :: 0 <= j < i ==> !Contains(line, rest[j]);
    assert patterns[i + 1] == p;
    forall j | 0 <= j < i + 1 ensures !Contains(line, patterns[j]) {
      if j > 0 {
        assert rest[j - 1] == patterns[j];
      }
    }
  }

  function FirstMatch(line: string, patterns: seq<string>): (r: Option<string>)
    ensures r.Some? <==> Matches(line, patterns)
  {
    if patterns == [] then None
    else if Contains(line, patterns[0]) then Some(patterns[0])
    else FirstMatch(line, patterns[1..])
  }

  lemma {:induction false} FirstMatchIs(line: string, patterns: seq<string>)
    requires FirstMatch(line, patterns).Some?
    ensures IsFirstMatch(line, patterns, FirstMatch(line, patterns).value)
  {
    if Contains(line, patterns[0]) {
      assert patterns[0] == FirstMatch(line, patterns).value;
    } else {
      FirstMatchIs(line, patterns[1..]);
      LaterMatch(line, patterns, FirstMatch(line, patterns).value);
    }
  }

  /** The lines received in the first turns. */
  function Received(ticks: seq<Tick>): seq<string> {
    if ticks == [] then []
    else
      var before, last := Received(ticks[..|ticks| - 1]), ticks[|ticks| - 1].event;
      if last.Line? then before + [last.text] else before
  }

  /** The clock when the latest line came in. */
  function LastOutput(begun: nat, ticks: seq<Tick>): nat {
    if ticks == [] then begun
    else if ticks[|ticks| - 1].event.Line? then ticks[|ticks| - 1].atRecv
    else LastOutput(begun, ticks[..|ticks| - 1])
  }

  function Tail(lines: seq<string>, n: nat): seq<string> {
    if |lines| <= n then lines else lines[|lines| - n..]
  }

  predicate MeansUefi(line: string) {
    Contains(line, "UEFI") || Contains(line, "EFI") || Contains(line, "BdsDxe")
  }

  predicate MeansKernel(line: string) {
    Contains(line, "Linux version") || Contains(line, "Booting Linux")
  }

  predicate MeansInit(line: string) {
    Contains(line, "systemd") || Contains(line, "init")
  }

  /** The latest stage of which any line gave a sign. */
  function StageOf(lines: seq<string>): Stage {
    if exists l | l in lines :: MeansInit(l) then Init
    else if exists l | l in lines :: MeansKernel(l) then Kernel
    else if exists l | l in lines :: MeansUefi(l) then Uefi
    else NoOutput
  }

  /** How turn i ends when the watch gets that far. */
  function Verdict(w: Setup, ticks: seq<Tick>, i: nat): Outcome
    requires i < |ticks|
  {
    var t, lines := ticks[i], Received(ticks[..i]);
    if t.atTimeout > w.timeout then TimedOut(Tail(lines, 20))
    else if t.atStall - LastOutput(w.begun, ticks[..i]) > STALL_TIMEOUT then Stalled(StageOf(lines))
    else
      match t.event
      case Silence => Watching
      case Hangup => Exited(Tail(lines, 20))
      case Line(text) =>
        if Matches(text, w.failure) then BootFailed(FirstMatch(text, w.failure).value, Tail(lines + [text], 30))
        else if Matches(text, w.success) then Success(FirstMatch(text, w.success).value)
        else Watching
  }

  /** The watch goes on through the first n turns. */
  ghost predicate Survives(w: Setup, ticks: seq<Tick>, n: nat)
    requires n <= |ticks|
  {
    forall i :: 0 <= i < n ==> Verdict(w, ticks, i).Watching?
  }

  /** The watch of a trace ends with r. */
  ghost predicate EndsWithOutcome(w: Setup, ticks: seq<Tick>, r: Outcome) {
    if r.Watching? then Survives(w, ticks, |ticks|)
    else exists i: nat :: i < |ticks| && Survives(w, ticks, i) && Verdict(w, ticks, i) == r
  }

  // ----- what the notions mean -----

  ghost predicate SomeContains(lines: seq<string>, signs: seq<string>) {
    exists l, sign :: l in lines && sign in signs && Contains(l, sign)
  }

  lemma SignsOf(lines: seq<string>)
    ensures (exists l :: l in lines && MeansInit(l)) <==> SomeContains(lines, ["systemd", "init"])
    ensures (exists l :: l in lines && MeansKernel(l)) <==> SomeContains(lines, ["Linux version", "Booting Linux"])
    ensures (exists l :: l in lines && MeansUefi(l)) <==> SomeContains(lines, ["UEFI", "EFI", "BdsDxe"])
  {
    var a, b, c := ["systemd", "init"], ["Linux version", "Booting Linux"], ["UEFI", "EFI", "BdsDxe"];
    assert a[0] in a && a[1] in a && b[0] in b && b[1] in b && c[0] in c && c[1] in c && c[2] in c;
  }

  /** A stage is reached exactly when some line gave its sign and none gave that of a later one. */
  lemma StageIs(lines: seq<string>)
    ensures var init := SomeContains(lines, ["systemd", "init"]);
            var kernel := SomeContains(lines, ["Linux version", "Booting Linux"]);
            var uefi := SomeContains(lines, ["UEFI", "EFI", "BdsDxe"]);
            StageOf(lines) == if init then Init else if kernel then Kernel else if uefi then Uefi else NoOutput
  {
    SignsOf(lines);
  }

  /** Received are the texts of exactly the turns that brought a line, in order. */
  lemma {:induction false} ReceivedAre(ticks: seq<Tick>) returns (at: seq<nat>)
    ensures |Received(ticks)| == |at| && forall j, k :: 0 <= j < k < |at| ==> at[j] < at[k]
    ensures forall k :: 0 <= k < |at| ==>
              at[k] < |ticks| && ticks[at[k]].event.Line? && Received(ticks)[k] == ticks[at[k]].event.text
    ensures forall i: nat :: i < |ticks| && ticks[i].event.Line? ==> i in at
  {
    if ticks == [] {
      at := [];
    } else {
      var n := |ticks| - 1;
      at := ReceivedAre(ticks[..n]);
      assert forall i :: 0 <= i < n ==> ticks[..n][i] == ticks[i];
      if ticks[n].event.Line? {
        var more := at + [n];
        forall i: nat | i < |ticks| && ticks[i].event.Line? ensures i in more {
          if i < n {
            assert i in at;
          } else {
            assert more[|at|] == n;
          }
        }
        at := more;
      }
    }
  }

  /** The tail is the last n lines, or all if there are no more. */
  lemma TailIs(lines: seq<string>, n: nat)
    ensures |Tail(lines, n)| == if |lines| < n then |lines| else n
    ensures exists before: seq<string> :: lines == before + Tail(lines, n)
  {
    var before := lines[..|lines| - |Tail(lines, n)|];
    assert lines == before + Tail(lines, n);
  }

  // ----- success -----

  predicate OnTime(w: Setup, ticks: seq<Tick>, i: nat)
    requires i < |ticks|
  {
    ticks[i].atTimeout <= w.timeout && ticks[i].atStall - LastOutput(w.begun, ticks[..i]) <= STALL_TIMEOUT
  }

  predicate Decisive(w: Setup, e: Event) {
    e.Line? && (Matches(e.text, w.success) || Matches(e.text, w.failure))
  }

  /** Turn i brings the first line that matches any pattern, with no hang-up and no missed deadline so far. */
  ghost predicate FirstDecisive(w: Setup, ticks: seq<Tick>, i: nat)
    requires i < |ticks|
  {
    && Decisive(w, ticks[i].event)
    && (forall j :: 0 <= j < i ==> !Decisive(w, ticks[j].event) && !ticks[j].event.Hangup?)
    && (forall j :: 0 <= j <= i ==> OnTime(w, ticks, j))
  }

  lemma SurvivesIff(w: Setup, ticks: seq<Tick>, n: nat)
    requires n <= |ticks|
    ensures Survives(w, ticks, n) <==>
              forall j :: 0 <= j < n ==>
                OnTime(w, ticks, j) && !Decisive(w, ticks[j].event) && !ticks[j].event.Hangup?
  {
    forall j | 0 <= j < n
      ensures Verdict(w, ticks, j).Watching? <==>
                OnTime(w, ticks, j) && !Decisive(w, ticks[j].event) && !ticks[j].event.Hangup?
    {
    }
  }

  lemma OneDecides(w: Setup, ticks: seq<Tick>, i: nat, j: nat)
    requires i < |ticks| && j < |ticks| && FirstDecisive(w, ticks, i) && FirstDecisive(w, ticks, j)
    ensures i == j
  {
  }

  lemma SucceededAt(w: Setup, ticks: seq<Tick>, r: Outcome) returns (i: nat)
    requires EndsWithOutcome(w, ticks, r) && r.Success?
    ensures i < |ticks| && FirstDecisive(w, ticks, i)
    ensures Matches(ticks[i].event.text, w.success) && !Matches(ticks[i].event.text, w.failure)
    ensures IsFirstMatch(ticks[i].event.text, w.success, r.pattern)
  {
    i :| i < |ticks| && Survives(w, ticks, i) && Verdict(w, ticks, i) == r;
    SurvivesIff(w, ticks, i);
    assert OnTime(w, ticks, i) && Decisive(w, ticks[i].event);
    FirstMatchIs(ticks[i].event.text, w.success);
  }

  lemma FailedAt(w: Setup, ticks: seq<Tick>, r: Outcome) returns (i: nat)
    requires EndsWithOutcome(w, ticks, r) && r.BootFailed?
    ensures i < |ticks| && FirstDecisive(w, ticks, i) && Matches(ticks[i].event.text, w.failure)
    ensures IsFirstMatch(ticks[i].event.text, w.failure, r.pattern)
    ensures r.context == Tail(Received(ticks[..i]) + [ticks[i].event.text], 30)
  {
    i :| i < |ticks| && Survives(w, ticks, i) && Verdict(w, ticks, i) == r;
    SurvivesIff(w, ticks, i);
    assert OnTime(w, ticks, i) && Decisive(w, ticks[i].event);
    FirstMatchIs(ticks[i].event.text, w.failure);
  }

  /**
   * The boot passes exactly when the first line to match any pattern comes in time and matches a success
   * pattern but no failure pattern. Reported is the first pattern of the list that it contains.
   */
  lemma SuccessIff(w: Setup, ticks: seq<Tick>, r: Outcome)
    requires EndsWithOutcome(w, ticks, r)
    ensures r.Success? <==>
              exists i: nat :: i < |ticks| && FirstDecisive(w, ticks, i)
                            && Matches(ticks[i].event.text, w.success) && !Matches(ticks[i].event.text, w.failure)
    ensures forall i: nat :: i < |ticks| && FirstDecisive(w, ticks, i) && r.Success? ==>
                               IsFirstMatch(ticks[i].event.text, w.success, r.pattern)
  {
    if r.Success? {
      var i := SucceededAt(w, ticks, r);
      forall j: nat | j < |ticks| && FirstDecisive(w, ticks, j) ensures j == i {
        OneDecides(w, ticks, i, j);
      }
    }
    forall i: nat | i < |ticks| && FirstDecisive(w, ticks, i)
                    && Matches(ticks[i].event.text, w.success) && !Matches(ticks[i].event.text, w.failure)
      ensures r.Success?
    {
      SurvivesIff(w, ticks, i);
      assert OnTime(w, ticks, i);
      assert Verdict(w, ticks, i).Success?;
      OneOutcome(w, ticks, i, r);
    }
  }

  /** The same for failure: a line that matches both lists is one. */
  lemma BootFailedIff(w: Setup, ticks: seq<Tick>, r: Outcome)
    requires EndsWithOutcome(w, ticks, r)
    ensures r.BootFailed? <==>
              exists i: nat :: i < |ticks| && FirstDecisive(w, ticks, i) && Matches(ticks[i].event.text, w.failure)
    ensures forall i: nat :: i < |ticks| && FirstDecisive(w, ticks, i) && r.BootFailed? ==>
              && IsFirstMatch(ticks[i].event.text, w.failure, r.pattern)
              && r.context == Tail(Received(ticks[..i]) + [ticks[i].event.text], 30)
  {
    if r.BootFailed? {
      var i := FailedAt(w, ticks, r);
      forall j: nat | j < |ticks| && FirstDecisive(w, ticks, j) ensures j == i {
        OneDecides(w, ticks, i, j);
      }
    }
    forall i: nat | i < |ticks| && FirstDecisive(w, ticks, i) && Matches(ticks[i].event.text, w.failure)
      ensures r.BootFailed?
    {
      SurvivesIff(w, ticks, i);
      assert OnTime(w, ticks, i);
      assert Verdict(w, ticks, i).BootFailed?;
      OneOutcome(w, ticks, i, r);
    }
  }

  lemma OneOutcome(w: Setup, ticks: seq<Tick>, i: nat, r: Outcome)
    requires EndsWithOutcome(w, ticks, r)
    requires i < |ticks| && Survives(w, ticks, i) && !Verdict(w, ticks, i).Watching?
    ensures r == Verdict(w, ticks, i)
  {
    if !r.Watching? {
      var k: nat :| k < |ticks| && Survives(w, ticks, k) && Verdict(w, ticks, k) == r;
      assert k == i;
    }
  }

  // ----- time -----

  /** A clock that never runs backwards. */
  ghost predicate Monotone(w: Setup, ticks: seq<Tick>) {
    && (forall i :: 0 <= i < |ticks| ==> ticks[i].atTimeout <= ticks[i].atStall <= ticks[i].atRecv)
    && (forall i :: 0 <= i < |ticks| ==> TurnStart(w, ticks, i) <= ticks[i].atTimeout)
  }

  /** The last clock reading before turn i. */
  function TurnStart(w: Setup, ticks: seq<Tick>, i: nat): nat
    requires i <= |ticks|
  {
    if i == 0 then w.begun else ticks[i - 1].atRecv
  }

  /** No turn takes longer than `turn`, counted between consecutive timeout checks. */
  ghost predicate Turns(ticks: seq<Tick>, turn: nat) {
    && (ticks != [] ==> ticks[0].atTimeout <= turn)
    && forall i :: 0 < i < |ticks| ==> ticks[i].atTimeout <= ticks[i - 1].atTimeout + turn
  }

  /** The watch never checks its clock later than one turn after the deadline, and stops at that check. */
  lemma DeadlineKept(w: Setup, ticks: seq<Tick>, turn: nat, i: nat)
    requires Turns(ticks, turn) && i < |ticks| && Survives(w, ticks, i)
    ensures ticks[i].atTimeout <= w.timeout + turn
    ensures ticks[i].atTimeout > w.timeout ==> Verdict(w, ticks, i).TimedOut?
  {
    if i > 0 {
      assert Verdict(w, ticks, i - 1).Watching?;
    }
  }

  /** A clock check past the deadline ends the watch, at that turn or before. */
  lemma WatchEnds(w: Setup, ticks: seq<Tick>, i: nat, r: Outcome)
    requires i < |ticks| && ticks[i].atTimeout > w.timeout && EndsWithOutcome(w, ticks, r)
    ensures exists k: nat :: k <= i && Survives(w, ticks, k) && Verdict(w, ticks, k) == r && !r.Watching?
  {
    assert !Verdict(w, ticks, i).Watching?;
    if !r.Watching? {
      var k: nat :| k < |ticks| && Survives(w, ticks, k) && Verdict(w, ticks, k) == r;
      assert k <= i;
    }
  }

  lemma {:induction false} LastOutputIsLast(w: Setup, ticks: seq<Tick>, i: nat, j: nat)
    requires Monotone(w, ticks) && j < i <= |ticks| && ticks[j].event.Line?
    ensures ticks[j].atRecv <= LastOutput(w.begun, ticks[..i])
    ensures LastOutput(w.begun, ticks[..i]) <= ticks[i - 1].atRecv
    decreases i
  {
    assert ticks[..i][..i - 1] == ticks[..i - 1];
    if j < i - 1 {
      LastOutputIsLast(w, ticks, i - 1, j);
    }
  }

  lemma {:induction false} LastOutputIsSome(w: Setup, ticks: seq<Tick>, i: nat)
    requires Monotone(w, ticks) && i <= |ticks|
    ensures w.begun <= LastOutput(w.begun, ticks[..i])
    ensures i > 0 ==> LastOutput(w.begun, ticks[..i]) <= ticks[i - 1].atRecv
    ensures LastOutput(w.begun, ticks[..i]) == w.begun
            || exists j :: 0 <= j < i && ticks[j].event.Line? && ticks[j].atRecv == LastOutput(w.begun, ticks[..i])
    decreases i
  {
    if i > 0 {
      assert ticks[..i][..i - 1] == ticks[..i - 1];
      LastOutputIsSome(w, ticks, i - 1);
      assert TurnStart(w, ticks, i - 1) <= ticks[i - 1].atTimeout <= ticks[i - 1].atRecv;
      if ticks[i - 1].event.Line? {
        assert ticks[i - 1].atRecv == LastOutput(w.begun, ticks[..i]);
      } else {
        assert LastOutput(w.begun, ticks[..i]) == LastOutput(w.begun, ticks[..i - 1]);
      }
    }
  }

  /** More than 30 seconds have passed since the watch began and since every line so far. */
  ghost predicate Quiet(w: Setup, ticks: seq<Tick>, i: nat)
    requires i < |ticks|
  {
    && ticks[i].atStall - w.begun > STALL_TIMEOUT
    && forall j :: 0 <= j < i && ticks[j].event.Line? ==> ticks[i].atStall - ticks[j].atRecv > STALL_TIMEOUT
  }

  lemma QuietIff(w: Setup, ticks: seq<Tick>, i: nat)
    requires Monotone(w, ticks) && i < |ticks|
    ensures ticks[i].atStall - LastOutput(w.begun, ticks[..i]) > STALL_TIMEOUT <==> Quiet(w, ticks, i)
  {
    LastOutputIsSome(w, ticks, i);
    forall j | 0 <= j < i && ticks[j].event.Line?
      ensures ticks[j].atRecv <= LastOutput(w.begun, ticks[..i])
    {
      LastOutputIsLast(w, ticks, i, j);
    }
  }

  /** A stall is reported only after more than 30 seconds without any line, also when none ever came. */
  lemma StallMeansSilence(w: Setup, ticks: seq<Tick>, i: nat)
    requires Monotone(w, ticks) && i < |ticks| && Verdict(w, ticks, i).Stalled?
    ensures ticks[i].atStall - w.begun > STALL_TIMEOUT
    ensures forall j :: 0 <= j < i && ticks[j].event.Line? ==> ticks[i].atStall - ticks[j].atRecv > STALL_TIMEOUT
  {
    QuietIff(w, ticks, i);
  }

  /** Nothing in the first n turns ends the watch: no missed deadline, no decisive line, no hang-up. */
  ghost predicate Undisturbed(w: Setup, ticks: seq<Tick>, n: nat)
    requires n <= |ticks|
  {
    forall j :: 0 <= j < n ==>
      ticks[j].atTimeout <= w.timeout && !Quiet(w, ticks, j)
      && !Decisive(w, ticks[j].event) && !ticks[j].event.Hangup?
  }

  /** Turn i is the first to find the silence too long, in time and with nothing else before it. */
  ghost predicate FirstQuiet(w: Setup, ticks: seq<Tick>, i: nat)
    requires i < |ticks|
  {
    Undisturbed(w, ticks, i) && ticks[i].atTimeout <= w.timeout && Quiet(w, ticks, i)
  }

  lemma OnTimeIff(w: Setup, ticks: seq<Tick>, j: nat)
    requires Monotone(w, ticks) && j < |ticks|
    ensures OnTime(w, ticks, j) <==> ticks[j].atTimeout <= w.timeout && !Quiet(w, ticks, j)
  {
    QuietIff(w, ticks, j);
  }

  lemma UndisturbedIff(w: Setup, ticks: seq<Tick>, n: nat)
    requires Monotone(w, ticks) && n <= |ticks|
    ensures Survives(w, ticks, n) <==> Undisturbed(w, ticks, n)
  {
    SurvivesIff(w, ticks, n);
    forall j | 0 <= j < n
      ensures OnTime(w, ticks, j) <==> ticks[j].atTimeout <= w.timeout && !Quiet(w, ticks, j)
    {
      OnTimeIff(w, ticks, j);
    }
  }

  /** Turn i is the first to come too late, with nothing before it. */
  ghost predicate FirstLate(w: Setup, ticks: seq<Tick>, i: nat)
    requires i < |ticks|
  {
    Undisturbed(w, ticks, i) && ticks[i].atTimeout > w.timeout
  }

  /** Turn i finds the output closed, in time and with nothing before it. */
  ghost predicate FirstHangup(w: Setup, ticks: seq<Tick>, i: nat)
    requires i < |ticks|
  {
    Undisturbed(w, ticks, i) && ticks[i].atTimeout <= w.timeout && !Quiet(w, ticks, i) && ticks[i].event.Hangup?
  }

  /** The turn that ends the watch decides its outcome. */
  lemma EndsThere(w: Setup, ticks: seq<Tick>, r: Outcome, i: nat)
    requires Monotone(w, ticks) && i < |ticks|
    ensures EndsWithOutcome(w, ticks, r) && Undisturbed(w, ticks, i) && !Verdict(w, ticks, i).Watching? ==>
              r == Verdict(w, ticks, i)
  {
    UndisturbedIff(w, ticks, i);
    if EndsWithOutcome(w, ticks, r) && Undisturbed(w, ticks, i) && !Verdict(w, ticks, i).Watching? {
      OneOutcome(w, ticks, i, r);
    }
  }

  lemma EndedSomewhere(w: Setup, ticks: seq<Tick>, r: Outcome) returns (i: nat)
    requires Monotone(w, ticks) && EndsWithOutcome(w, ticks, r) && !r.Watching?
    ensures i < |ticks| && Undisturbed(w, ticks, i) && Verdict(w, ticks, i) == r
    ensures ticks[i].atStall - LastOutput(w.begun, ticks[..i]) > STALL_TIMEOUT <==> Quiet(w, ticks, i)
  {
    i :| i < |ticks| && Survives(w, ticks, i) && Verdict(w, ticks, i) == r;
    UndisturbedIff(w, ticks, i);
    QuietIff(w, ticks, i);
  }

  /**
   * A stall is reported exactly when, with no decisive line, hang-up or missed deadline before, more than 30
   * seconds go by without any line, counted from the beginning if none came. The stage is that of the lines.
   */
  lemma StalledIff(w: Setup, ticks: seq<Tick>, r: Outcome)
    requires Monotone(w, ticks) && EndsWithOutcome(w, ticks, r)
    ensures r.Stalled? <==> exists i: nat :: i < |ticks| && FirstQuiet(w, ticks, i)
    ensures forall i: nat :: i < |ticks| && FirstQuiet(w, ticks, i) ==> r == Stalled(StageOf(Received(ticks[..i])))
  {
    if r.Stalled? {
      var i := EndedSomewhere(w, ticks, r);
      assert FirstQuiet(w, ticks, i);
    }
    forall i: nat | i < |ticks| && FirstQuiet(w, ticks, i) ensures r == Stalled(StageOf(Received(ticks[..i]))) {
      QuietIff(w, ticks, i);
      EndsThere(w, ticks, r, i);
    }
  }

  /** A timeout is reported exactly when, undisturbed so far, a turn comes too late; it quotes the last 20 lines. */
  lemma TimedOutIff(w: Setup, ticks: seq<Tick>, r: Outcome)
    requires Monotone(w, ticks) && EndsWithOutcome(w, ticks, r)
    ensures r.TimedOut? <==> exists i: nat :: i < |ticks| && FirstLate(w, ticks, i)
    ensures forall i: nat :: i < |ticks| && FirstLate(w, ticks, i) ==> r == TimedOut(Tail(Received(ticks[..i]), 20))
  {
    if r.TimedOut? {
      var i := EndedSomewhere(w, ticks, r);
      assert FirstLate(w, ticks, i);
    }
    forall i: nat | i < |ticks| && FirstLate(w, ticks, i) ensures r == TimedOut(Tail(Received(ticks[..i]), 20)) {
      EndsThere(w, ticks, r, i);
    }
  }

  /** An exit of QEMU is reported exactly when it is the first event to end the watch; likewise quoted. */
  lemma ExitedIff(w: Setup, ticks: seq<Tick>, r: Outcome)
    requires Monotone(w, ticks) && EndsWithOutcome(w, ticks, r)
    ensures r.Exited? <==> exists i: nat :: i < |ticks| && FirstHangup(w, ticks, i)
    ensures forall i: nat :: i < |ticks| && FirstHangup(w, ticks, i) ==> r == Exited(Tail(Received(ticks[..i]), 20))
  {
    if r.Exited? {
      var i := EndedSomewhere(w, ticks, r);
      assert FirstHangup(w, ticks, i);
    }
    forall i: nat | i < |ticks| && FirstHangup(w, ticks, i) ensures r == Exited(Tail(Received(ticks[..i]), 20)) {
      QuietIff(w, ticks, i);
      EndsThere(w, ticks, r, i);
    }
  }

  /** The watch is still going on exactly when nothing has ended it. */
  lemma WatchingIff(w: Setup, ticks: seq<Tick>, r: Outcome)
    requires Monotone(w, ticks) && EndsWithOutcome(w, ticks, r)
    ensures r.Watching? <==> Undisturbed(w, ticks, |ticks|)
  {
    UndisturbedIff(w, ticks, |ticks|);
  }

  // ----- the last lines -----

  function Reversed(s: seq<string>): (r: seq<string>)
    ensures |r| == |s|
  {
    if s == [] then [] else Reversed(s[1..]) + [s[0]]
  }

  lemma {:induction false} ReversedTake(s: seq<string>, k: nat)
    requires k <= |s|
    ensures Reversed(s)[..k] == Reversed(s[|s| - k..])
  {
    if k < |s| {
      ReversedTake(s[1..], k);
      assert s[1..][|s| - 1 - k..] == s[|s| - k..];
      assert Reversed(s)[..k] == Reversed(s[1..])[..k];
    } else {
      assert Reversed(s)[..k] == Reversed(s) && s[|s| - k..] == s;
    }
  }

  lemma {:induction false} ReversedAppend(s: seq<string>, x: string)
    ensures Reversed(s + [x]) == [x] + Reversed(s)
  {
    if s == [] {
      assert [x][1..] == [];
    } else {
      ReversedAppend(s[1..], x);
      assert (s + [x])[1..] == s[1..] + [x];
    }
  }

  lemma {:induction false} ReversedTwice(s: seq<string>)
    ensures Reversed(Reversed(s)) == s
  {
    if s != [] {
      ReversedTwice(s[1..]);
      ReversedAppend(Reversed(s[1..]), s[0]);
    }
  }

  function Take(s: seq<string>, n: nat): seq<string> {
    if n < |s| then s[..n] else s
  }

  /** Reversing, taking and reversing again keeps the last lines in their order. */
  lemma ReverseTakeReverse(s: seq<string>, n: nat)
    ensures Reversed(Take(Reversed(s), n)) == Tail(s, n)
  {
    if n < |s| {
      ReversedTake(s, n);
      ReversedTwice(s[|s| - n..]);
    } else {
      ReversedTwice(s);
    }
  }

  method LastLines(buffer: seq<string>, n: nat) returns (tail: seq<string>)
    ensures tail == Tail(buffer, n)
  {
    var back := Reversed(buffer);
    ReverseTakeReverse(buffer, n);
    tail := Reversed(Take(back, n));
  }

  method FindPattern(line: string, patterns: seq<string>) returns (r: Option<string>)
    ensures r == FirstMatch(line, patterns)
  {
    for i := 0 to |patterns|
      invariant FirstMatch(line, patterns) == FirstMatch(line, patterns[i..])
    {
      if Contains(line, patterns[i]) {
        return Some(patterns[i]);
      }
      assert patterns[i..][1..] == patterns[i + 1..];
    }
    return None;
  }

  lemma StageGrows(lines: seq<string>, line: string)
    ensures (exists l | l in lines + [line] :: MeansInit(l))
       <==> (exists l | l in lines :: MeansInit(l)) || MeansInit(line)
    ensures (exists l | l in lines + [line] :: MeansKernel(l))
       <==> (exists l | l in lines :: MeansKernel(l)) || MeansKernel(line)
    ensures (exists l | l in lines + [line] :: MeansUefi(l))
       <==> (exists l | l in lines :: MeansUefi(l)) || MeansUefi(line)
  {
    assert forall l :: l in lines + [line] <==> l in lines || l == line;
  }

  method Watch(w: Setup, ticks: seq<Tick>) returns (r: Outcome)
    ensures EndsWithOutcome(w, ticks, r)
  {
    var lastOutput := w.begun;
    var buffer: seq<string> := [];
    var sawUefi, sawKernel, sawInit := false, false, false;
    for i := 0 to |ticks|
      invariant Survives(w, ticks, i)
      invariant lastOutput == LastOutput(w.begun, ticks[..i]) && buffer == Received(ticks[..i])
      invariant sawUefi <==> exists l | l in buffer :: MeansUefi(l)
      invariant sawKernel <==> exists l | l in buffer :: MeansKernel(l)
      invariant sawInit <==> exists l | l in buffer :: MeansInit(l)
    {
      var t := ticks[i];
      assert ticks[..i + 1][..i] == ticks[..i];
      if t.atTimeout > w.timeout {
        var tail := LastLines(buffer, 20);
        assert Verdict(w, ticks, i) == TimedOut(tail);
        return TimedOut(tail);
      }
      if t.atStall - lastOutput > STALL_TIMEOUT {
        var stage := if sawInit then Init else if sawKernel then Kernel else if sawUefi then Uefi else NoOutput;
        assert Verdict(w, ticks, i) == Stalled(stage);
        return Stalled(stage);
      }
      match t.event {
        case Line(text) =>
          lastOutput := t.atRecv;
          StageGrows(buffer, text);
          buffer := buffer + [text];
          if MeansUefi(text) {
            sawUefi := true;
          }
          if MeansKernel(text) {
            sawKernel := true;
          }
          if MeansInit(text) {
            sawInit := true;
          }
          var bad := FindPattern(text, w.failure);
          if bad.Some? {
            var context := LastLines(buffer, 30);
            assert Verdict(w, ticks, i) == BootFailed(bad.value, context);
            return BootFailed(bad.value, context);
          }
          var good := FindPattern(text, w.success);
          if good.Some? {
            assert Verdict(w, ticks, i) == Success(good.value);
            return Success(good.value);
          }
        case Silence =>
        case Hangup =>
          var tail := LastLines(buffer, 20);
          assert Verdict(w, ticks, i) == Exited(tail);
          return Exited(tail);
      }
    }
    return Watching;
  }

  /** The boot test as shipped. */
  method TestIso(timeoutSeconds: nat, begun: nat, ticks: seq<Tick>) returns (r: Outcome)
    ensures EndsWithOutcome(Setup(SUCCESS_PATTERNS, FAILURE_PATTERNS, timeoutSeconds * SECOND, begun), ticks, r)
  {
    r := Watch(Setup(SUCCESS_PATTERNS, FAILURE_PATTERNS, timeoutSeconds * SECOND, begun), ticks);
  }
}
