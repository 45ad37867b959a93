/**
 * The work/final swap of the rootfs build: four file-system slots, one file-system call at a time.
 * A crash may follow every call, every removal may fail (the program ignores that) or be cut short,
 * and every rename may fail.
 */
module RootfsSwap {
  import opened Staging

  /** A staging directory: absent, in pieces, or the whole tree staged by one run. */
  datatype Dir = NoDir | PartDir | FullDir(run: nat, tree: Tree)

  /** An EROFS image: absent, in pieces, or made by one run from that run's staging tree. */
  datatype Img = NoImg | PartImg | FullImg(run: nat, tree: Tree)

  datatype Disk = Disk(workDir: Dir, workImg: Img, finalDir: Dir, finalImg: Img)

  /** The call that comes next; `Idle` between runs. */
  datatype Pc =
    | Idle
    | ClearDir | ClearImg | MakeDir
    | Stage | Check | MakeImg
    | DropDir | DropImg
    | UnlinkDir | UnlinkImg | MoveDir | MoveImg

  /** `run` counts the runs begun so far; it is the number of the current or the last run. */
  datatype State = State(pc: Pc, run: nat, disk: Disk)

  predicate InSwap(pc: Pc) {
    pc.UnlinkDir? || pc.UnlinkImg? || pc.MoveDir? || pc.MoveImg?
  }

  // ----- one step -----

  ghost predicate Begins(s: State, t: State) {
    s.pc.Idle? && t == State(ClearDir, s.run + 1, s.disk)
  }

  ghost predicate Crashes(s: State, t: State) {
    t == s.(pc := Idle)
  }

  /** `remove_dir_all` in progress, done, or given up with its error ignored. */
  ghost predicate Removes(d: Dir, e: Dir) {
    e == d || (!d.NoDir? && e == PartDir) || e == NoDir
  }

  ghost predicate Unlinks(f: Img, g: Img) {
    g == f || g == NoImg
  }

  ghost predicate StepsBefore(req: Required, s: State, t: State) {
    match s.pc
    case ClearDir =>
      (t.pc.ClearDir? || t.pc.ClearImg?) && Removes(s.disk.workDir, t.disk.workDir)
      && t == State(t.pc, s.run, s.disk.(workDir := t.disk.workDir))
    case ClearImg =>
      Unlinks(s.disk.workImg, t.disk.workImg)
      && t == State(MakeDir, s.run, s.disk.(workImg := t.disk.workImg))
    case MakeDir =>
      t == State(Stage, s.run, s.disk.(workDir := PartDir)) || t == s.(pc := Idle)
    case Stage =>
      || (t.disk.workDir.FullDir? && t.disk.workDir.run == s.run
          && t == State(Check, s.run, s.disk.(workDir := t.disk.workDir)))
      || t == s.(pc := DropDir)
    case Check =>
      s.disk.workDir.FullDir?
      && t == s.(pc := if Complete(req, s.disk.workDir.tree) then MakeImg else DropDir)
    case MakeImg =>
      || t == s.(disk := s.disk.(workImg := PartImg))
      || t == s.(pc := DropDir)
      || (s.disk.workDir.FullDir?
          && t == State(UnlinkDir, s.run, s.disk.(workImg := FullImg(s.run, s.disk.workDir.tree))))
    case DropDir =>
      (t.pc.DropDir? || t.pc.DropImg?) && Removes(s.disk.workDir, t.disk.workDir)
      && t == State(t.pc, s.run, s.disk.(workDir := t.disk.workDir))
    case DropImg =>
      Unlinks(s.disk.workImg, t.disk.workImg)
      && t == State(Idle, s.run, s.disk.(workImg := t.disk.workImg))
    case _ => false
  }

  /** Moving a directory fails on a target that is not empty; either move may fail for other reasons. */
  ghost predicate StepsSwap(s: State, t: State) {
    match s.pc
    case UnlinkDir =>
      (t.pc.UnlinkDir? || t.pc.UnlinkImg?) && Removes(s.disk.finalDir, t.disk.finalDir)
      && t == State(t.pc, s.run, s.disk.(finalDir := t.disk.finalDir))
    case UnlinkImg =>
      Unlinks(s.disk.finalImg, t.disk.finalImg)
      && t == State(MoveDir, s.run, s.disk.(finalImg := t.disk.finalImg))
    case MoveDir =>
      || t == s.(pc := Idle)
      || (!s.disk.finalDir.FullDir?
          && t == State(MoveImg, s.run, s.disk.(finalDir := s.disk.workDir, workDir := NoDir)))
    case MoveImg =>
      || t == s.(pc := Idle)
      || t == State(Idle, s.run, s.disk.(finalImg := s.disk.workImg, workImg := NoImg))
    case _ => false
  }

  ghost predicate Next(req: Required, s: State, t: State) {
    Begins(s, t) || Crashes(s, t) || StepsBefore(req, s, t) || StepsSwap(s, t)
  }

  // ----- executions: any number of runs, each ending in success, error or crash -----

  /** The states passed through, the latest last. */
  datatype History = Start(now: State) | Then(past: History, now: State) {
    function Origin(): State {
      match this
      case Start(s) => s
      case Then(past, _) => past.Origin()
    }
  }

  const FRESH := State(Idle, 0, Disk(NoDir, NoImg, NoDir, NoImg))

  /** From wherever it starts, each state follows from the one before. */
  ghost predicate Steps(req: Required, h: History) {
    h.Then? ==> Steps(req, h.past) && Next(req, h.past.now, h.now)
  }

  /** Every history of an output directory that was empty at first; each of its states is reachable. */
  ghost predicate Execution(req: Required, h: History) {
    Steps(req, h) && h.Origin() == FRESH
  }

  /** One run, finished or not, from the idle state in which it began. */
  ghost predicate OneRun(req: Required, h: History) {
    match h
    case Start(_) => false
    case Then(Start(idle), s) => Begins(idle, s)
    case Then(past, s) => OneRun(req, past) && Next(req, past.now, s) && !Begins(past.now, s)
  }

  // ----- the inductive invariant -----

  /** The new image, made by the current run from its verified staging tree. */
  ghost predicate NewImage(req: Required, s: State, f: Img) {
    f.FullImg? && f.run == s.run && Complete(req, f.tree)
  }

  ghost predicate Twin(d: Dir, f: Img) {
    d.FullDir? && f.FullImg? && d.run == f.run && d.tree == f.tree
  }

  ghost predicate GoodImage(req: Required, f: Img) {
    f.NoImg? || (f.FullImg? && Complete(req, f.tree))
  }

  ghost predicate Inv(req: Required, s: State) {
    && GoodImage(req, s.disk.finalImg)
    && (s.disk.finalImg.FullImg? ==> s.disk.finalImg.run <= s.run && (!s.pc.Idle? ==> s.disk.finalImg.run < s.run))
    && (s.pc.Check? ==> s.disk.workDir.FullDir? && s.disk.workDir.run == s.run)
    && (s.pc.MakeImg? ==> s.disk.workDir.FullDir? && s.disk.workDir.run == s.run
                          && Complete(req, s.disk.workDir.tree))
    && (InSwap(s.pc) ==> NewImage(req, s, s.disk.workImg))
    && (s.pc.UnlinkDir? || s.pc.UnlinkImg? || s.pc.MoveDir? ==> Twin(s.disk.workDir, s.disk.workImg))
    && (s.pc.MoveImg? ==> Twin(s.disk.finalDir, s.disk.workImg))
  }

  lemma InvBefore(req: Required, s: State, t: State)
    requires Inv(req, s) && StepsBefore(req, s, t)
    ensures Inv(req, t)
  {
  }

  lemma InvSwap(req: Required, s: State, t: State)
    requires Inv(req, s) && StepsSwap(s, t)
    ensures Inv(req, t)
  {
  }

  lemma InvStep(req: Required, s: State, t: State)
    requires Inv(req, s) && Next(req, s, t)
    ensures Inv(req, t)
  {
    if StepsBefore(req, s, t) {
      InvBefore(req, s, t);
    } else if StepsSwap(s, t) {
      InvSwap(req, s, t);
    }
  }

  lemma {:induction false} InvReached(req: Required, h: History)
    requires Execution(req, h)
    ensures Inv(req, h.now)
  {
    if h.Then? {
      InvReached(req, h.past);
      InvStep(req, h.past.now, h.now);
    }
  }

  lemma {:induction false} InvInRun(req: Required, h: History)
    requires OneRun(req, h) && Inv(req, h.Origin())
    ensures Inv(req, h.now)
  {
    if h.past.Then? {
      InvInRun(req, h.past);
    } else {
      assert h.Origin() == h.past.Origin() == h.past.now;
    }
    InvStep(req, h.past.now, h.now);
  }

  /** The image offered to users is absent or complete, and made from a tree that passed verification. */
  lemma FinalImageAlwaysGood(req: Required, h: History)
    requires Execution(req, h)
    ensures GoodImage(req, h.now.disk.finalImg)
  {
    InvReached(req, h);
  }

  /** A crash is possible after every call: no further one is made, and the four paths stay as they are. */
  lemma CrashAnywhere(req: Required, h: History)
    requires Execution(req, h)
    ensures Execution(req, Then(h, State(Idle, h.now.run, h.now.disk)))
  {
  }

  // ----- staging tree and image belong together -----

  /** A whole staging tree and a present image come from the same build. */
  ghost predicate Paired(d: Disk) {
    d.finalDir.FullDir? && !d.finalImg.NoImg? ==> Twin(d.finalDir, d.finalImg)
  }

  ghost predicate PairedThroughout(h: History) {
    Paired(h.now.disk) && (h.Then? ==> PairedThroughout(h.past))
  }

  /** The new staging tree moves in while the old image is still there: its unlink had failed. */
  ghost predicate MovesPastOldImage(s: State, t: State) {
    s.pc.MoveDir? && t.pc.MoveImg? && !s.disk.finalImg.NoImg?
  }

  ghost predicate NeverMovesPastOldImage(h: History) {
    h.Then? ==> NeverMovesPastOldImage(h.past) && !MovesPastOldImage(h.past.now, h.now)
  }

  lemma PairedStep(req: Required, s: State, t: State)
    requires Inv(req, s) && Next(req, s, t) && Paired(s.disk)
    ensures Paired(t.disk) <==> !MovesPastOldImage(s, t)
  {
  }

  /** Staging tree and image agree throughout an execution exactly when no such move happens in it. */
  lemma {:induction false} PairedThroughoutIff(req: Required, h: History)
    requires Execution(req, h)
    ensures PairedThroughout(h) <==> NeverMovesPastOldImage(h)
  {
    if h.Then? {
      PairedThroughoutIff(req, h.past);
      if PairedThroughout(h.past) {
        InvReached(req, h.past);
        PairedStep(req, h.past.now, h.now);
      }
    }
  }

  /** The history with one more run, up to the start of its swap, none of its calls failing. */
  function Built(h: History, tree: Tree): History {
    var n, d := h.now.run + 1, h.now.disk;
    var dir, img := FullDir(n, tree), FullImg(n, tree);
    var cleared := d.(workDir := NoDir, workImg := NoImg);
    Then(Then(Then(Then(Then(Then(Then(h,
      State(ClearDir, n, d)),
      State(ClearImg, n, d.(workDir := NoDir))),
      State(MakeDir, n, cleared)),
      State(Stage, n, cleared.(workDir := PartDir))),
      State(Check, n, cleared.(workDir := dir))),
      State(MakeImg, n, cleared.(workDir := dir))),
      State(UnlinkDir, n, cleared.(workDir := dir, workImg := img)))
  }

  lemma BuiltFollows(req: Required, h: History, tree: Tree)
    requires Steps(req, h) && h.now.pc.Idle? && Complete(req, tree)
    ensures Steps(req, Built(h, tree)) && Built(h, tree).Origin() == h.Origin()
  {
    var e := Built(h, tree);
    var made, checked, staged := e.past, e.past.past, e.past.past.past;
    var dir, img, begun := staged.past, staged.past.past, staged.past.past.past;
    assert Steps(req, begun) && begun.Origin() == h.Origin();
    assert Steps(req, img) && img.Origin() == h.Origin();
    assert Steps(req, dir) && dir.Origin() == h.Origin();
    assert Steps(req, staged) && staged.Origin() == h.Origin();
    assert Steps(req, checked) && checked.Origin() == h.Origin();
    assert Steps(req, made) && made.Origin() == h.Origin();
  }

  /** The swap up to the move of the staging tree; the old image goes or stays. */
  function Swapped(h: History, imageGoes: bool): History {
    var n, d := h.now.run, h.now.disk.(finalDir := NoDir);
    var e := if imageGoes then d.(finalImg := NoImg) else d;
    Then(Then(Then(h,
      State(UnlinkImg, n, d)),
      State(MoveDir, n, e)),
      State(MoveImg, n, e.(finalDir := e.workDir, workDir := NoDir)))
  }

  lemma SwappedFollows(req: Required, h: History, imageGoes: bool)
    requires Steps(req, h) && h.now.pc.UnlinkDir?
    ensures Steps(req, Swapped(h, imageGoes)) && Swapped(h, imageGoes).Origin() == h.Origin()
  {
    var e := Swapped(h, imageGoes);
    assert Steps(req, e.past.past) && e.past.past.Origin() == h.Origin();
    assert Steps(req, e.past) && e.past.Origin() == h.Origin();
  }

  /**
   * The pairing does break: whatever is required, there is an execution of two runs, the first without any
   * failure, in whose second the old image cannot be removed and the new staging tree is moved in.
   */
  lemma PairingCanBreak(req: Required) returns (h: History)
    ensures Execution(req, h) && !Paired(h.now.disk) && h.now.run == 2
  {
    var tree := CompleteTreeExists(req);
    var first := Built(Start(FRESH), tree);
    BuiltFollows(req, Start(FRESH), tree);
    SwappedFollows(req, first, true);
    var moved := Swapped(first, true);
    var d := moved.now.disk;
    var idle := Then(moved, State(Idle, 1, d.(finalImg := d.workImg, workImg := NoImg)));
    assert Execution(req, idle);
    BuiltFollows(req, idle, tree);
    SwappedFollows(req, Built(idle, tree), false);
    h := Swapped(Built(idle, tree), false);
  }

  /** From every idle state a run can end with its own pair in place, made from any tree that is complete. */
  lemma RunCanSucceed(req: Required, h: History, tree: Tree) returns (e: History)
    requires Steps(req, h) && h.now.pc.Idle? && Complete(req, tree)
    ensures Steps(req, e) && e.Origin() == h.Origin() && e.now.pc.Idle? && e.now.run == h.now.run + 1
    ensures e.now.disk == Disk(NoDir, NoImg, FullDir(h.now.run + 1, tree), FullImg(h.now.run + 1, tree))
  {
    BuiltFollows(req, h, tree);
    var moved := Swapped(Built(h, tree), true);
    SwappedFollows(req, Built(h, tree), true);
    var d := moved.now.disk;
    e := Then(moved, State(Idle, moved.now.run, d.(finalImg := d.workImg, workImg := NoImg)));
  }

  // ----- one run and the old and new artifacts -----

  ghost predicate NeverInSwap(h: History) {
    !InSwap(h.now.pc) && (h.Then? ==> NeverInSwap(h.past))
  }

  /** Stopping before the swap leaves both final paths exactly as they were. */
  lemma {:induction false} FinalsUntouchedBeforeSwap(req: Required, h: History)
    requires OneRun(req, h) && NeverInSwap(h)
    ensures h.now.disk.finalDir == h.Origin().disk.finalDir
    ensures h.now.disk.finalImg == h.Origin().disk.finalImg
  {
    if h.past.Then? {
      FinalsUntouchedBeforeSwap(req, h.past);
    }
  }

  /** From the start of a swap on, no further run having begun. */
  ghost predicate SinceSwap(req: Required, h: History) {
    match h
    case Start(s) => Inv(req, s) && s.pc.UnlinkDir?
    case Then(past, s) => SinceSwap(req, past) && Next(req, past.now, s) && !Begins(past.now, s)
  }

  /** The new image is whole at the work path or at the final path. */
  ghost predicate NewImageKept(req: Required, s: State) {
    NewImage(req, s, s.disk.workImg) || NewImage(req, s, s.disk.finalImg)
  }

  /** From the start of the swap until the next run begins the new image exists, also when a rename fails. */
  lemma {:induction false} NewImageKeptSinceSwap(req: Required, h: History)
    requires SinceSwap(req, h)
    ensures Inv(req, h.now) && (InSwap(h.now.pc) || h.now.pc.Idle?)
    ensures h.now.run == h.Origin().run && NewImageKept(req, h.now)
  {
    if h.Then? {
      NewImageKeptSinceSwap(req, h.past);
      InvStep(req, h.past.now, h.now);
    }
  }

  // ----- what the next run may destroy -----

  ghost predicate HasImage(d: Disk) {
    d.workImg.FullImg? || d.finalImg.FullImg?
  }

  /** The old image is in place, or the new one is, or it waits at the work path until a run begins. */
  ghost predicate Sheltered(s: State) {
    s.disk.finalImg.FullImg? || (s.disk.workImg.FullImg? && (InSwap(s.pc) || s.pc.Idle?))
  }

  lemma {:induction false} ShelteredInRun(req: Required, h: History)
    requires OneRun(req, h) && Inv(req, h.Origin()) && h.Origin().disk.finalImg.FullImg?
    ensures Sheltered(h.now)
  {
    if h.past.Then? {
      ShelteredInRun(req, h.past);
      InvInRun(req, h.past);
    }
  }

  /** The run that clears its work image and goes no further. */
  function ClearingRun(s: State): History {
    Then(Then(Then(Start(s),
      State(ClearDir, s.run + 1, s.disk)),
      State(ClearImg, s.run + 1, s.disk)),
      State(MakeDir, s.run + 1, s.disk.(workImg := NoImg)))
  }

  /**
   * Some whole image survives every next run, whatever happens in it, exactly when the final image
   * is in place beforehand. An image that a failed rename left at the work path is not safe.
   */
  lemma ImageSurvivesNextRunIff(req: Required, s: State)
    requires Inv(req, s) && s.pc.Idle?
    ensures (forall h: History :: OneRun(req, h) && h.Origin() == s ==> HasImage(h.now.disk))
        <==> s.disk.finalImg.FullImg?
  {
    if s.disk.finalImg.FullImg? {
      forall h: History | OneRun(req, h) && h.Origin() == s ensures HasImage(h.now.disk) {
        ShelteredInRun(req, h);
      }
    } else {
      var h := ClearingRun(s);
      assert OneRun(req, h.past.past);
      assert OneRun(req, h.past);
      assert h.past.past.past.Origin() == s;
      assert h.past.past.Origin() == s;
      assert OneRun(req, h) && h.Origin() == s && !HasImage(h.now.disk);
    }
  }

  /** How a run, finished or interrupted, has changed the image at the final path. */
  datatype Effect = Kept | Lost | Replaced

  ghost predicate HasEffect(req: Required, before: State, after: State, e: Effect) {
    match e
    case Kept => after.disk.finalImg == before.disk.finalImg
    case Lost => after.disk.finalImg == NoImg
    case Replaced => NewImage(req, after, after.disk.finalImg)
  }

  /** Wherever a run stops, the final image is the old one, gone, or the whole new one. */
  lemma {:induction false} RunEffects(req: Required, h: History)
    requires OneRun(req, h) && Inv(req, h.Origin())
    ensures h.now.run == h.Origin().run + 1
    ensures exists e: Effect :: HasEffect(req, h.Origin(), h.now, e) && (e.Replaced? ==> h.now.pc.Idle?)
  {
    var from := h.Origin();
    if h.past.Then? {
      RunEffects(req, h.past);
      InvInRun(req, h.past);
      var e: Effect :| HasEffect(req, from, h.past.now, e) && (e.Replaced? ==> h.past.now.pc.Idle?);
      if h.past.now.pc.UnlinkImg? && h.now.disk.finalImg == NoImg {
        assert HasEffect(req, from, h.now, Lost);
      } else if h.past.now.pc.MoveImg? && h.now.disk.finalImg == h.past.now.disk.workImg {
        assert HasEffect(req, from, h.now, Replaced);
      } else {
        assert HasEffect(req, from, h.now, e);
      }
    } else {
      assert from == h.past.Origin() == h.past.now;
      assert HasEffect(req, from, h.now, Kept);
    }
  }
}
