/** The build of the rootfs, call by call, over the four slots of the output directory. */
module OutputDir {
  import opened RootfsSwap
  import opened Staging
  import opened Text

  /** How far a recursive removal gets before it ends or gives up. */
  datatype Removal = Untouched | InPart | Entire

  /**
   * How the calls and subprocesses of one run end, in the order in which they are made; for an image, whether
   * a part of it is written first. `drop..` are those of the cleaning up after a failure.
   */
  datatype Calls = Calls(
    tools: bool,
    clearDir: Removal, clearImg: bool, makeDir: bool,
    staged: Option<Tree>, imgStarted: bool, imgMade: bool,
    dropDir: Removal, dropImg: bool,
    unlinkDir: Removal, unlinkImg: bool, moveDir: bool, moveImg: bool)

  /** No call fails. */
  predicate NoneFails(c: Calls) {
    && c.tools && c.clearDir.Entire? && c.clearImg && c.makeDir
    && c.staged.Some? && c.imgMade
    && c.unlinkDir.Entire? && c.unlinkImg && c.moveDir && c.moveImg
  }

  /** A verified pair gets made at the work paths. */
  ghost predicate MakesPair(req: Required, c: Calls) {
    c.tools && c.makeDir && c.staged.Some? && Complete(req, c.staged.value) && c.imgMade
  }

  /** `log` holds the state after every call, so a crash leaves the slots as in some element of `log`. */
  class OutputDirectory {
    var workDir: Dir
    var workImg: Img
    var finalDir: Dir
    var finalImg: Img
    var run: nat
    ghost var pc: Pc
    ghost var log: History
    ghost var current: History

    ghost function Now(): State
      reads this
    {
      State(pc, run, Disk(workDir, workImg, finalDir, finalImg))
    }

    /** The directory's whole history is an execution of the step relation. */
    ghost predicate Valid(req: Required)
      reads this
    {
      Execution(req, log) && log.now == Now() && Inv(req, Now())
    }

    /** A run is under way and about to make the call `at`. */
    ghost predicate Running(req: Required, at: Pc)
      reads this
    {
      Valid(req) && OneRun(req, current) && current.now == Now() && pc == at
    }

    ghost predicate Between(req: Required)
      reads this
    {
      Valid(req) && pc.Idle?
    }

    constructor (req: Required)
      ensures Between(req) && log == Start(FRESH)
    {
      workDir, workImg, finalDir, finalImg := NoDir, NoImg, NoDir, NoImg;
      run, pc, log, current := 0, Idle, Start(FRESH), Start(FRESH);
    }

    /** Notes the state that the call just made has led to. */
    ghost method Note(req: Required, before: State, next: Pc)
      requires Execution(req, log) && log.now == before && Inv(req, before)
      requires OneRun(req, current) && current.now == before
      requires StepsBefore(req, before, Now().(pc := next)) || StepsSwap(before, Now().(pc := next))
      modifies `pc, `log, `current
      ensures Running(req, next) && current.Origin() == old(current.Origin())
    {
      InvStep(req, before, Now().(pc := next));
      pc := next;
      log, current := Then(log, Now()), Then(current, Now());
    }

    /** Removal of the staging directory at the work path; errors are ignored. */
    method RemoveWorkDir(req: Required, how: Removal, ghost next: Pc)
      requires (Running(req, ClearDir) && next.ClearImg?) || (Running(req, DropDir) && next.DropImg?)
      modifies `workDir, `pc, `log, `current
      ensures Running(req, next) && current.Origin() == old(current.Origin())
      ensures how.Untouched? ==> workDir == old(workDir)
      ensures how.InPart? ==> workDir == if old(workDir).NoDir? then NoDir else PartDir
      ensures how.Entire? ==> workDir == NoDir
    {
      ghost var before := Now();
      if !how.Untouched? && !workDir.NoDir? {
        workDir := PartDir;
        Note(req, before, pc);
      }
      before := Now();
      if how.Entire? {
        workDir := NoDir;
      }
      Note(req, before, next);
    }

    /** Removal of the image at the work path; errors are ignored. */
    method RemoveWorkImg(req: Required, gone: bool, ghost next: Pc)
      requires (Running(req, ClearImg) && next.MakeDir?) || (Running(req, DropImg) && next.Idle?)
      modifies `workImg, `pc, `log, `current
      ensures Running(req, next) && current.Origin() == old(current.Origin())
      ensures workImg == if gone then NoImg else old(workImg)
    {
      ghost var before := Now();
      if gone {
        workImg := NoImg;
      }
      Note(req, before, next);
    }

    method MakeWorkDir(req: Required, ok: bool)
      requires Running(req, MakeDir)
      modifies `workDir, `pc, `log, `current
      ensures Running(req, if ok then Stage else Idle) && current.Origin() == old(current.Origin())
      ensures workDir == if ok then PartDir else old(workDir)
    {
      ghost var before := Now();
      if ok {
        workDir := PartDir;
      }
      Note(req, before, if ok then Stage else Idle);
    }

    /** Stages a tree at the work path. */
    method StageTree(req: Required, staged: Option<Tree>)
      requires Running(req, Stage)
      modifies `workDir, `pc, `log, `current
      ensures Running(req, if staged.Some? then Check else DropDir) && current.Origin() == old(current.Origin())
      ensures workDir == if staged.Some? then FullDir(run, staged.value) else old(workDir)
    {
      ghost var before := Now();
      if staged.Some? {
        workDir := FullDir(run, staged.value);
      }
      Note(req, before, if staged.Some? then Check else DropDir);
    }

    /** Verifies the staged tree. */
    method CheckTree(req: Required) returns (ok: bool)
      requires Running(req, Check)
      modifies `pc, `log, `current
      ensures workDir.FullDir? && (ok <==> Complete(req, workDir.tree))
      ensures Running(req, if ok then MakeImg else DropDir) && current.Origin() == old(current.Origin())
    {
      ghost var before := Now();
      var passed, missing;
      ok, passed, missing := VerifyStaging(req, workDir.tree);
      Note(req, before, if ok then MakeImg else DropDir);
    }

    /** Stages a tree at the work path and verifies it. */
    method StageAndVerify(req: Required, staged: Option<Tree>) returns (ok: bool)
      requires Running(req, Stage)
      modifies `workDir, `pc, `log, `current
      ensures Running(req, if ok then MakeImg else DropDir) && current.Origin() == old(current.Origin())
      ensures ok <==> staged.Some? && Complete(req, staged.value)
      ensures workDir == if staged.Some? then FullDir(run, staged.value) else old(workDir)
    {
      StageTree(req, staged);
      ok := false;
      if staged.Some? {
        ok := CheckTree(req);
      }
    }

    /** Makes an image of the staged tree at the work path. */
    method MakeWorkImg(req: Required, started: bool, made: bool)
      requires Running(req, MakeImg) && workDir.FullDir? && workDir.run == run
      modifies `workImg, `pc, `log, `current
      ensures Running(req, if made then UnlinkDir else DropDir) && current.Origin() == old(current.Origin())
      ensures workImg == if made then FullImg(run, workDir.tree) else if started then PartImg else old(workImg)
    {
      ghost var before := Now();
      if started {
        workImg := PartImg;
        Note(req, before, MakeImg);
      }
      before := Now();
      if made {
        workImg := FullImg(run, workDir.tree);
      }
      Note(req, before, if made then UnlinkDir else DropDir);
    }

    /** Drops the old staging tree; errors are ignored. */
    method RemoveFinalDir(req: Required, how: Removal)
      requires Running(req, UnlinkDir)
      modifies `finalDir, `pc, `log, `current
      ensures Running(req, UnlinkImg) && current.Origin() == old(current.Origin())
      ensures how.Untouched? ==> finalDir == old(finalDir)
      ensures how.InPart? ==> finalDir == if old(finalDir).NoDir? then NoDir else PartDir
      ensures how.Entire? ==> finalDir == NoDir
    {
      ghost var before := Now();
      if !how.Untouched? && !finalDir.NoDir? {
        finalDir := PartDir;
        Note(req, before, UnlinkDir);
      }
      before := Now();
      if how.Entire? {
        finalDir := NoDir;
      }
      Note(req, before, UnlinkImg);
    }

    /** Drops the old image; errors are ignored. */
    method RemoveFinalImg(req: Required, gone: bool)
      requires Running(req, UnlinkImg)
      modifies `finalImg, `pc, `log, `current
      ensures Running(req, MoveDir) && current.Origin() == old(current.Origin())
      ensures finalImg == if gone then NoImg else old(finalImg)
    {
      ghost var before := Now();
      if gone {
        finalImg := NoImg;
      }
      Note(req, before, MoveDir);
    }

    /** Moves the new staging tree to its final path; that fails on a tree that is still there. */
    method MoveDirIn(req: Required, works: bool) returns (ok: bool)
      requires Running(req, MoveDir)
      modifies `workDir, `finalDir, `pc, `log, `current
      ensures Running(req, if ok then MoveImg else Idle) && current.Origin() == old(current.Origin())
      ensures ok <==> works && !old(finalDir).FullDir?
      ensures finalDir == (if ok then old(workDir) else old(finalDir))
      ensures workDir == if ok then NoDir else old(workDir)
    {
      ok := works && !finalDir.FullDir?;
      ghost var before := Now();
      if ok {
        finalDir, workDir := workDir, NoDir;
      }
      Note(req, before, if ok then MoveImg else Idle);
    }

    /** Moves the new image to its final path. */
    method MoveImgIn(req: Required, works: bool)
      requires Running(req, MoveImg)
      modifies `workImg, `finalImg, `pc, `log, `current
      ensures Running(req, Idle) && current.Origin() == old(current.Origin())
      ensures finalImg == (if works then old(workImg) else old(finalImg))
      ensures workImg == if works then NoImg else old(workImg)
    {
      ghost var before := Now();
      if works {
        finalImg, workImg := workImg, NoImg;
      }
      Note(req, before, Idle);
    }

    /** Moves the new artifacts to the final paths; both moves are checked. */
    method MoveIntoPlace(req: Required, c: Calls) returns (ok: bool)
      requires Running(req, MoveDir)
      modifies `workDir, `workImg, `finalDir, `finalImg, `pc, `log, `current
      ensures Running(req, Idle) && current.Origin() == old(current.Origin())
      ensures ok <==> c.moveDir && !old(finalDir).FullDir? && c.moveImg
      ensures finalDir == (if c.moveDir && !old(finalDir).FullDir? then old(workDir) else old(finalDir))
      ensures finalImg == (if ok then old(workImg) else old(finalImg))
      ensures workImg == (if ok then NoImg else old(workImg))
      ensures ok ==> workDir == NoDir
    {
      ok := MoveDirIn(req, c.moveDir);
      if ok {
        MoveImgIn(req, c.moveImg);
        ok := c.moveImg;
      }
    }

    /**
     * Begins a run. The work directory is there afterwards, to be filled; the old work image is gone or, if
     * its removal failed, still whole. The final paths are not touched.
     */
    method Prepare(req: Required, c: Calls)
      requires Between(req)
      modifies `workDir, `workImg, `run, `pc, `log, `current
      ensures Running(req, if c.makeDir then Stage else Idle) && current.Origin() == old(Now())
      ensures run == old(run) + 1
      ensures c.makeDir ==> workDir == PartDir
      ensures !c.makeDir ==> Removes(old(workDir), workDir)
      ensures workImg == if c.clearImg then NoImg else old(workImg)
    {
      ghost var idle := Now();
      run, pc := run + 1, ClearDir;
      InvStep(req, idle, Now());
      log, current := Then(log, Now()), Then(Start(idle), Now());
      RemoveWorkDir(req, c.clearDir, ClearImg);
      RemoveWorkImg(req, c.clearImg, MakeDir);
      MakeWorkDir(req, c.makeDir);
    }

    /**
     * Builds the whole new pair at the work paths. A failure removes what it can: what is left is nothing,
     * pieces, or what a failed removal spared, and never an image of this run.
     */
    method BuildIntoWork(req: Required, c: Calls) returns (ok: bool)
      requires Running(req, Stage)
      modifies `workDir, `workImg, `pc, `log, `current
      ensures Running(req, if ok then UnlinkDir else Idle) && current.Origin() == old(current.Origin())
      ensures ok <==> c.staged.Some? && Complete(req, c.staged.value) && c.imgMade
      ensures ok ==> workDir == FullDir(run, c.staged.value) && workImg == FullImg(run, c.staged.value)
      ensures !ok ==> workImg in {NoImg, PartImg, old(workImg)} && (c.dropImg ==> workImg == NoImg)
      ensures !ok ==> workDir in {NoDir, PartDir, old(workDir)} || (workDir.FullDir? && workDir.run == run)
      ensures !ok && c.dropDir.Entire? ==> workDir == NoDir
    {
      ok := StageAndVerify(req, c.staged);
      if ok {
        MakeWorkImg(req, c.imgStarted, c.imgMade);
        ok := c.imgMade;
      }
      if !ok {
        RemoveWorkDir(req, c.dropDir, DropImg);
        RemoveWorkImg(req, c.dropImg, Idle);
      }
    }

    /** Drops the old pair, then moves the new one in. */
    method Swap(req: Required, c: Calls) returns (ok: bool)
      requires Running(req, UnlinkDir)
      modifies `workDir, `workImg, `finalDir, `finalImg, `pc, `log, `current
      ensures Running(req, Idle) && current.Origin() == old(current.Origin())
      ensures ok <==> (old(finalDir).FullDir? ==> !c.unlinkDir.Untouched?) && c.moveDir && c.moveImg
      ensures ok ==> finalDir == old(workDir) && finalImg == old(workImg) && workDir == NoDir && workImg == NoImg
      ensures !ok ==> workImg == old(workImg) && finalImg == if c.unlinkImg then NoImg else old(finalImg)
    {
      RemoveFinalDir(req, c.unlinkDir);
      RemoveFinalImg(req, c.unlinkImg);
      ok := MoveIntoPlace(req, c);
    }

    /**
     * One run. It succeeds exactly when a verified pair gets made, no whole old tree is left in the way and
     * both renames work; so it does from every state if no call fails and the staged tree is complete.
     * Success leaves its own pair at the final paths; failure leaves the final paths alone or the whole new
     * image at the work path. The states noted form one run of the step relation, so everything proved about
     * runs holds of it.
     */
    method BuildRootfs(req: Required, c: Calls) returns (ok: bool)
      requires Between(req)
      modifies this
      ensures Between(req)
      ensures ok <==> && c.tools && c.makeDir && c.staged.Some? && Complete(req, c.staged.value) && c.imgMade
                      && (old(finalDir).FullDir? ==> !c.unlinkDir.Untouched?) && c.moveDir && c.moveImg
      ensures NoneFails(c) && Complete(req, c.staged.value) ==> ok
      ensures ok ==> && run == old(run) + 1 && Complete(req, c.staged.value)
                     && finalDir == FullDir(run, c.staged.value) && finalImg == FullImg(run, c.staged.value)
                     && workDir == NoDir && workImg == NoImg
      ensures !MakesPair(req, c) ==> finalDir == old(finalDir) && finalImg == old(finalImg)
      ensures !ok && MakesPair(req, c) ==>
                && workImg == FullImg(run, c.staged.value) && NewImage(req, Now(), workImg)
                && finalImg == if c.unlinkImg then NoImg else old(finalImg)
      ensures !c.tools ==> Now() == old(Now())
      ensures c.tools ==> OneRun(req, current) && current.now == Now() && current.Origin() == old(Now())
    {
      if !c.tools {
        return false;
      }
      Prepare(req, c);
      ok := c.makeDir;
      if ok {
        ok := BuildIntoWork(req, c);
        if ok {
          ok := Swap(req, c);
        }
      }
    }
  }
}
