/**
 * The life of the rootfs image, call by call: runs of the swap protocol, recording of the hash, storing,
 * restoring, removals and input edits, with a crash possible after each.
 */
module RootfsLife {
  import opened Text
  import opened Staging
  import opened RootfsSwap
  import opened RebuildCache

  /** Between commands or in a run; a run has just succeeded; and the recording of its hash is over. */
  datatype Phase = Resting | Made | Recorded

  /** `made` are the inputs that each run so far has read, those of run n at n - 1. */
  datatype World = World(
    phase: Phase,
    fs: State,
    inputs: Inputs,
    hashFile: Option<Hash>,
    store: map<Hash, Img>,
    made: seq<Inputs>)

  // ----- one step -----

  ghost predicate Between(w: World) {
    w.phase.Resting? && w.fs.pc.Idle?
  }

  ghost predicate Edits(w: World, x: World) {
    Between(w) && x == w.(inputs := x.inputs)
  }

  function Installed(s: State): State {
    State(Idle, s.run, s.disk.(finalImg := s.disk.workImg, workImg := NoImg))
  }

  /** The rename that ends a successful run. */
  ghost predicate Installs(s: State, t: State) {
    s.pc.MoveImg? && t == Installed(s)
  }

  /** A step of the swap protocol; after a success the command goes on or has crashed. */
  ghost predicate Swaps(req: Required, w: World, x: World) {
    && w.phase.Resting? && Next(req, w.fs, x.fs)
    && (x.phase.Resting? || (x.phase.Made? && Installs(w.fs, x.fs)))
    && x == w.(phase := x.phase, fs := x.fs, made := if Begins(w.fs, x.fs) then w.made + [w.inputs] else w.made)
  }

  /** Nothing is recorded if hashing or writing fails; the program ignores both. */
  ghost predicate Records(hash: Hasher, w: World, x: World) {
    && w.phase.Made?
    && (x.hashFile == w.hashFile || (hash(w.inputs).Some? && x.hashFile == hash(w.inputs)))
    && x == w.(phase := Recorded, hashFile := x.hashFile)
  }

  ghost predicate Stores(w: World, x: World) {
    && w.phase.Recorded? && w.hashFile.Some?
    && x == w.(phase := Resting, store := w.store[w.hashFile.value := w.fs.disk.finalImg])
  }

  /** The command ends, or crashes, without a further call. */
  ghost predicate Ends(w: World, x: World) {
    x == w.(phase := Resting)
  }

  function WithImage(w: World, f: Img): World {
    w.(fs := w.fs.(disk := w.fs.disk.(finalImg := f)))
  }

  ghost predicate Restores(w: World, x: World) {
    && Between(w) && w.fs.disk.finalImg.NoImg?
    && w.hashFile.Some? && w.hashFile.value in w.store
    && x == WithImage(w, w.store[w.hashFile.value])
  }

  /** Cleaning, as far as it gets: some of the files go, and trees go in whole or in part. */
  ghost predicate Cleans(w: World, x: World) {
    var d, e := w.fs.disk, x.fs.disk;
    && Between(w)
    && Removes(d.workDir, e.workDir) && Unlinks(d.workImg, e.workImg)
    && Removes(d.finalDir, e.finalDir) && Unlinks(d.finalImg, e.finalImg)
    && (x.hashFile == w.hashFile || x.hashFile == None)
    && x == w.(fs := w.fs.(disk := e), hashFile := x.hashFile)
  }

  ghost predicate Moves(req: Required, hash: Hasher, w: World, x: World) {
    || Edits(w, x) || Swaps(req, w, x) || Records(hash, w, x) || Stores(w, x) || Ends(w, x)
    || Restores(w, x) || Cleans(w, x)
  }

  // ----- lives -----

  /** The states passed through, the latest last. */
  datatype Life = Birth(now: World) | Later(past: Life, now: World) {
    function First(): World {
      match this
      case Birth(w) => w
      case Later(past, _) => past.First()
    }
  }

  function Newborn(inputs: Inputs): World {
    World(Resting, FRESH, inputs, None, map[], [])
  }

  /** A life that begins with an empty output directory and an empty store. */
  ghost predicate Lives(req: Required, hash: Hasher, life: Life) {
    match life
    case Birth(w) => w == Newborn(w.inputs)
    case Later(past, w) => Lives(req, hash, past) && Moves(req, hash, past.now, w)
  }

  // ----- the invariant -----

  /** A whole image from a verified tree, made by one of the runs so far. */
  ghost predicate Whole(req: Required, made: seq<Inputs>, f: Img) {
    f.FullImg? && 1 <= f.run <= |made| && Complete(req, f.tree)
  }

  function ArtifactOf(made: seq<Inputs>, f: Img): Option<Artifact> {
    if f.FullImg? && 1 <= f.run <= |made| then Some(Artifact(made[f.run - 1])) else None
  }

  ghost predicate Sound(req: Required, w: World) {
    && Inv(req, w.fs) && |w.made| == w.fs.run
    && (w.fs.disk.finalImg.NoImg? || Whole(req, w.made, w.fs.disk.finalImg))
    && (forall h :: h in w.store ==> Whole(req, w.made, w.store[h]))
    && (!w.fs.pc.Idle? ==> w.phase.Resting? && w.made != [] && w.made[|w.made| - 1] == w.inputs)
    && (!w.phase.Resting? ==> ArtifactOf(w.made, w.fs.disk.finalImg) == Some(Artifact(w.inputs)))
  }

  lemma WholeStaysWhole(req: Required, made: seq<Inputs>, more: seq<Inputs>, f: Img)
    requires made <= more && Whole(req, made, f)
    ensures Whole(req, more, f) && ArtifactOf(more, f) == ArtifactOf(made, f)
  {
  }

  /** What a step of the swap protocol does to the final image: nothing, its removal, or the final rename. */
  lemma ImageAfterSwapStep(req: Required, w: World, x: World)
    requires Sound(req, w) && Swaps(req, w, x)
    ensures || x.fs.disk.finalImg == w.fs.disk.finalImg
            || (x.fs.disk.finalImg == NoImg && !w.fs.pc.Idle? && !x.fs.pc.Idle?)
            || Installs(w.fs, x.fs)
    ensures Installs(w.fs, x.fs) ==>
              Whole(req, x.made, x.fs.disk.finalImg)
              && ArtifactOf(x.made, x.fs.disk.finalImg) == Some(Artifact(w.inputs))
  {
  }

  lemma RunsCounted(req: Required, w: World, x: World)
    requires Sound(req, w) && Swaps(req, w, x)
    ensures |x.made| == x.fs.run && w.made <= x.made
    ensures !x.fs.pc.Idle? ==> x.phase.Resting? && x.made != [] && x.made[|x.made| - 1] == x.inputs
  {
  }

  lemma SwapKeepsSound(req: Required, w: World, x: World)
    requires Sound(req, w) && Swaps(req, w, x)
    ensures Sound(req, x)
  {
    InvStep(req, w.fs, x.fs);
    RunsCounted(req, w, x);
    ImageAfterSwapStep(req, w, x);
    forall h | h in w.store ensures Whole(req, x.made, w.store[h]) {
      WholeStaysWhole(req, w.made, x.made, w.store[h]);
    }
    if Whole(req, w.made, w.fs.disk.finalImg) {
      WholeStaysWhole(req, w.made, x.made, w.fs.disk.finalImg);
    }
  }

  lemma BetweenKeepsSound(req: Required, w: World, x: World)
    requires Sound(req, w) && (Edits(w, x) || Restores(w, x) || Cleans(w, x))
    ensures Sound(req, x)
  {
  }

  lemma RecordingKeepsSound(req: Required, hash: Hasher, w: World, x: World)
    requires Sound(req, w) && (Records(hash, w, x) || Stores(w, x) || Ends(w, x))
    ensures Sound(req, x)
  {
  }

  lemma SoundStep(req: Required, hash: Hasher, w: World, x: World)
    requires Sound(req, w) && Moves(req, hash, w, x)
    ensures Sound(req, x)
  {
    if Swaps(req, w, x) {
      SwapKeepsSound(req, w, x);
    } else if Edits(w, x) || Restores(w, x) || Cleans(w, x) {
      BetweenKeepsSound(req, w, x);
    } else {
      RecordingKeepsSound(req, hash, w, x);
    }
  }

  lemma {:induction false} SoundReached(req: Required, hash: Hasher, life: Life)
    requires Lives(req, hash, life)
    ensures Sound(req, life.now)
  {
    if life.Later? {
      SoundReached(req, hash, life.past);
      SoundStep(req, hash, life.past.now, life.now);
    }
  }

  /** In every reachable state the image is absent, or whole and made from a verified tree; so is every stored one. */
  lemma ImagesAlwaysGood(req: Required, hash: Hasher, life: Life)
    requires Lives(req, hash, life)
    ensures GoodImage(req, life.now.fs.disk.finalImg)
    ensures forall h :: h in life.now.store ==> life.now.store[h].FullImg? && Complete(req, life.now.store[h].tree)
  {
    SoundReached(req, hash, life);
  }

  // ----- every state is one of the cache machine -----

  /** The output as the cache sees it; `made` are the inputs that the runs have read. */
  ghost predicate Offers(made: seq<Inputs>, s: State, output: Option<Artifact>) {
    match s.disk.finalImg
    case NoImg => output == None
    case PartImg => false
    case FullImg(run, _) => 1 <= run <= |made| && output == Some(Artifact(made[run - 1]))
  }

  function StoredArtifacts(made: seq<Inputs>, store: map<Hash, Img>): map<Hash, Artifact> {
    map h | h in store && ArtifactOf(made, store[h]).Some? :: ArtifactOf(made, store[h]).value
  }

  /** What the cache sees of the world. */
  function View(w: World): Snap {
    Snap(w.inputs, ArtifactOf(w.made, w.fs.disk.finalImg), w.hashFile, StoredArtifacts(w.made, w.store))
  }

  /**
   * How the world stands to the cache state at the end of the last command: equal to it between commands;
   * ahead of it in a command, by as much of a build as has been done.
   */
  ghost predicate Mirrors(hash: Hasher, base: Snap, b: Built, writes: bool, w: World) {
    match w.phase
    case Resting =>
      if w.fs.pc.Idle? then View(w) == base
      else (b.FailsKeeping? || b.FailsLosing?) && View(w) == AfterBuild(base, b)
    case Made => View(w) == AfterBuild(base, Succeeds)
    case Recorded => View(w) == CacheHash(hash, AfterBuild(base, Succeeds), writes)
  }

  /** A command ends or crashes with a new image in place beside a recorded hash that is not its own. */
  ghost predicate Misplaces(hash: Hasher, w: World, x: World) {
    && x.phase.Resting? && (Installs(w.fs, x.fs) || !w.phase.Resting?)
    && x.hashFile.Some? && x.hashFile != hash(x.inputs)
  }

  /** The call that ends a command, and the command: which one, and how it has ended. */
  ghost predicate Completes(w: World, x: World, step: Step) {
    match step
    case Edit(inputs) => Edits(w, x) && inputs == x.inputs
    case Clean(_) => Cleans(w, x)
    case DropHash => Cleans(w, x)
    case BuildFull(toolsOk, fetched, st, kernelOk, _, _) =>
      Restores(w, x) && toolsOk && fetched == w.inputs && st == Open(true, false) && !kernelOk
    case BuildOnly(st, b, writes) =>
      if w.phase.Recorded? then
        b.Succeeds? && ((Stores(w, x) && st == Open(false, true)) || (Ends(w, x) && st.Closed?))
      else
        && (w.phase.Resting? <==> !w.fs.pc.Idle?)
        && !b.Succeeds? && !writes && st.Closed?
        && (b.FailsWriting? <==> w.phase.Made? || Installs(w.fs, x.fs))
    case _ => false
  }

  /** The step is what the command amounts to for the cache, and misrecords exactly when the command does. */
  ghost predicate CompletesAs(hash: Hasher, base: Snap, w: World, x: World, step: Step) {
    Between(x) && Completes(w, x, step) && (Misplaces(hash, w, x) <==> Misrecords(hash, base, step))
  }

  lemma CleaningIsAStep(hash: Hasher, w: World, x: World) returns (step: Step)
    requires Cleans(w, x)
    ensures View(x) == Apply(hash, View(w), step) && CompletesAs(hash, View(w), w, x, step)
  {
    var imgStays := x.fs.disk.finalImg == w.fs.disk.finalImg;
    step := if x.hashFile == w.hashFile then Clean(if imgStays then 0 else 1)
            else if imgStays then DropHash else Clean(2);
  }

  lemma RestoringIsAStep(req: Required, hash: Hasher, w: World, x: World) returns (step: Step)
    requires Sound(req, w) && Restores(w, x)
    ensures View(x) == Apply(hash, View(w), step) && CompletesAs(hash, View(w), w, x, step)
  {
    step := BuildFull(true, w.inputs, Open(true, false), false, Succeeds, false);
  }

  lemma EditingIsAStep(hash: Hasher, w: World, x: World)
    requires Edits(w, x)
    ensures View(x) == Apply(hash, View(w), Edit(x.inputs)) && CompletesAs(hash, View(w), w, x, Edit(x.inputs))
  {
  }

  lemma BetweenIsAStep(req: Required, hash: Hasher, w: World, x: World) returns (step: Step)
    requires Sound(req, w) && (Edits(w, x) || Restores(w, x) || Cleans(w, x))
    ensures View(x) == Apply(hash, View(w), step) && CompletesAs(hash, View(w), w, x, step)
  {
    if Edits(w, x) {
      EditingIsAStep(hash, w, x);
      step := Edit(x.inputs);
    } else if Restores(w, x) {
      step := RestoringIsAStep(req, hash, w, x);
    } else {
      step := CleaningIsAStep(hash, w, x);
    }
  }

  lemma ImageStored(req: Required, w: World, x: World)
    requires Sound(req, w) && Stores(w, x)
    ensures StoredArtifacts(x.made, x.store) == StoredArtifacts(w.made, w.store)[w.hashFile.value := Artifact(w.inputs)]
  {
  }

  lemma StoringIsAStep(req: Required, hash: Hasher, base: Snap, b: Built, writes: bool, w: World, x: World)
    requires Sound(req, w) && Stores(w, x) && Mirrors(hash, base, b, writes, w)
    ensures View(x) == Apply(hash, base, BuildOnly(Open(false, true), Succeeds, writes))
  {
    ImageStored(req, w, x);
    assert View(x) == View(w).(store := StoredArtifacts(x.made, x.store));
    assert View(x) == TryStore(View(w), true);
  }

  lemma EndingIsAStep(
      req: Required, hash: Hasher, base: Snap, b: Built, writes: bool, w: World, x: World) returns (step: Step)
    requires Sound(req, w) && !w.phase.Resting? && (Ends(w, x) || Stores(w, x)) && Mirrors(hash, base, b, writes, w)
    ensures View(x) == Apply(hash, base, step) && CompletesAs(hash, base, w, x, step)
  {
    if Stores(w, x) {
      StoringIsAStep(req, hash, base, b, writes, w, x);
      step := BuildOnly(Open(false, true), Succeeds, writes);
    } else if w.phase.Made? {
      step := BuildOnly(Closed, FailsWriting, false);
    } else {
      step := BuildOnly(Closed, Succeeds, writes);
    }
  }

  lemma StoreUnaffected(req: Required, w: World, x: World)
    requires Sound(req, w) && Swaps(req, w, x)
    ensures View(x).store == View(w).store
    ensures x.fs.disk.finalImg == w.fs.disk.finalImg ==> View(x) == View(w)
  {
    if w.fs.disk.finalImg.FullImg? {
      WholeStaysWhole(req, w.made, x.made, w.fs.disk.finalImg);
    }
    forall h | h in w.store ensures ArtifactOf(x.made, w.store[h]) == ArtifactOf(w.made, w.store[h]) {
      WholeStaysWhole(req, w.made, x.made, w.store[h]);
    }
  }

  lemma SwapStepMirrored(req: Required, hash: Hasher, base: Snap, b: Built, writes: bool, w: World, x: World)
    returns (step: Option<Step>, c: Built)
    requires Sound(req, w) && Swaps(req, w, x) && Mirrors(hash, base, b, writes, w)
    ensures Mirrors(hash, if step.None? then base else Apply(hash, base, step.value), c, writes, x)
    ensures if step.None? then !Between(x) || x == w else CompletesAs(hash, base, w, x, step.value)
  {
    StoreUnaffected(req, w, x);
    ImageAfterSwapStep(req, w, x);
    if Installs(w.fs, x.fs) {
      step := if x.phase.Made? then None else Some(BuildOnly(Closed, FailsWriting, false));
      c := b;
    } else if w.fs.pc.Idle? {
      step, c := None, FailsKeeping;
    } else if x.fs.pc.Idle? {
      step, c := Some(BuildOnly(Closed, b, false)), b;
    } else {
      step, c := None, if x.fs.disk.finalImg == w.fs.disk.finalImg then b else FailsLosing;
    }
  }

  lemma RecordingMirrored(
      hash: Hasher, base: Snap, b: Built, writes: bool, w: World, x: World, recorded: bool)
    requires Records(hash, w, x) && Mirrors(hash, base, b, writes, w)
    requires recorded <==> hash(w.inputs).Some? && x.hashFile == hash(w.inputs)
    ensures Mirrors(hash, base, b, recorded, x)
  {
    assert View(x) == View(w).(hashFile := x.hashFile);
  }

  lemma CommandMirrored(req: Required, hash: Hasher, base: Snap, b: Built, writes: bool, w: World, x: World)
    returns (step: Step)
    requires Sound(req, w) && Mirrors(hash, base, b, writes, w)
    requires || Edits(w, x) || Restores(w, x) || Cleans(w, x)
             || (!w.phase.Resting? && (Ends(w, x) || Stores(w, x)))
    ensures Mirrors(hash, Apply(hash, base, step), b, writes, x) && CompletesAs(hash, base, w, x, step)
  {
    if w.phase.Resting? {
      step := BetweenIsAStep(req, hash, w, x);
    } else {
      step := EndingIsAStep(req, hash, base, b, writes, w, x);
    }
    assert Between(x);
  }

  lemma StepMirrored(req: Required, hash: Hasher, base: Snap, b: Built, writes: bool, w: World, x: World)
    returns (step: Option<Step>, c: Built, recorded: bool)
    requires Sound(req, w) && Moves(req, hash, w, x) && Mirrors(hash, base, b, writes, w)
    ensures Mirrors(hash, if step.None? then base else Apply(hash, base, step.value), c, recorded, x)
    ensures if step.None? then !Between(x) || x == w else CompletesAs(hash, base, w, x, step.value)
  {
    step, c, recorded := None, b, writes;
    if Swaps(req, w, x) {
      step, c := SwapStepMirrored(req, hash, base, b, writes, w, x);
    } else if Records(hash, w, x) {
      recorded := hash(w.inputs).Some? && x.hashFile == hash(w.inputs);
      RecordingMirrored(hash, base, b, writes, w, x, recorded);
    } else if !Ends(w, x) || !w.phase.Resting? {
      var last := CommandMirrored(req, hash, base, b, writes, w, x);
      step := Some(last);
    }
  }

  lemma {:induction false} FirstIsNewborn(req: Required, hash: Hasher, life: Life)
    requires Lives(req, hash, life)
    ensures View(life.First()) == Snap(life.First().inputs, None, None, map[])
    ensures HashTaken(hash, View(life.First())) && Consistent(hash, View(life.First()))
  {
    if life.Later? {
      FirstIsNewborn(req, hash, life.past);
    } else {
      assert StoredArtifacts(life.now.made, life.now.store) == map[];
    }
  }

  /**
   * The commands that a life amounts to: none at first; a call inside a command adds none, and leaves the
   * world ahead of the cache by part of a build; a call that completes a command adds exactly that one, and
   * the world is then what the cache machine has reached.
   */
  ghost predicate Follows(hash: Hasher, start: Snap, life: Life, steps: seq<Step>)
    decreases life
  {
    && (exists b, writes :: Mirrors(hash, Run(hash, start, steps), b, writes, life.now))
    && match life
       case Birth(_) => steps == []
       case Later(past, w) =>
         if !Between(w) || w == past.now then Follows(hash, start, past, steps)
         else
           steps != [] &&
           var before := steps[..|steps| - 1];
           && Follows(hash, start, past, before)
           && CompletesAs(hash, Run(hash, start, before), past.now, w, steps[|steps| - 1])
  }

  lemma {:induction false} LifeFollowed(req: Required, hash: Hasher, life: Life)
    returns (steps: seq<Step>, b: Built, writes: bool)
    requires Lives(req, hash, life)
    ensures Follows(hash, View(life.First()), life, steps)
    ensures Mirrors(hash, Run(hash, View(life.First()), steps), b, writes, life.now)
  {
    var start := View(life.First());
    if life.Birth? {
      steps, b, writes := [], FailsKeeping, false;
      assert Mirrors(hash, Run(hash, start, steps), b, writes, life.now);
    } else {
      steps, b, writes := LifeFollowed(req, hash, life.past);
      SoundReached(req, hash, life.past);
      if life.now != life.past.now {
        var step, base := None, Run(hash, start, steps);
        step, b, writes := StepMirrored(req, hash, base, b, writes, life.past.now, life.now);
        if step.Some? {
          RunOne(hash, start, steps, step.value);
          assert (steps + [step.value])[..|steps|] == steps;
          steps := steps + [step.value];
        }
      }
      assert Mirrors(hash, Run(hash, start, steps), b, writes, life.now);
    }
  }

  /**
   * Call by call the cache machine keeps up with the world: every life amounts to a history of its commands.
   * And at every moment the output that the cache sees is there exactly when a whole image is, built from
   * those inputs.
   */
  lemma LifeIsACacheHistory(req: Required, hash: Hasher, life: Life) returns (steps: seq<Step>)
    requires Lives(req, hash, life)
    ensures Follows(hash, Snap(life.First().inputs, None, None, map[]), life, steps)
    ensures Offers(life.now.made, life.now.fs, View(life.now).output)
  {
    SoundReached(req, hash, life);
    FirstIsNewborn(req, hash, life);
    var b, writes;
    steps, b, writes := LifeFollowed(req, hash, life);
  }

  // ----- when skipping is sound -----

  ghost predicate NeverMisplaces(hash: Hasher, life: Life) {
    life.Later? ==> NeverMisplaces(hash, life.past) && !Misplaces(hash, life.past.now, life.now)
  }

  /** Whenever no recording is under way, a skip is sound whatever the inputs become. */
  ghost predicate SkipsSoundAtRest(hash: Hasher, life: Life) {
    && (life.now.phase.Resting? ==> SkipsSound(hash, View(life.now)))
    && (life.Later? ==> SkipsSoundAtRest(hash, life.past))
  }

  /** The record is truthful, or the hash of the image in place is about to be written. */
  ghost predicate Truthful(hash: Hasher, w: World) {
    && HashTaken(hash, View(w))
    && Consistent(hash, if w.phase.Resting? then View(w) else View(w).(output := None))
  }

  lemma NothingMisplacedInside(req: Required, hash: Hasher, w: World, x: World)
    requires Sound(req, w) && Moves(req, hash, w, x) && (!Between(x) || x == w)
    ensures !Misplaces(hash, w, x)
  {
  }

  /** A life misplaces an image exactly when the history of commands that it amounts to misrecords. */
  lemma {:induction false} MisplacesIff(req: Required, hash: Hasher, start: Snap, life: Life, steps: seq<Step>)
    requires Lives(req, hash, life) && Follows(hash, start, life, steps)
    ensures NeverMisplaces(hash, life) <==> NeverMisrecords(hash, start, steps)
    decreases life
  {
    if life.Later? {
      SoundReached(req, hash, life.past);
      if !Between(life.now) || life.now == life.past.now {
        NothingMisplacedInside(req, hash, life.past.now, life.now);
        MisplacesIff(req, hash, start, life.past, steps);
      } else {
        MisplacesIff(req, hash, start, life.past, steps[..|steps| - 1]);
      }
    }
  }

  lemma MirrorIsTruthful(hash: Hasher, base: Snap, b: Built, writes: bool, w: World)
    requires Mirrors(hash, base, b, writes, w) && Consistent(hash, base) && HashTaken(hash, base)
    ensures Truthful(hash, w)
  {
    var v := View(w);
    assert v.store == base.store;
    if w.phase.Recorded? && writes && hash(base.inputs).Some? {
      assert v.hashFile == hash(base.inputs);
    } else {
      assert v.hashFile == base.hashFile;
    }
  }

  lemma NeverMisplacesIsTruthful(req: Required, hash: Hasher, life: Life)
    requires Lives(req, hash, life) && NeverMisplaces(hash, life)
    ensures Truthful(hash, life.now)
  {
    var start := View(life.First());
    FirstIsNewborn(req, hash, life);
    var steps, b, writes := LifeFollowed(req, hash, life);
    MisplacesIff(req, hash, start, life, steps);
    HistoryConsistentIff(hash, start, steps);
    HashTakenThroughout(hash, start, steps);
    MirrorIsTruthful(hash, Run(hash, start, steps), b, writes, life.now);
  }

  lemma MisplacedImage(req: Required, hash: Hasher, w: World, x: World)
    requires Sound(req, w) && Moves(req, hash, w, x) && Misplaces(hash, w, x)
    ensures x.hashFile == w.hashFile && View(x).output == Some(Artifact(x.inputs))
  {
    if Swaps(req, w, x) {
      ImageAfterSwapStep(req, w, x);
    } else {
      assert Stores(w, x) || Ends(w, x);
    }
  }

  lemma MisplacedImageMisleads(req: Required, hash: Hasher, w: World, x: World)
    requires Sound(req, w) && Moves(req, hash, w, x) && HashTaken(hash, View(w)) && Misplaces(hash, w, x)
    ensures !SkipsSound(hash, View(x))
  {
    MisplacedImage(req, hash, w, x);
    var earlier: Inputs :| hash(earlier) == w.hashFile;
    assert SkipsWrongly(hash, View(x).(inputs := earlier));
  }

  /**
   * Over every life: at rest, a skipped build always equals a fresh one, whatever the inputs become, exactly
   * when no command ends or crashes with a new image beside a recorded hash that is not its own.
   */
  lemma {:induction false} LifeSkipsIff(req: Required, hash: Hasher, life: Life)
    requires Injective(hash) && Lives(req, hash, life)
    ensures SkipsSoundAtRest(hash, life) <==> NeverMisplaces(hash, life)
    ensures NeverMisplaces(hash, life) ==> Truthful(hash, life.now)
  {
    if life.Later? {
      LifeSkipsIff(req, hash, life.past);
      SoundReached(req, hash, life.past);
      if NeverMisplaces(hash, life.past) && Misplaces(hash, life.past.now, life.now) {
        MisplacedImageMisleads(req, hash, life.past.now, life.now);
      }
    }
    if NeverMisplaces(hash, life) {
      NeverMisplacesIsTruthful(req, hash, life);
      if life.now.phase.Resting? {
        ConsistentSkipsSound(hash, View(life.now));
      }
    }
  }

  // ----- staging tree and image belong together -----

  /** The staging tree in place is one run's, and the image stored under the recorded hash another's. */
  predicate OtherRunStored(w: World) {
    && w.fs.disk.finalDir.FullDir?
    && w.hashFile.Some? && w.hashFile.value in w.store && w.store[w.hashFile.value].FullImg?
    && w.store[w.hashFile.value].run != w.fs.disk.finalDir.run
  }

  ghost predicate RestoresBeside(w: World, x: World) {
    Restores(w, x) && OtherRunStored(w)
  }

  ghost predicate Unpairs(w: World, x: World) {
    MovesPastOldImage(w.fs, x.fs) || RestoresBeside(w, x)
  }

  // A tree and an image with one run number are that run's: they agree.

  ghost predicate Agree(d: Dir, f: Img) {
    d.FullDir? && f.FullImg? && d.run == f.run ==> d.tree == f.tree
  }

  /** Before the run's image is made. */
  predicate IsEarly(pc: Pc) {
    pc.ClearDir? || pc.ClearImg? || pc.MakeDir? || pc.Stage? || pc.Check? || pc.MakeImg?
  }

  /** While a run has made no tree of its own, those in place are from earlier runs. */
  ghost predicate TreesOrdered(s: State) {
    && (s.disk.workDir.FullDir? ==>
          s.disk.workDir.run <= s.run
          && (IsEarly(s.pc) && !s.pc.Check? && !s.pc.MakeImg? ==> s.disk.workDir.run < s.run))
    && (s.disk.finalDir.FullDir? ==> s.disk.finalDir.run <= s.run && (IsEarly(s.pc) ==> s.disk.finalDir.run < s.run))
  }

  /** An image that fits: from an earlier run as long as the run has made none, and with that run's tree. */
  ghost predicate Fits(s: State, f: Img) {
    && (f.FullImg? ==> f.run <= s.run && (IsEarly(s.pc) ==> f.run < s.run))
    && Agree(s.disk.workDir, f) && Agree(s.disk.finalDir, f)
  }

  ghost predicate OneTreePerRun(w: World) {
    && TreesOrdered(w.fs)
    && Fits(w.fs, w.fs.disk.workImg) && Fits(w.fs, w.fs.disk.finalImg)
    && forall h :: h in w.store ==> Fits(w.fs, w.store[h])
  }

  lemma FitsStep(req: Required, s: State, t: State, f: Img)
    requires Inv(req, s) && TreesOrdered(s) && Next(req, s, t) && Fits(s, f)
    ensures TreesOrdered(t) && Fits(t, f)
  {
  }

  lemma NewImageFits(req: Required, s: State, t: State)
    requires Inv(req, s) && TreesOrdered(s) && Next(req, s, t) && Fits(s, s.disk.workImg)
    ensures Fits(t, t.disk.workImg)
  {
    FitsStep(req, s, t, NoImg);
    FitsStep(req, s, t, s.disk.workImg);
    if s.pc.MakeImg? && t.pc.UnlinkDir? {
      assert t.disk.workImg == FullImg(s.run, s.disk.workDir.tree);
    }
  }

  lemma FinalImageFits(req: Required, s: State, t: State)
    requires Inv(req, s) && TreesOrdered(s) && Next(req, s, t) && Fits(s, s.disk.workImg) && Fits(s, s.disk.finalImg)
    ensures Fits(t, t.disk.finalImg)
  {
    FitsStep(req, s, t, s.disk.finalImg);
    FitsStep(req, s, t, s.disk.workImg);
    assert t.disk.finalImg.NoImg? || t.disk.finalImg == s.disk.finalImg || t.disk.finalImg == s.disk.workImg;
  }

  lemma OneTreeSwap(req: Required, w: World, x: World)
    requires Sound(req, w) && Swaps(req, w, x) && OneTreePerRun(w)
    ensures OneTreePerRun(x)
  {
    NewImageFits(req, w.fs, x.fs);
    FinalImageFits(req, w.fs, x.fs);
    FitsStep(req, w.fs, x.fs, w.fs.disk.workImg);
    forall h | h in w.store ensures Fits(x.fs, w.store[h]) {
      FitsStep(req, w.fs, x.fs, w.store[h]);
    }
  }

  lemma OneTreeCleaned(w: World, x: World)
    requires Cleans(w, x) && OneTreePerRun(w)
    ensures OneTreePerRun(x)
  {
    assert forall f :: Fits(w.fs, f) ==> Fits(x.fs, f);
  }

  lemma OneTreeElse(req: Required, hash: Hasher, w: World, x: World)
    requires Sound(req, w) && OneTreePerRun(w)
    requires || Edits(w, x) || Records(hash, w, x) || Stores(w, x) || Ends(w, x) || Restores(w, x) || Cleans(w, x)
    ensures OneTreePerRun(x)
  {
    if Restores(w, x) {
      assert Fits(x.fs, x.fs.disk.finalImg) by {
        assert Fits(w.fs, w.store[w.hashFile.value]);
      }
    } else if Cleans(w, x) {
      OneTreeCleaned(w, x);
    } else {
      assert x.fs == w.fs;
    }
  }

  lemma {:induction false} OneTreeReached(req: Required, hash: Hasher, life: Life)
    requires Lives(req, hash, life)
    ensures OneTreePerRun(life.now)
  {
    if life.Later? {
      OneTreeReached(req, hash, life.past);
      SoundReached(req, hash, life.past);
      if Swaps(req, life.past.now, life.now) {
        OneTreeSwap(req, life.past.now, life.now);
      } else {
        OneTreeElse(req, hash, life.past.now, life.now);
      }
    }
  }

  ghost predicate NeverUnpairs(life: Life) {
    life.Later? ==> NeverUnpairs(life.past) && !Unpairs(life.past.now, life.now)
  }

  ghost predicate PairedAlways(life: Life) {
    Paired(life.now.fs.disk) && (life.Later? ==> PairedAlways(life.past))
  }

  lemma PairedMove(req: Required, hash: Hasher, w: World, x: World)
    requires Sound(req, w) && Moves(req, hash, w, x) && OneTreePerRun(w) && Paired(w.fs.disk)
    ensures Paired(x.fs.disk) <==> !Unpairs(w, x)
  {
    if Swaps(req, w, x) {
      PairedStep(req, w.fs, x.fs);
      assert !Restores(w, x) || x.fs.disk.finalImg.FullImg?;
    }
  }

  /** With restores and cleaning too: tree and image always belong together exactly when neither step happens. */
  lemma {:induction false} PairedAlwaysIff(req: Required, hash: Hasher, life: Life)
    requires Lives(req, hash, life)
    ensures PairedAlways(life) <==> NeverUnpairs(life)
  {
    if life.Later? {
      PairedAlwaysIff(req, hash, life.past);
      if PairedAlways(life.past) {
        SoundReached(req, hash, life.past);
        OneTreeReached(req, hash, life.past);
        PairedMove(req, hash, life.past.now, life.now);
      }
    }
  }

  // ----- both failures happen -----

  ghost function Lift(w: World, t: State): World {
    w.(fs := t, made := if Begins(w.fs, t) then w.made + [w.inputs] else w.made)
  }

  /** A life with the steps of a history of the swap protocol added. */
  ghost function Lifted(life: Life, h: History): Life {
    match h
    case Start(_) => life
    case Then(past, s) =>
      var before := Lifted(life, past);
      Later(before, Lift(before.now, s))
  }

  lemma {:induction false} LiftedLives(req: Required, hash: Hasher, life: Life, h: History)
    requires Lives(req, hash, life) && life.now.phase.Resting?
    requires Steps(req, h) && h.Origin() == life.now.fs
    ensures Lives(req, hash, Lifted(life, h))
    ensures Lifted(life, h).now == life.now.(fs := h.now, made := Lifted(life, h).now.made)
  {
    if h.Then? {
      LiftedLives(req, hash, life, h.past);
      var before := Lifted(life, h.past);
      assert Swaps(req, before.now, Lift(before.now, h.now));
    }
  }

  /** A life continued by one more run, up to the rename of the image, none of its calls failing. */
  lemma RunUpToRename(req: Required, hash: Hasher, life: Life) returns (next: Life)
    requires Lives(req, hash, life) && Between(life.now)
    ensures Lives(req, hash, next)
    ensures var s, n := next.now.fs, life.now.fs.run + 1;
            && next.now == life.now.(fs := s, made := next.now.made) && s.pc.MoveImg? && s.run == n
            && s.disk.finalDir.FullDir? && s.disk.finalDir.run == n
            && s.disk.workImg.FullImg? && s.disk.workImg.run == n
            && s.disk.workDir.NoDir? && s.disk.finalImg.NoImg?
  {
    var tree := CompleteTreeExists(req);
    var start := Start(life.now.fs);
    var built := RootfsSwap.Built(start, tree);
    BuiltFollows(req, start, tree);
    SwappedFollows(req, built, true);
    LiftedLives(req, hash, life, Swapped(built, true));
    next := Lifted(life, Swapped(built, true));
  }

  /** From an empty directory: a build without any failure, recorded and stored. */
  lemma FirstBuild(req: Required, hash: Hasher, inputs: Inputs) returns (life: Life)
    requires hash(inputs).Some?
    ensures Lives(req, hash, life) && Between(life.now)
    ensures var w := life.now;
            && w.inputs == inputs && w.hashFile == hash(inputs) && w.fs.run == 1
            && w.fs.disk.finalImg.FullImg? && w.fs.disk.finalImg.run == 1
            && w.store == map[hash(inputs).value := w.fs.disk.finalImg]
  {
    var run := RunUpToRename(req, hash, Birth(Newborn(inputs)));
    var made := Later(run, run.now.(phase := Made, fs := Installed(run.now.fs)));
    assert Swaps(req, run.now, made.now);
    var recorded := Later(made, made.now.(phase := Recorded, hashFile := hash(inputs)));
    assert Records(hash, made.now, recorded.now);
    var store := map[hash(inputs).value := made.now.fs.disk.finalImg];
    life := Later(recorded, recorded.now.(phase := Resting, store := store));
    assert Stores(recorded.now, life.now);
  }

  /** The same, and then the inputs are edited and a second run comes to the rename of its image. */
  lemma SecondRun(req: Required, hash: Hasher, a: Inputs, b: Inputs) returns (life: Life)
    requires hash(a).Some?
    ensures Lives(req, hash, life)
    ensures var w := life.now;
            && w.phase.Resting? && w.inputs == b && w.hashFile == hash(a) && w.fs.pc.MoveImg?
            && w.fs.disk.finalDir.FullDir? && w.fs.disk.finalDir.run == 2
            && w.fs.disk.workDir.NoDir? && w.fs.disk.finalImg.NoImg?
            && hash(a).value in w.store && w.store[hash(a).value].FullImg? && w.store[hash(a).value].run == 1
  {
    var first := FirstBuild(req, hash, a);
    var edited := Later(first, first.now.(inputs := b));
    assert Edits(first.now, edited.now);
    life := RunUpToRename(req, hash, edited);
  }

  /**
   * A failed rename of the image is enough: the next command that restores puts the old image from the
   * store beside the new staging tree.
   */
  lemma RestoreCanUnpair(req: Required, hash: Hasher, a: Inputs, b: Inputs) returns (life: Life)
    requires hash(a).Some?
    ensures Lives(req, hash, life) && life.Later?
    ensures Paired(life.past.now.fs.disk) && RestoresBeside(life.past.now, life.now)
    ensures !Paired(life.now.fs.disk)
  {
    var run := SecondRun(req, hash, a, b);
    var failed := Later(run, run.now.(fs := run.now.fs.(pc := Idle)));
    assert Swaps(req, run.now, failed.now);
    life := Later(failed, WithImage(failed.now, failed.now.store[hash(a).value]));
    assert Restores(failed.now, life.now);
  }

  /**
   * It takes no failed rename: an unrecorded build, as by the ISO command when a later builder fails, and a
   * clean cut short after the image do as well, since the image stored under the recorded hash is the old one.
   */
  lemma UnrecordedRunCanUnpair(req: Required, hash: Hasher, a: Inputs, b: Inputs) returns (life: Life)
    requires hash(a).Some?
    ensures Lives(req, hash, life) && life.Later?
    ensures Paired(life.past.now.fs.disk) && RestoresBeside(life.past.now, life.now)
    ensures !Paired(life.now.fs.disk)
    ensures life.past.now.fs.disk.workDir.NoDir? && life.past.now.fs.disk.workImg.NoImg?
  {
    var run := SecondRun(req, hash, a, b);
    var made := Later(run, run.now.(phase := Made, fs := Installed(run.now.fs)));
    assert Swaps(req, run.now, made.now);
    var built := Later(made, made.now.(phase := Resting));
    assert Ends(made.now, built.now);
    assert Lives(req, hash, built);
    var cleaned := Later(built, WithImage(built.now, NoImg));
    assert Cleans(built.now, cleaned.now);
    life := Later(cleaned, WithImage(cleaned.now, cleaned.now.store[hash(a).value]));
    assert Restores(cleaned.now, life.now);
  }

  /** A crash after the rename misplaces: the new image stays beside the old hash. */
  lemma CrashCanMisplace(req: Required, hash: Hasher, a: Inputs, b: Inputs) returns (life: Life)
    requires hash(a).Some? && hash(a) != hash(b)
    ensures Lives(req, hash, life) && life.Later? && Misplaces(hash, life.past.now, life.now)
    ensures !SkipsSound(hash, View(life.now))
  {
    var run := SecondRun(req, hash, a, b);
    life := Later(run, run.now.(fs := Installed(run.now.fs)));
    assert Swaps(req, run.now, life.now);
    SoundReached(req, hash, run);
    assert hash(a) == View(run.now).hashFile;
    MisplacedImageMisleads(req, hash, run.now, life.now);
  }

  // ----- one run as one step -----

  /**
   * Whatever a run of the swap protocol does, wherever it stops, it is one of the four ways a builder call
   * may end; so a crash inside it, or between it and the recording, is a step of the cache machine.
   */
  lemma RunIsABuild(req: Required, h: History, made: seq<Inputs>, s: Snap)
    requires OneRun(req, h) && Inv(req, h.Origin())
    requires Offers(made, h.Origin(), s.output)
    requires h.Origin().run == |made|
    ensures exists b: Built :: Offers(made + [s.inputs], h.now, AfterBuild(s, b).output)
  {
    var all := made + [s.inputs];
    RunEffects(req, h);
    var e: Effect :| HasEffect(req, h.Origin(), h.now, e);
    match e {
      case Kept => assert Offers(all, h.now, AfterBuild(s, FailsKeeping).output);
      case Lost => assert Offers(all, h.now, AfterBuild(s, FailsLosing).output);
      case Replaced => assert Offers(all, h.now, AfterBuild(s, Succeeds).output);
    }
  }
}

