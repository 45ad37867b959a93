/**
 * The incremental build cache of one artifact: its inputs, its output, the recorded input hash and the
 * artifact store, under every command that touches them.
 */
module RebuildCache {
  import opened Text

  /** The tracked input files with their contents. */
  type Inputs = map<string, string>

  type Hash = string

  /** Hashing fails when an input cannot be read. */
  type Hasher = Inputs -> Option<Hash>

  ghost predicate Injective(hash: Hasher) {
    forall i, j {:trigger hash(i), hash(j)} :: hash(i).Some? && hash(i) == hash(j) ==> i == j
  }

  /** A built artifact is determined by the inputs it was built from. */
  datatype Artifact = Artifact(from: Inputs)

  datatype Snap = Snap(
    inputs: Inputs,
    output: Option<Artifact>,
    hashFile: Option<Hash>,
    store: map<Hash, Artifact>)

  // ----- the pieces -----

  predicate NeedsRebuild(hash: Hasher, s: Snap) {
    s.output.None? || hash(s.inputs).None? || s.hashFile != hash(s.inputs)
  }

  function CacheHash(hash: Hasher, s: Snap, writes: bool): Snap {
    if hash(s.inputs).Some? && writes then s.(hashFile := hash(s.inputs)) else s
  }

  /** Fires only when the output is missing and the recorded key is in the store. */
  function TryRestore(s: Snap, works: bool): Snap {
    if works && s.output.None? && s.hashFile.Some? && s.hashFile.value in s.store
    then s.(output := Some(s.store[s.hashFile.value]))
    else s
  }

  function TryStore(s: Snap, works: bool): Snap {
    if works && s.output.Some? && s.hashFile.Some?
    then s.(store := s.store[s.hashFile.value := s.output.value])
    else s
  }

  /** How a builder call ends; a failing builder may leave the output alone, gone or freshly written. */
  datatype Built = Succeeds | FailsKeeping | FailsLosing | FailsWriting

  function AfterBuild(s: Snap, b: Built): Snap {
    match b
    case FailsKeeping => s
    case FailsLosing => s.(output := None)
    case _ => s.(output := Some(Artifact(s.inputs)))
  }

  // ----- the commands -----

  datatype Store = Closed | Open(restores: bool, stores: bool)

  /**
   * A crash between two calls is the same as the failure of all later ones; a failed fetch is an edit.
   * `DropHash` is the removal of the whole output directory cut short after the hash file was removed.
   */
  datatype Step =
    | Edit(inputs: Inputs)
    | Clean(removals: nat)
    | DropHash
    | BuildOnly(st: Store, b: Built, writes: bool)
    | BuildFull(toolsOk: bool, fetched: Inputs, st: Store, kernelOk: bool, b: Built, writes: bool)
    | BuildIso(b: Built, othersOk: bool, writes: bool)
    | EnsureIso(isoThere: bool, b: Built)
    | BuildIfNeeded(b: Built, writes: bool)

  function Restored(s: Snap, st: Store): Snap {
    if st.Open? then TryRestore(s, st.restores) else s
  }

  function BuildCacheStore(hash: Hasher, s: Snap, st: Store, b: Built, writes: bool): Snap {
    var built := AfterBuild(s, b);
    if !b.Succeeds? then built
    else
      var cached := CacheHash(hash, built, writes);
      if st.Open? then TryStore(cached, st.stores) else cached
  }

  function Apply(hash: Hasher, s: Snap, step: Step): Snap {
    match step
    case Edit(inputs) => s.(inputs := inputs)
    case Clean(removals) =>
      var one := if removals >= 1 then s.(output := None) else s;
      if removals >= 2 then one.(hashFile := None) else one
    case DropHash => s.(hashFile := None)
    case BuildOnly(st, b, writes) => BuildCacheStore(hash, Restored(s, st), st, b, writes)
    case BuildFull(toolsOk, fetched, st, kernelOk, b, writes) =>
      if !toolsOk then s
      else
        var ready := Restored(s.(inputs := fetched), st);
        if kernelOk then BuildCacheStore(hash, ready, st, b, writes) else ready
    case BuildIso(b, othersOk, writes) =>
      var built := AfterBuild(s, b);
      if b.Succeeds? && othersOk then CacheHash(hash, built, writes) else built
    case EnsureIso(isoThere, b) =>
      if isoThere || s.output.Some? then s else AfterBuild(s, b)
    case BuildIfNeeded(b, writes) =>
      if NeedsRebuild(hash, s) then BuildCacheStore(hash, s, Closed, b, writes) else s
  }

  function Run(hash: Hasher, s: Snap, steps: seq<Step>): Snap {
    if steps == [] then s else Apply(hash, Run(hash, s, steps[..|steps| - 1]), steps[|steps| - 1])
  }

  // ----- what the recorded hash means -----

  /** The output has the recorded hash, and every store entry the hash it is filed under. */
  ghost predicate Consistent(hash: Hasher, s: Snap) {
    && (s.output.Some? && s.hashFile.Some? ==> hash(s.output.value.from) == s.hashFile)
    && (forall h :: h in s.store ==> hash(s.store[h].from) == Some(h))
  }

  /** A freshly written output stays unrecorded beside a hash that is not its own. */
  predicate LeavesStaleHash(hash: Hasher, s: Snap, b: Built, recorded: bool) {
    && (b.Succeeds? || b.FailsWriting?)
    && s.hashFile.Some? && s.hashFile != hash(s.inputs)
    && !(b.Succeeds? && recorded && hash(s.inputs).Some?)
  }

  /** The guard of a step: whether it ends with an output that is not the one recorded. */
  predicate Misrecords(hash: Hasher, s: Snap, step: Step) {
    match step
    case Edit(_) => false
    case Clean(_) => false
    case DropHash => false
    case BuildOnly(_, b, writes) => LeavesStaleHash(hash, s, b, writes)
    case BuildFull(toolsOk, fetched, _, kernelOk, b, writes) =>
      toolsOk && kernelOk && LeavesStaleHash(hash, s.(inputs := fetched), b, writes)
    case BuildIso(b, othersOk, writes) => LeavesStaleHash(hash, s, b, othersOk && writes)
    case EnsureIso(isoThere, b) => !isoThere && s.output.None? && LeavesStaleHash(hash, s, b, false)
    case BuildIfNeeded(b, writes) => NeedsRebuild(hash, s) && LeavesStaleHash(hash, s, b, writes)
  }

  lemma RestoredConsistent(hash: Hasher, s: Snap, st: Store)
    requires Consistent(hash, s)
    ensures Consistent(hash, Restored(s, st))
    ensures Restored(s, st) == s.(output := Restored(s, st).output)
  {
  }

  lemma BuildConsistentIff(hash: Hasher, s: Snap, st: Store, b: Built, writes: bool)
    requires Consistent(hash, s)
    ensures Consistent(hash, BuildCacheStore(hash, s, st, b, writes)) <==> !LeavesStaleHash(hash, s, b, writes)
  {
    var built := AfterBuild(s, b);
    var cached := CacheHash(hash, built, writes);
    if b.Succeeds? && st.Open? {
      assert TryStore(cached, st.stores).output == cached.output;
      assert TryStore(cached, st.stores).hashFile == cached.hashFile;
    }
  }

  /** A command keeps the record truthful exactly when it does not misrecord. */
  lemma StepConsistentIff(hash: Hasher, s: Snap, step: Step)
    requires Consistent(hash, s)
    ensures Consistent(hash, Apply(hash, s, step)) <==> !Misrecords(hash, s, step)
  {
    match step
    case BuildOnly(st, b, writes) =>
      RestoredConsistent(hash, s, st);
      BuildConsistentIff(hash, Restored(s, st), st, b, writes);
    case BuildFull(toolsOk, fetched, st, kernelOk, b, writes) =>
      var edited := s.(inputs := fetched);
      RestoredConsistent(hash, edited, st);
      BuildConsistentIff(hash, Restored(edited, st), st, b, writes);
    case BuildIso(b, othersOk, writes) =>
      BuildConsistentIff(hash, s, Closed, b, othersOk && writes);
    case BuildIfNeeded(b, writes) =>
      BuildConsistentIff(hash, s, Closed, b, writes);
    case _ =>
  }

  ghost predicate ConsistentThroughout(hash: Hasher, s: Snap, steps: seq<Step>) {
    && Consistent(hash, Run(hash, s, steps))
    && (steps != [] ==> ConsistentThroughout(hash, s, steps[..|steps| - 1]))
  }

  ghost predicate NeverMisrecords(hash: Hasher, s: Snap, steps: seq<Step>) {
    steps != [] ==>
      var before := steps[..|steps| - 1];
      NeverMisrecords(hash, s, before) && !Misrecords(hash, Run(hash, s, before), steps[|steps| - 1])
  }

  /** Over every history of commands: the record is truthful throughout exactly when none misrecords. */
  lemma {:induction false} HistoryConsistentIff(hash: Hasher, s: Snap, steps: seq<Step>)
    requires Consistent(hash, s)
    ensures ConsistentThroughout(hash, s, steps) <==> NeverMisrecords(hash, s, steps)
  {
    if steps != [] {
      var before := steps[..|steps| - 1];
      HistoryConsistentIff(hash, s, before);
      if ConsistentThroughout(hash, s, before) {
        StepConsistentIff(hash, Run(hash, s, before), steps[|steps| - 1]);
      }
    }
  }

  /** What a skip relies on: the output is what a fresh build of the current inputs would make. */
  ghost predicate UpToDate(s: Snap) {
    s.output == Some(Artifact(s.inputs))
  }

  lemma SkipIsSound(hash: Hasher, s: Snap)
    requires Injective(hash) && Consistent(hash, s) && !NeedsRebuild(hash, s)
    ensures UpToDate(s)
  {
    assert hash(s.output.value.from) == hash(s.inputs);
  }

  /** After any history that never misrecords, a skipped build equals a fresh one. */
  lemma SkipAfterHistory(hash: Hasher, s: Snap, steps: seq<Step>)
    requires Injective(hash) && Consistent(hash, s) && NeverMisrecords(hash, s, steps)
    requires !NeedsRebuild(hash, Run(hash, s, steps))
    ensures UpToDate(Run(hash, s, steps))
  {
    HistoryConsistentIff(hash, s, steps);
    SkipIsSound(hash, Run(hash, s, steps));
  }

  /** A build is skipped although it would change the output. */
  ghost predicate SkipsWrongly(hash: Hasher, s: Snap) {
    !NeedsRebuild(hash, s) && !UpToDate(s)
  }

  lemma StaleBuildMisleads(hash: Hasher, s: Snap, st: Store, b: Built, writes: bool, earlier: Inputs)
    requires LeavesStaleHash(hash, s, b, writes) && s.hashFile == hash(earlier)
    ensures SkipsWrongly(hash, BuildCacheStore(hash, s, st, b, writes).(inputs := earlier))
  {
    var t := BuildCacheStore(hash, s, st, b, writes);
    assert t.output == Some(Artifact(s.inputs)) && t.hashFile == s.hashFile;
  }

  /**
   * Any misrecording step can be turned into a wrong skip: edit the inputs back to those of the recorded
   * hash. Here `earlier` are inputs with that hash.
   */
  lemma MisrecordingMisleads(hash: Hasher, s: Snap, step: Step, earlier: Inputs)
    requires Misrecords(hash, s, step)
    requires s.hashFile == hash(earlier)
    ensures SkipsWrongly(hash, Apply(hash, Apply(hash, s, step), Edit(earlier)))
  {
    match step
    case BuildOnly(st, b, writes) =>
      StaleBuildMisleads(hash, Restored(s, st), st, b, writes, earlier);
    case BuildFull(_, fetched, st, _, b, writes) =>
      StaleBuildMisleads(hash, Restored(s.(inputs := fetched), st), st, b, writes, earlier);
    case BuildIso(b, othersOk, writes) =>
      StaleBuildMisleads(hash, s, Closed, b, othersOk && writes, earlier);
    case EnsureIso(_, b) =>
      StaleBuildMisleads(hash, s, Closed, b, false, earlier);
    case BuildIfNeeded(b, writes) =>
      StaleBuildMisleads(hash, s, Closed, b, writes, earlier);
  }

  // ----- when skipping is sound -----

  /** Whatever the inputs are changed to, a build is skipped only if it would change nothing. */
  ghost predicate SkipsSound(hash: Hasher, s: Snap) {
    forall e: Inputs :: !SkipsWrongly(hash, s.(inputs := e))
  }

  ghost predicate SkipsSoundThroughout(hash: Hasher, s: Snap, steps: seq<Step>) {
    && SkipsSound(hash, Run(hash, s, steps))
    && (steps != [] ==> SkipsSoundThroughout(hash, s, steps[..|steps| - 1]))
  }

  /** The recorded hash, if any, is that of some inputs. */
  ghost predicate HashTaken(hash: Hasher, s: Snap) {
    s.hashFile.Some? ==> exists i: Inputs :: hash(i) == s.hashFile
  }

  lemma HashAfterBuild(hash: Hasher, s: Snap, st: Store, b: Built, writes: bool)
    ensures var t := BuildCacheStore(hash, s, st, b, writes);
            t.inputs == s.inputs && (t.hashFile == s.hashFile || t.hashFile == hash(s.inputs))
  {
  }

  lemma HashAfterStep(hash: Hasher, s: Snap, step: Step)
    ensures var t := Apply(hash, s, step);
            t.hashFile == None || t.hashFile == s.hashFile || t.hashFile == hash(t.inputs)
  {
    match step
    case BuildOnly(st, b, writes) => HashAfterBuild(hash, Restored(s, st), st, b, writes);
    case BuildFull(_, fetched, st, _, b, writes) =>
      HashAfterBuild(hash, Restored(s.(inputs := fetched), st), st, b, writes);
    case BuildIfNeeded(b, writes) => HashAfterBuild(hash, s, Closed, b, writes);
    case _ =>
  }

  lemma HashTakenStep(hash: Hasher, s: Snap, step: Step)
    requires HashTaken(hash, s)
    ensures HashTaken(hash, Apply(hash, s, step))
  {
    HashAfterStep(hash, s, step);
  }

  lemma {:induction false} HashTakenThroughout(hash: Hasher, s: Snap, steps: seq<Step>)
    requires HashTaken(hash, s)
    ensures HashTaken(hash, Run(hash, s, steps))
  {
    if steps != [] {
      var before := steps[..|steps| - 1];
      HashTakenThroughout(hash, s, before);
      HashTakenStep(hash, Run(hash, s, before), steps[|steps| - 1]);
    }
  }

  lemma ConsistentSkipsSound(hash: Hasher, s: Snap)
    requires Injective(hash) && Consistent(hash, s)
    ensures SkipsSound(hash, s)
  {
    forall e: Inputs | !NeedsRebuild(hash, s.(inputs := e)) ensures UpToDate(s.(inputs := e)) {
      SkipIsSound(hash, s.(inputs := e));
    }
  }

  /** From a truthful record, skipping stays sound for all later inputs exactly when the step does not misrecord. */
  lemma StepSkipsIff(hash: Hasher, s: Snap, step: Step)
    requires Injective(hash) && Consistent(hash, s) && HashTaken(hash, s)
    ensures SkipsSound(hash, Apply(hash, s, step)) <==> !Misrecords(hash, s, step)
  {
    var t := Apply(hash, s, step);
    if Misrecords(hash, s, step) {
      var earlier: Inputs :| hash(earlier) == s.hashFile;
      MisrecordingMisleads(hash, s, step, earlier);
      assert SkipsWrongly(hash, t.(inputs := earlier));
    } else {
      StepConsistentIff(hash, s, step);
      ConsistentSkipsSound(hash, t);
    }
  }

  /**
   * Over every history of commands: after each of them, whatever the inputs become, a skipped build equals
   * a fresh one, exactly when none of the commands misrecords.
   */
  lemma {:induction false} HistorySkipsIff(hash: Hasher, s: Snap, steps: seq<Step>)
    requires Injective(hash) && Consistent(hash, s) && HashTaken(hash, s)
    ensures SkipsSoundThroughout(hash, s, steps) <==> NeverMisrecords(hash, s, steps)
  {
    if steps == [] {
      ConsistentSkipsSound(hash, s);
    } else {
      var before, last := steps[..|steps| - 1], steps[|steps| - 1];
      HistorySkipsIff(hash, s, before);
      if NeverMisrecords(hash, s, before) {
        HistoryConsistentIff(hash, s, before);
        HashTakenThroughout(hash, s, before);
        StepSkipsIff(hash, Run(hash, s, before), last);
      }
    }
  }

  // ----- wrong skips are reachable -----

  lemma RunOne(hash: Hasher, s: Snap, steps: seq<Step>, step: Step)
    ensures Run(hash, s, steps + [step]) == Apply(hash, Run(hash, s, steps), step)
  {
    assert (steps + [step])[..|steps|] == steps;
  }

  /**
   * The install initramfs, whose build the qcow2 command skips: built; edited; built again but refused by
   * the verification that follows the writing; edited back.
   */
  function RefusedBuildHistory(a: Inputs, b: Inputs): seq<Step> {
    [BuildIfNeeded(Succeeds, true), Edit(b), BuildIfNeeded(FailsWriting, true), Edit(a)]
  }

  /** A build really is skipped wrongly: the refused output stays, and a next build leaves it alone. */
  lemma WrongSkipReachable(hash: Hasher, a: Inputs, b: Inputs)
    requires hash(a).Some? && hash(a) != hash(b)
    ensures var t := Run(hash, Snap(a, None, None, map[]), RefusedBuildHistory(a, b));
            !UpToDate(t) && Apply(hash, t, BuildIfNeeded(Succeeds, true)) == t
  {
    var s, h := Snap(a, None, None, map[]), RefusedBuildHistory(a, b);
    var one, two, three := h[..1], h[..2], h[..3];
    assert one == [] + [h[0]] && two == one + [h[1]] && three == two + [h[2]] && h == three + [h[3]];
    RunOne(hash, s, [], h[0]);
    RunOne(hash, s, one, h[1]);
    RunOne(hash, s, two, h[2]);
    RunOne(hash, s, three, h[3]);
  }

  /** The rootfs: built, edited, cleaned up to the output only, and built by the run command. */
  function UnrecordedBuildHistory(a: Inputs, b: Inputs): seq<Step> {
    [BuildOnly(Closed, Succeeds, true), Edit(b), Clean(1), EnsureIso(false, Succeeds)]
  }

  /** The rootfs, which no command skips, is then reported as up to date although it is not. */
  lemma WrongReportReachable(hash: Hasher, a: Inputs, b: Inputs)
    requires hash(a).Some? && hash(a) != hash(b)
    ensures SkipsWrongly(hash, Run(hash, Snap(a, None, None, map[]), UnrecordedBuildHistory(a, b) + [Edit(a)]))
  {
    var s, h := Snap(a, None, None, map[]), UnrecordedBuildHistory(a, b);
    var one, two, three := h[..1], h[..2], h[..3];
    assert one == [] + [h[0]] && two == one + [h[1]] && three == two + [h[2]] && h == three + [h[3]];
    RunOne(hash, s, [], h[0]);
    RunOne(hash, s, one, h[1]);
    RunOne(hash, s, two, h[2]);
    RunOne(hash, s, three, h[3]);
    RunOne(hash, s, h, Edit(a));
  }

  // ----- the conditional rebuild refines the unconditional one -----

  /** A command of the conditional kind with the condition dropped. */
  function Always(step: Step): Step {
    if step.BuildIfNeeded? then BuildOnly(Closed, step.b, step.writes) else step
  }

  function AlwaysAll(steps: seq<Step>): (r: seq<Step>)
    ensures |r| == |steps|
  {
    seq(|steps|, i requires 0 <= i < |steps| => Always(steps[i]))
  }

  lemma ConditionalRefines(hash: Hasher, s: Snap, b: Built, writes: bool)
    requires Injective(hash) && Consistent(hash, s)
    requires NeedsRebuild(hash, s) || (b.Succeeds? && writes)
    ensures Apply(hash, s, BuildIfNeeded(b, writes)) == Apply(hash, s, BuildOnly(Closed, b, writes))
  {
    if !NeedsRebuild(hash, s) {
      SkipIsSound(hash, s);
    }
  }

  /** Builds work whenever they are asked for: the builder succeeds and the hash file is written. */
  ghost predicate ConditionalsWork(steps: seq<Step>) {
    forall i :: 0 <= i < |steps| && steps[i].BuildIfNeeded? ==> steps[i].b.Succeeds? && steps[i].writes
  }

  /** Skipping is unobservable: inputs, output, hash file and store end up as with a build every time. */
  lemma {:induction false} IncrementalEqualsAlways(hash: Hasher, s: Snap, steps: seq<Step>)
    requires Injective(hash) && Consistent(hash, s)
    requires NeverMisrecords(hash, s, steps) && ConditionalsWork(steps)
    ensures Run(hash, s, steps) == Run(hash, s, AlwaysAll(steps))
    ensures forall i :: 0 <= i < |steps| ==>
              AlwaysAll(steps)[i] == if steps[i].BuildIfNeeded? then BuildOnly(Closed, steps[i].b, steps[i].writes)
                                     else steps[i]
  {
    if steps != [] {
      var before, last := steps[..|steps| - 1], steps[|steps| - 1];
      IncrementalEqualsAlways(hash, s, before);
      HistoryConsistentIff(hash, s, before);
      var all := AlwaysAll(steps);
      assert all[..|all| - 1] == AlwaysAll(before);
      assert all[|all| - 1] == Always(last);
      if last.BuildIfNeeded? {
        ConditionalRefines(hash, Run(hash, s, before), last.b, last.writes);
      }
    }
  }

  /** A conditional build that works restores the agreement and leaves a current output. */
  lemma ConditionalRestores(hash: Hasher, s: Snap)
    requires Injective(hash) && Consistent(hash, s)
    ensures var t := Apply(hash, s, BuildIfNeeded(Succeeds, true));
            && UpToDate(t)
            && (hash(s.inputs).Some? ==>
                  t.hashFile == hash(s.inputs) && Consistent(hash, t) && !NeedsRebuild(hash, t))
  {
    if NeedsRebuild(hash, s) {
      BuildConsistentIff(hash, s, Closed, Succeeds, true);
    } else {
      SkipIsSound(hash, s);
    }
  }

  // ----- the round trip through the store -----

  /** A build command that works throughout, and records and stores what it has built. */
  predicate BuildsAndStores(step: Step) {
    match step
    case BuildOnly(st, b, writes) => st.Open? && st.stores && b.Succeeds? && writes
    case BuildFull(toolsOk, _, st, kernelOk, b, writes) =>
      toolsOk && kernelOk && st.Open? && st.stores && b.Succeeds? && writes
    case _ => false
  }

  /** It leaves a current output, recorded and filed under its own hash; other entries of the store stay. */
  lemma BuildIsStored(hash: Hasher, s: Snap, step: Step)
    requires BuildsAndStores(step)
    ensures var t := Apply(hash, s, step);
            && t.inputs == (if step.BuildFull? then step.fetched else s.inputs)
            && t.output == Some(Artifact(t.inputs))
            && (hash(t.inputs).Some? ==>
                  && t.hashFile == hash(t.inputs)
                  && t.store == s.store[hash(t.inputs).value := Artifact(t.inputs)])
  {
  }

  /** A command that restores and then builds nothing, or fails without touching the output. */
  predicate OnlyRestores(inputs: Inputs, step: Step) {
    match step
    case BuildOnly(st, b, _) => st.Open? && st.restores && b.FailsKeeping?
    case BuildFull(toolsOk, fetched, st, kernelOk, b, _) =>
      toolsOk && fetched == inputs && st.Open? && st.restores && (!kernelOk || b.FailsKeeping?)
    case _ => false
  }

  /** What was stored comes back: with the output removed, the next restore gives exactly the state before. */
  lemma StoreRestores(hash: Hasher, s: Snap, build: Step, restore: Step)
    requires BuildsAndStores(build)
    requires var t := Apply(hash, s, build); hash(t.inputs).Some? && OnlyRestores(t.inputs, restore)
    ensures var t := Apply(hash, s, build);
            Apply(hash, Apply(hash, t, Clean(1)), restore) == t && UpToDate(t)
  {
    var t := Apply(hash, s, build);
    BuildIsStored(hash, s, build);
    var gone := Apply(hash, t, Clean(1));
    assert gone == t.(output := None);
    assert Restored(gone, restore.st) == t;
  }
}
