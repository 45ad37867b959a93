/** The commands that keep the cache of one artifact, changing its files in place. */
module ArtifactCache {
  import opened Text
  import opened RebuildCache

  /** Steps that take the output or the hash file away and do nothing else. */
  ghost predicate OnlyRemoves(steps: seq<Step>) {
    forall i :: 0 <= i < |steps| ==> steps[i] == Clean(1) || steps[i] == DropHash
  }

  class Workspace {
    const hash: Hasher
    var inputs: Inputs
    var output: Option<Artifact>
    var hashFile: Option<Hash>
    var store: map<Hash, Artifact>

    ghost function Now(): Snap
      reads this
    {
      Snap(inputs, output, hashFile, store)
    }

    constructor (hash: Hasher, inputs: Inputs)
      ensures this.hash == hash && Now() == Snap(inputs, None, None, map[])
      ensures Consistent(hash, Now())
    {
      this.hash, this.inputs := hash, inputs;
      output, hashFile, store := None, None, map[];
    }

    /** False exactly for a present output whose recorded hash is that of the readable current inputs. */
    method NeedsRebuild() returns (r: bool)
      ensures r == RebuildCache.NeedsRebuild(hash, Now())
      ensures r <==> output.None? || hash(inputs).None? || hashFile != hash(inputs)
      ensures Injective(hash) && Consistent(hash, Now()) && !r ==> UpToDate(Now())
    {
      if output.None? {
        r := true;
      } else {
        var current := hash(inputs);
        r := current.None? || hashFile != current;
      }
      if Injective(hash) && Consistent(hash, Now()) && !r {
        SkipIsSound(hash, Now());
      }
    }

    method CacheHash(writes: bool)
      modifies `hashFile
      ensures Now() == RebuildCache.CacheHash(hash, old(Now()), writes)
      ensures hashFile == if writes && hash(inputs).Some? then hash(inputs) else old(hashFile)
    {
      var current := hash(inputs);
      if current.Some? && writes {
        hashFile := current;
      }
    }

    method TryRestore(works: bool)
      modifies `output
      ensures Now() == RebuildCache.TryRestore(old(Now()), works)
      ensures Consistent(hash, old(Now())) ==> Consistent(hash, Now())
      ensures old(output).Some? ==> Now() == old(Now())
      ensures works && old(output).None? && hashFile.Some? && hashFile.value in store ==>
                output == Some(store[hashFile.value])
    {
      if works && output.None? && hashFile.Some? {
        if hashFile.value in store {
          output := Some(store[hashFile.value]);
        }
      }
    }

    method TryStore(works: bool)
      modifies `store
      ensures Now() == RebuildCache.TryStore(old(Now()), works)
      ensures store == if works && output.Some? && hashFile.Some?
                       then old(store)[hashFile.value := output.value] else old(store)
    {
      if works && output.Some? && hashFile.Some? {
        store := store[hashFile.value := output.value];
      }
    }

    method Build(b: Built)
      modifies `output
      ensures Now() == AfterBuild(old(Now()), b)
      ensures b.Succeeds? || b.FailsWriting? ==> output == Some(Artifact(inputs))
      ensures b.FailsLosing? ==> output == None
      ensures b.FailsKeeping? ==> output == old(output)
    {
      match b
      case FailsKeeping =>
      case FailsLosing => output := None;
      case FailsWriting => output := Some(Artifact(inputs));
      case Succeeds => output := Some(Artifact(inputs));
    }

    /** The build, record and store sequence that `build rootfs` and the full build share. */
    method BuildAndRecord(st: Store, b: Built, writes: bool) returns (ok: bool)
      modifies `output, `hashFile, `store
      ensures ok == b.Succeeds?
      ensures Now() == BuildCacheStore(hash, old(Now()), st, b, writes)
      ensures ok ==>
                && output == Some(Artifact(inputs))
                && hashFile == (if writes && hash(inputs).Some? then hash(inputs) else old(hashFile))
                && store == (if st.Open? && st.stores && hashFile.Some?
                             then old(store)[hashFile.value := Artifact(inputs)] else old(store))
      ensures !ok ==> hashFile == old(hashFile) && store == old(store)
      ensures Consistent(hash, old(Now())) ==>
                (Consistent(hash, Now()) <==> !LeavesStaleHash(hash, old(Now()), b, writes))
    {
      if Consistent(hash, Now()) {
        BuildConsistentIff(hash, Now(), st, b, writes);
      }
      Build(b);
      if !b.Succeeds? {
        return false;
      }
      CacheHash(writes);
      if st.Open? {
        TryStore(st.stores);
      }
      return true;
    }

    method BuildRootfsOnly(st: Store, b: Built, writes: bool) returns (ok: bool)
      modifies `output, `hashFile, `store
      ensures ok == b.Succeeds?
      ensures Now() == Apply(hash, old(Now()), BuildOnly(st, b, writes))
      ensures ok ==>
                && output == Some(Artifact(inputs))
                && hashFile == (if writes && hash(inputs).Some? then hash(inputs) else old(hashFile))
                && store == (if st.Open? && st.stores && hashFile.Some?
                             then old(store)[hashFile.value := Artifact(inputs)] else old(store))
      ensures !ok ==> hashFile == old(hashFile) && store == old(store)
      ensures Consistent(hash, old(Now())) ==>
                (Consistent(hash, Now()) <==> !Misrecords(hash, old(Now()), BuildOnly(st, b, writes)))
    {
      if Consistent(hash, Now()) {
        StepConsistentIff(hash, Now(), BuildOnly(st, b, writes));
      }
      if st.Open? {
        TryRestore(st.restores);
      }
      ok := BuildAndRecord(st, b, writes);
    }

    method BuildFullRootfs(toolsOk: bool, fetched: Inputs, st: Store, kernelOk: bool, b: Built, writes: bool)
      returns (ok: bool)
      modifies `inputs, `output, `hashFile, `store
      ensures ok <==> toolsOk && kernelOk && b.Succeeds?
      ensures Now() == Apply(hash, old(Now()), BuildFull(toolsOk, fetched, st, kernelOk, b, writes))
      ensures inputs == if toolsOk then fetched else old(inputs)
      ensures ok ==>
                && output == Some(Artifact(inputs))
                && hashFile == (if writes && hash(inputs).Some? then hash(inputs) else old(hashFile))
                && store == (if st.Open? && st.stores && hashFile.Some?
                             then old(store)[hashFile.value := Artifact(inputs)] else old(store))
      ensures !ok ==> hashFile == old(hashFile) && store == old(store)
      ensures (toolsOk && !kernelOk && st.Open? && st.restores && old(output).None?
               && hashFile.Some? && hashFile.value in store) ==> output == Some(store[hashFile.value])
      ensures Consistent(hash, old(Now())) ==>
                (Consistent(hash, Now())
                 <==> !Misrecords(hash, old(Now()), BuildFull(toolsOk, fetched, st, kernelOk, b, writes)))
    {
      if Consistent(hash, Now()) {
        StepConsistentIff(hash, Now(), BuildFull(toolsOk, fetched, st, kernelOk, b, writes));
      }
      if !toolsOk {
        return false;
      }
      inputs := fetched;
      if st.Open? {
        TryRestore(st.restores);
      }
      if !kernelOk {
        return false;
      }
      ok := BuildAndRecord(st, b, writes);
    }

    /** `isoOk` tells how the verifications and the ISO creation end that follow the recording. */
    method BuildIsoOnly(b: Built, othersOk: bool, writes: bool, isoOk: bool) returns (ok: bool)
      modifies `output, `hashFile
      ensures ok <==> b.Succeeds? && othersOk && isoOk
      ensures Now() == Apply(hash, old(Now()), BuildIso(b, othersOk, writes))
      ensures b.Succeeds? ==> output == Some(Artifact(inputs))
      ensures hashFile == if b.Succeeds? && othersOk && writes && hash(inputs).Some? then hash(inputs)
                          else old(hashFile)
      ensures Consistent(hash, old(Now())) ==>
                (Consistent(hash, Now()) <==> !Misrecords(hash, old(Now()), BuildIso(b, othersOk, writes)))
    {
      if Consistent(hash, Now()) {
        StepConsistentIff(hash, Now(), BuildIso(b, othersOk, writes));
      }
      Build(b);
      if !b.Succeeds? || !othersOk {
        return false;
      }
      CacheHash(writes);
      return isoOk;
    }

    /** `isoOk` tells how the other builder and the ISO creation end. */
    method EnsureIsoBuilt(isoThere: bool, b: Built, isoOk: bool) returns (ok: bool)
      modifies `output
      ensures ok <==> isoThere || ((old(output).Some? || b.Succeeds?) && isoOk)
      ensures Now() == Apply(hash, old(Now()), EnsureIso(isoThere, b))
      ensures isoThere || old(output).Some? ==> output == old(output)
      ensures !isoThere && old(output).None? && b.Succeeds? ==> output == Some(Artifact(inputs))
      ensures Consistent(hash, old(Now())) ==>
                (Consistent(hash, Now()) <==> !Misrecords(hash, old(Now()), EnsureIso(isoThere, b)))
    {
      if Consistent(hash, Now()) {
        StepConsistentIff(hash, Now(), EnsureIso(isoThere, b));
      }
      if isoThere {
        return true;
      }
      if output.None? {
        Build(b);
        if !b.Succeeds? {
          return false;
        }
      }
      return isoOk;
    }

    /** The conditional rebuild of the qcow2 command, which has a guard of its own first. */
    method RebuildForQcow2(stagingThere: bool, b: Built, writes: bool) returns (ok: bool)
      modifies `output, `hashFile, `store
      ensures !stagingThere ==> !ok && Now() == old(Now())
      ensures stagingThere ==> Now() == Apply(hash, old(Now()), BuildIfNeeded(b, writes))
      ensures stagingThere ==>
                var needed := old(output).None? || hash(inputs).None? || old(hashFile) != hash(inputs);
                && (ok <==> !needed || b.Succeeds?)
                && (!needed ==> Now() == old(Now()))
                && (needed && ok ==>
                      && output == Some(Artifact(inputs))
                      && hashFile == if writes && hash(inputs).Some? then hash(inputs) else old(hashFile))
      ensures stagingThere && Consistent(hash, old(Now())) ==>
                (Consistent(hash, Now()) <==> !Misrecords(hash, old(Now()), BuildIfNeeded(b, writes)))
      ensures stagingThere && Injective(hash) && Consistent(hash, old(Now())) && b.Succeeds? && writes ==>
                ok && UpToDate(Now()) && Now() == Apply(hash, old(Now()), BuildOnly(Closed, b, writes))
    {
      if !stagingThere {
        return false;
      }
      if Consistent(hash, Now()) {
        StepConsistentIff(hash, Now(), BuildIfNeeded(b, writes));
      }
      if Injective(hash) && Consistent(hash, Now()) && b.Succeeds? && writes {
        ConditionalRefines(hash, Now(), b, writes);
        ConditionalRestores(hash, Now());
      }
      var needed := NeedsRebuild();
      if needed {
        ok := BuildAndRecord(Closed, b, writes);
      } else {
        ok := true;
      }
    }

    /** Removal of the output, then of the hash file; an error at either stops the command there. */
    method CleanRootfs(outputGoes: bool, hashGoes: bool) returns (ok: bool)
      modifies `output, `hashFile
      ensures exists n :: 0 <= n <= 2 && Now() == Apply(hash, old(Now()), Clean(n))
      ensures ok ==> Now() == Apply(hash, old(Now()), Clean(2)) && output == None && hashFile == None
      ensures outputGoes && hashGoes ==> ok
      ensures Consistent(hash, old(Now())) ==> Consistent(hash, Now())
    {
      ghost var s := Now();
      if output.Some? {
        if !outputGoes {
          assert Now() == Apply(hash, s, Clean(0));
          return false;
        }
        output := None;
      }
      assert Now() == Apply(hash, s, Clean(1));
      if hashFile.Some? {
        if !hashGoes {
          return false;
        }
        hashFile := None;
      }
      assert Now() == Apply(hash, s, Clean(2));
      return true;
    }

    /**
     * Removal of the whole output directory: its files go in any order, and it may stop anywhere. `removals`
     * are those of the output and of the hash file that took place.
     */
    method CleanOutputs(removals: seq<Step>)
      requires OnlyRemoves(removals)
      modifies `output, `hashFile
      ensures Now() == Run(hash, old(Now()), removals)
      ensures output == (if Clean(1) in removals then None else old(output))
      ensures hashFile == (if DropHash in removals then None else old(hashFile))
      ensures Consistent(hash, old(Now())) ==> Consistent(hash, Now())
    {
      ghost var s := Now();
      for i := 0 to |removals|
        invariant Now() == Run(hash, s, removals[..i])
        invariant output == if Clean(1) in removals[..i] then None else s.output
        invariant hashFile == if DropHash in removals[..i] then None else s.hashFile
      {
        RunOne(hash, s, removals[..i], removals[i]);
        assert removals[..i + 1] == removals[..i] + [removals[i]];
        if removals[i].DropHash? {
          hashFile := None;
        } else {
          output := None;
        }
      }
      assert removals[..|removals|] == removals;
    }
  }
}
