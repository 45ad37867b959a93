# leviso: model and proofs

leviso builds a Linux distribution ISO. This project models the parts of it that keep state or transform
data, and proves what they are relied on for. Each Rust, shell or Rhai component has a module of its own.

- **Staging, RootfsSwap, OutputDir.** The rootfs build works on four paths (`rootfs-staging.work`,
  `filesystem.erofs.work` and the two final ones). `RootfsSwap` is its step relation, one file-system call a
  step, with a crash possible after each, with removals that fail or stop half-way (the program ignores both)
  and with renames that fail. `OutputDirectory` is the program: every call it makes is a step of that relation.
- **RebuildCache, ArtifactCache.** The input-hash cache and the artifact store, under every command that
  touches them. `RebuildCache` gives the commands as functions on states and says exactly which of them leave
  a wrong record; `Workspace` is the program.
- **RootfsLife.** The two together, call by call: swap runs, recording, storing, restoring, cleaning and edits
  of the inputs, with a crash possible after each. `LifeIsACacheHistory` is the refinement: call by call the
  cache machine keeps up, one command for each completed one, of the kind and with the end that the calls show.
- **Packages.** RPM extraction with a manifest saved only at the end.
- **BootWatcher.** The headless boot test, for every trace of lines and clock readings and every pattern list.
- **Overlay, InitScript.** What an overlay mount shows, and the init script of the live system: device probe,
  mounts, hand-off.
- **Shadow, HostKeys.** The password rewrite and the SSH host keys of VM images.
- **ModuleTree, ModuleLookup.** The recursive module copy and the copy of configured modules.
- **Grading, ServiceOps, Executor.** The compiler from services to operations, and its interpreter.
- **Text, Lists, Paths.** Splitting, joining, lines, trimming; filtered lists; paths and named files.

Code that works step by step is a class or a method with loops, tied by its contract to a function or a
relation about which the lemmas speak. `dafny verify dfyconfig.toml` checks everything.

## What the proofs found

- The claim that an interrupted build never corrupts existing artifacts holds for the image: it is always
  absent or complete (`FinalImageAlwaysGood`). The pairing of staging tree and image breaks in exactly one
  case, when removing the old image fails and the new staging tree is moved in regardless
  (`PairedThroughoutIff`), and that case is reachable (`PairingCanBreak`).
- The comment at `src/artifact/rootfs.rs:107` says that after a failed rename the new image is still in
  `.work`. That is so until the next run begins (`NewImageKeptSinceSwap`), and that run removes it first:
  some whole image survives every next run only if the final image is in place (`ImageSurvivesNextRunIff`).
- The image is good also with restores, cleaning and a store in play (`ImagesAlwaysGood`). The pairing then
  breaks in one more case: a restore beside a whole staging tree when the image stored under the recorded hash
  is another run's (`PairedAlwaysIff`). A failed rename of the image leads there (`RestoreCanUnpair`), but so do
  an unrecorded build, as by the ISO command when a later builder fails, and a clean cut short
  (`UnrecordedRunCanUnpair`).
- Skipping a build is sound, for whatever the inputs become later, after every command of a history exactly
  when no command leaves a newly written output beside a recorded hash that is not its own
  (`HistorySkipsIff`; call by call, `LifeSkipsIff`). Those that can are builders that fail after writing, a
  crash or an ignored write error before the hash is saved, unreadable inputs, the ISO command when a later
  builder fails, and the run command, which builds without recording. A wrong skip does happen: the install
  initramfs is verified after it has been written, so a build refused by that verification leaves its output,
  and once the inputs are edited back the next build is skipped (`WrongSkipReachable`).
- The shadow rewrite is idempotent exactly when no line ends in a stray carriage return (`IdempotentIff`).
- The spellings `.ko`, `.ko.xz` and `.ko.gz` of a module name agree exactly when the name itself ends in
  neither compressed suffix (`SpellingsAgreeIff`).
- The device probe selects the right device also when unmounting fails; that device is alone on `/mnt`
  exactly when the unmounts before it worked (`OnlySelectedMountedIff`). A failed bind mount of the live
  overlay is not noticed (`FailedBindIsSilent`).
- The image's init is a link by absolute path, which leads nowhere before the root is switched: the executable
  half of the test at `profile/init_tiny.template:257` never holds of it, and the boot relies on the link half
  (`ShippedImageStarts`). The last line of the script is never reached, since `exec` comes before it.
- Package builds converge whatever stops them, given package names without whitespace and a manifest that is
  empty or holds more than whitespace, as every build leaves it. As soon as one of the builds stops between
  saving the manifest and writing the version, the latter condition is exact (`RetriesConvergeIff`).
- Installing udev helpers does not depend on their order exactly when it fails, or no two files still missing
  are to go to one path with different contents (`UdevHelpersOrderFreeIff`). Links in the places of helpers can
  lead there (`DanglingOrderMatters`).
- The documentation of `test_iso` speaks of a login prompt; the code also accepts four earlier signs, and the
  model follows the code.

## Model

| member | source | states |
|---|---|---|
| Staging.PassedMeansComplete | src/artifact/rootfs.rs:173-244 | verification reports nothing missing exactly for trees that hold every required binary, bash, unit (without the filtered ones), directory and /etc file |
| Staging.VerifyStaging | src/artifact/rootfs.rs:166-256 | succeeds exactly on complete trees; the missing list is exact and in check order; passed and missing add up to the number of checks |
| Staging.MissingIsReported | src/artifact/rootfs.rs:173-244 | the report has, list by list, exactly the items whose path is absent, as often as they are listed and in order |
| RootfsSwap.InvStep | src/artifact/rootfs.rs:67-124 | every call, failure or crash keeps the invariant that ties the program's position to the four paths |
| RootfsSwap.CrashAnywhere | src/artifact/rootfs.rs:60-66 | a crash is possible after every call, and leaves the four paths as they are |
| RootfsSwap.FinalImageAlwaysGood | src/artifact/rootfs.rs:72-114 | in every reachable state of any number of runs the final image is absent or complete and made from a verified tree |
| RootfsSwap.PairedStep | src/artifact/rootfs.rs:105-114 | the one call after which staging tree and image no longer come from one build: moving the tree in past an image that could not be removed |
| RootfsSwap.PairedThroughoutIff | src/artifact/rootfs.rs:105-114 | over whole histories, staging tree and image always belong together exactly when that never happens |
| RootfsSwap.PairingCanBreak | src/artifact/rootfs.rs:105-114 | it can happen: for every list of requirements there is an execution of two runs that ends unpaired |
| RootfsSwap.RunCanSucceed | src/artifact/rootfs.rs:67-124 | from every idle state a run can end with its own pair at the final paths, for any complete tree |
| RootfsSwap.FinalsUntouchedBeforeSwap | src/artifact/rootfs.rs:60-103 | a run that stops before the swap, however it stops, leaves both final paths as they were |
| RootfsSwap.NewImageKeptSinceSwap | src/artifact/rootfs.rs:105-114 | from the start of the swap until the next run begins, the whole new image is at the work or the final path, also when a rename fails |
| RootfsSwap.ImageSurvivesNextRunIff | src/artifact/rootfs.rs:79-114 | some whole image survives whatever the next run does exactly when the final image is in place before it |
| RootfsSwap.RunEffects | src/artifact/rootfs.rs:67-124 | wherever a run stops, the final image is the old one, gone, or the whole new one |
| OutputDir.OutputDirectory.Prepare | src/artifact/rootfs.rs:79-83 | a run begins with a work directory to fill exactly if that can be made; the old work image is gone exactly if its removal works; the final paths are not touched |
| OutputDir.OutputDirectory.BuildIntoWork | src/artifact/rootfs.rs:85-103 | works exactly if a tree is staged, complete and made into an image; success leaves that pair at the work paths, failure nothing, pieces, or what a failed removal spared, never an image of this run |
| OutputDir.OutputDirectory.Swap | src/artifact/rootfs.rs:105-114 | works exactly if no whole old tree stays and both renames work; success moves exactly the new pair to the final paths, failure keeps the new image at the work path |
| OutputDir.OutputDirectory.BuildRootfs | src/artifact/rootfs.rs:67-124 | succeeds exactly if tools, directory, a complete staged tree, image, the way for the new tree and both renames are there, so always if no call fails; success leaves its own pair at the final paths, failure the old finals or the whole new image at the work path; the states passed through form one run of the step relation |
| RebuildCache.BuildConsistentIff | src/commands/build.rs:344-358 | build, record and store leave a truthful record exactly when no unrecorded output stays beside another hash |
| RebuildCache.StepConsistentIff | src/commands/build.rs:322-358 | the same for every command: full, rootfs-only, ISO and conditional builds, cleaning, input edits |
| RebuildCache.HistoryConsistentIff | src/commands/build.rs:178-195 | over every history of commands the record is truthful throughout exactly when no step misrecords |
| RebuildCache.SkipIsSound | src/rebuild.rs:28-40 | with an injective hash and a truthful record, a skip means the output is that of a fresh build |
| RebuildCache.SkipAfterHistory | src/rebuild.rs:26-48 | a skip after any history without misrecording equals a fresh build of the current inputs |
| RebuildCache.MisrecordingMisleads | src/commands/run.rs:14-33 | after any misrecording step, editing the inputs back makes the cache deny a build that is needed |
| RebuildCache.HistorySkipsIff | src/rebuild.rs:26-48 | over every history: after each command, and whatever the inputs become then, a skipped build equals a fresh one, exactly when no command misrecords |
| RebuildCache.WrongSkipReachable | src/artifact/initramfs.rs:151-155 | from an empty workspace: a build, an edit, a build refused by the verification after writing, and the edit taken back end in a state that is not current and that the conditional build leaves as it is |
| RebuildCache.WrongReportReachable | src/commands/show.rs:90-98 | the rootfs is reported up to date wrongly after build, edit, clean cut short, run, edit back |
| RebuildCache.ConditionalRefines | src/commands/build.rs:449-457 | the conditional rebuild ends in the same state as an unconditional one |
| RebuildCache.IncrementalEqualsAlways | src/commands/build.rs:449-457 | over whole histories skipping is unobservable in inputs, output, hash file and store |
| RebuildCache.ConditionalRestores | src/commands/build.rs:449-457 | a working conditional rebuild leaves a current output and restores the agreement, so that with readable inputs the next one is skipped |
| RebuildCache.BuildIsStored | src/commands/build.rs:178-195 | a rootfs-only or full build that works, records and stores leaves its output current, recorded and filed under its own hash, and no other entry changed |
| RebuildCache.StoreRestores | src/commands/build.rs:85-102 | with that output removed, the next command that restores gives back exactly the state before the removal |
| ArtifactCache.Workspace.NeedsRebuild | src/rebuild.rs:28-40 | false exactly for a present output recorded under the hash of the current inputs |
| ArtifactCache.Workspace.TryRestore | src/commands/build.rs:85-102 | never touches a present output and keeps a truthful record truthful |
| ArtifactCache.Workspace.BuildAndRecord | src/commands/build.rs:178-195 | build, record and store keep the record truthful exactly when no unrecorded output stays beside another hash |
| ArtifactCache.Workspace.BuildRootfsOnly | src/commands/build.rs:322-362 | success leaves a current output, its hash recorded if readable and written, and the store entry of the recorded hash; keeps the record truthful exactly when it does not misrecord |
| ArtifactCache.Workspace.BuildFullRootfs | src/commands/build.rs:61-196 | the rootfs part of the full build, from fetch to store: the same on success; a missing output is restored also if the kernel then fails; keeps the record truthful exactly when it does not misrecord |
| ArtifactCache.Workspace.BuildIsoOnly | src/commands/build.rs:412-434 | succeeds exactly when all builders and then the verifications and the ISO creation do; records after the builders, whatever follows; keeps the record truthful exactly when it does not misrecord |
| ArtifactCache.Workspace.EnsureIsoBuilt | src/commands/run.rs:14-33 | does nothing if the ISO is there; otherwise succeeds exactly when a missing output can be built and the rest, initramfs and ISO, works; keeps the record truthful exactly when it does not misrecord |
| ArtifactCache.Workspace.RebuildForQcow2 | src/commands/build.rs:437-457 | up to the making of the image: stops without staging tree; keeps the record truthful exactly when it does not misrecord; when building works, ends as an unconditional build would |
| ArtifactCache.Workspace.CleanRootfs | src/clean.rs:152-191 | removes the output before the hash, so stopping in between keeps the record truthful |
| ArtifactCache.Workspace.CleanOutputs | src/clean.rs:13-23 | removal of the output directory in any order and stopped anywhere is a run of removal steps and keeps the record truthful |
| RootfsLife.RunIsABuild | src/artifact/rootfs.rs:67-124 | every finished or interrupted run of the swap protocol is one of the builder outcomes of the cache machine |
| RootfsLife.SoundReached | src/commands/build.rs:322-358 | every call, crash, restore, removal and edit keeps the invariant that ties images, store, runs and inputs together |
| RootfsLife.ImagesAlwaysGood | src/artifact/rootfs.rs:60-124 | in every reachable state the image is absent or whole and made from a verified tree, and so is every stored one |
| RootfsLife.LifeIsACacheHistory | src/commands/build.rs:322-358 | every sequence of calls amounts, call by call, to a history of cache commands: one for each command completed, which ends as the calls did, gives exactly the new state and misrecords exactly when it leaves a new image beside another hash; inside a command the state is ahead by part of a build |
| RootfsLife.MisplacesIff | src/commands/build.rs:344-345 | no command leaves a new image beside another hash exactly when no step of that history misrecords |
| RootfsLife.LifeSkipsIff | src/rebuild.rs:26-48 | over all call sequences skips stay sound exactly when no command ends or crashes with a new image beside a hash that is not its own |
| RootfsLife.CrashCanMisplace | src/commands/build.rs:344-345 | that happens: a crash between the final rename and the recording is enough |
| RootfsLife.OneTreeReached | src/artifact/rootfs.rs:67-124 | in every reachable state trees and images with one run number, stored ones included, are from one tree |
| RootfsLife.PairedAlwaysIff | src/commands/build.rs:85-102 | staging tree and image always belong together exactly when no tree moves in past an old image and nothing is restored beside a whole tree while the image stored under the recorded hash has another run number |
| RootfsLife.RestoreCanUnpair | src/commands/build.rs:85-102 | the latter happens after a failed rename of the image, with everything in order just before |
| RootfsLife.UnrecordedRunCanUnpair | src/commands/build.rs:412-421 | it happens as well without any failed rename, after an unrecorded build and a clean cut short |
| Packages.SaveManifest | deps/packages.rhai:72-78 | writes a text that loads back to the same names |
| Packages.LoadSaved | deps/packages.rhai:63-78 | loading a saved manifest gives it back, for newline-free names without whitespace at the outer ends |
| Packages.LoadedIsRecordable | deps/packages.rhai:63-70 | what was loaded can be saved and loaded again, unless the file held only whitespace |
| Packages.UnpackForgets | deps/packages.rhai:241-245 | extracting a list of packages gives the same files from any two trees that agree outside those packages' paths |
| Packages.UnpackHas | deps/packages.rhai:241-245 | each path has afterwards what the last package with that path brings |
| Packages.FullBuildAfterFailure | deps/packages.rhai:210-259 | a build after one that stopped anywhere, inside an extraction or between saving manifest and version, ends as without it |
| Packages.SavedStopIff | deps/packages.rhai:258-259 | stopping between the two writes is harmless exactly when the manifest was empty or held more than whitespace |
| Packages.FullBuildSettles | deps/packages.rhai:257-259 | builds keep the manifest so, and it loads back as the old one with the new packages appended |
| Packages.RetriesConverge | deps/packages.rhai:210-259 | any number of failed builds and a success end with the files, database and manifest of one uninterrupted build |
| Packages.RetriesConvergeIff | deps/packages.rhai:210-259 | with a stop between the two last writes among them, they do exactly when the manifest was empty or held more than whitespace |
| Packages.MissingRpmIsAStop | deps/packages.rhai:229-237 | stopping at a missing RPM is one of those early stops |
| Packages.TodoAddsEachOnce | deps/packages.rhai:216-255 | a build adds each package not yet listed once, keeps the old manifest as prefix and covers the whole list |
| Packages.TodoAre | deps/packages.rhai:216-255 | extracted are exactly the packages not recorded, at their first place in the list and in its order |
| Packages.RebuildIsIdle | deps/packages.rhai:210-259 | a rerun extracts nothing and changes nothing |
| Packages.BuildIsAccepted | deps/packages.rhai:96-120 | a finished build of at least 38 distinct packages is accepted by the built check, whatever manifest it began with |
| Packages.Recipe.ExtractAll | deps/packages.rhai:216-255 | extracts what is still to do, in order, up to the first package the medium lacks |
| Packages.Recipe.Build | deps/packages.rhai:122-270 | succeeds exactly when the medium has all that is still to do; a failure names the first missing one and records nothing |
| Packages.Recipe.IsBuilt | deps/packages.rhai:96-120 | accepts exactly the current version with at least 38 entries, and otherwise says why not |
| BootWatcher.SuccessIff | src/qemu.rs:178-283 | passes exactly when the first line matching any pattern comes in time and matches a success pattern but no failure pattern; named is the first pattern of the list that it contains |
| BootWatcher.BootFailedIff | src/qemu.rs:233-249 | reports a boot failure exactly when that first line matches a failure pattern, even if it matches a success pattern as well; named is the first such pattern of the list, quoted are the last 30 lines with that one |
| BootWatcher.DeadlineKept | src/qemu.rs:179-193 | no clock check comes later than one turn after the deadline, and the watch ends there |
| BootWatcher.WatchEnds | src/qemu.rs:178-193 | a check past the deadline ends the watch, at that turn or before |
| BootWatcher.StalledIff | src/qemu.rs:195-212 | a stall is reported exactly when, undisturbed so far, more than 30 seconds pass without any line, from the beginning if none came; the stage is that of the lines received |
| BootWatcher.StageIs | src/qemu.rs:195-231 | a stage is reported exactly when a line gave its sign and none gave that of a later one |
| BootWatcher.ReceivedAre | src/qemu.rs:214-217 | the lines on which report and stage rest are exactly those that came, in order |
| BootWatcher.TimedOutIff | src/qemu.rs:178-193 | a timeout is reported exactly when, undisturbed so far, a turn begins past the deadline; it quotes the last 20 lines received |
| BootWatcher.ExitedIff | src/qemu.rs:271-283 | an exit of QEMU is reported exactly when, undisturbed so far and in time, the output is found closed; it quotes the last 20 lines received |
| BootWatcher.WatchingIff | src/qemu.rs:178-283 | the watch goes on exactly while there is no missed deadline, no long silence, no decisive line and no exit |
| BootWatcher.StallMeansSilence | src/qemu.rs:195-212 | no stall within 30 seconds of the beginning or of any line |
| BootWatcher.ReverseTakeReverse | src/qemu.rs:182-191 | reversing, taking n and reversing keeps exactly the last n lines in order |
| BootWatcher.Watch | src/qemu.rs:165-284 | the loop ends with the first decisive turn; stage and quoted lines are those of the lines received so far |
| BootWatcher.TestIso | src/qemu.rs:112-285 | the same with the shipped patterns and the timeout in seconds |
| InitScript.Init.ParseCmdline | profile/init_tiny.template:74-80 | the emergency shell is asked for exactly when the command line has that word |
| InitScript.Init.Probe | profile/init_tiny.template:117-143 | selects the first device that is a block device, mounts and has the image, whatever fails; states what is left on /mnt |
| InitScript.Init.HandOff | profile/init_tiny.template:243-272 | refuses a root in which neither an executable init nor a link by that name is found; a failed switch ends the script without a shell |
| InitScript.Init.Boot | profile/init_tiny.template:67-272 | the root is switched exactly when device, EROFS mount, overlay, init and switch all work; the image is mounted through the loop device if that can be set up and else directly; an emergency shell opens exactly when a step before the switch fails, naming it; the shell asked for on the command line is run once the device is found |
| InitScript.ReadyIff | profile/init_tiny.template:117-261 | in terms of the machine alone, everything before the switch works exactly if some device qualifies, the loop mount or, without a loop device, the direct mount works, the overlay works, and its /sbin/init passes one of the two tests |
| InitScript.StuckAre | profile/init_tiny.template:124-143 | what stays mounted below the boot medium are exactly the devices that could be mounted, are not it and could not be unmounted, in probe order |
| InitScript.OnlySelectedMountedIff | profile/init_tiny.template:124-143 | the selected device is alone on /mnt exactly when the earlier unmounts worked |
| InitScript.FailedBindIsSilent | profile/init_tiny.template:197-201 | after a failed bind mount the script ends as on a medium without live overlay, with the live layer still listed |
| Overlay.ShownIff | profile/init_tiny.template:206-213 | an entry shows exactly from the highest layer that holds it, with nothing but directories above it in higher layers |
| Overlay.LookupIsShown | profile/init_tiny.template:206-238 | looking up component by component through merged directories finds exactly that entry |
| Overlay.LowerShowsIff | profile/init_tiny.template:218-229 | the live layer always shows; a file of the image shows exactly when the live layer neither holds nor hides it |
| Overlay.TestsAre | profile/init_tiny.template:256-261 | of a path that directories lead to, one test holds exactly of links and the other, unless it is a link, exactly of executables and directories |
| InitScript.ShippedInitShowsIff | profile/init_tiny.template:256-261 | the init of the image as built shows through the live overlay exactly when that keeps usr and usr/sbin directories |
| InitScript.ShippedImageStarts | profile/init_tiny.template:256-261 | it then passes the test by its symbolic link half alone, and fails it under a file in the place of either directory |
| InitScript.ShippedImageReady | profile/init_tiny.template:206-261 | without a live overlay, or with one whose bind mount failed, it starts whenever device, EROFS mount and overlay work |
| InitScript.LinkRedirectsInit | profile/init_tiny.template:256-261 | under a link of the live overlay in the place of either directory the test becomes that of a path below the link's target |
| InitScript.FileAtSbinHidesInit | profile/init_tiny.template:256-261 | a live file in the place of sbin hides every init of the image |
| Shadow.SplitNFields | src/artifact/qcow2/config.rs:100 | splitting at most n times gives the first fields and all the others joined |
| Shadow.RewriteLineSpec | src/artifact/qcow2/config.rs:98-109 | a root record of three or more fields loses its second field and nothing else; other lines stay |
| Shadow.RewriteSpec | src/artifact/qcow2/config.rs:95-111 | for any content, line order and count are kept and each line is written rewritten so; read again, they are the same but for a carriage return at the end of a line |
| Shadow.NoRootLine | src/artifact/qcow2/config.rs:95-111 | without a root record only a missing final newline is added |
| Text.LinesCrLf | src/artifact/qcow2/config.rs:95-111 | a line that ends in CR LF is read without both |
| Shadow.IdempotentIff | src/artifact/qcow2/config.rs:95-111 | rewriting twice is rewriting once exactly when no line ends in a stray carriage return |
| Shadow.EtcDirectory.SetEmptyRootPassword | src/artifact/qcow2/config.rs:91-113 | fails without a shadow file and otherwise replaces it by its rewrite |
| HostKeys.SshDirectory.RegenerateSshKeys | src/artifact/qcow2/config.rs:201-216 | removes the host keys and nothing else, in any directory order |
| HostKeys.SshDirectory.CreateSshHostKeys | src/component/custom/etc/mod.rs:59-126 | completes every pair or fails, keeps whole pairs and all other files, so that removal afterwards undoes it |
| HostKeys.SshDirectory.MakePair | src/component/custom/etc/mod.rs:83-121 | a pair that is not whole is replaced by the one that ssh-keygen makes, or removed if it fails |
| ModuleTree.FileSystem.CopyDir | src/component/custom/modules.rs:145-164 | in any directory order: works exactly when nothing of the other kind is in the way, then merges the source and adds the number of its .ko files |
| ModuleTree.KoFilesAre | src/component/custom/modules.rs:157-159 | counted are exactly the paths at which the source has a file whose name is something followed by ".ko", at any depth |
| ModuleTree.FileSystem.CopyModulesRecursive | src/component/custom/modules.rs:129-142 | does this for the kernel subdirectory, nothing without one, and fails on a file by that name |
| ModuleTree.ConflictIff | src/component/custom/modules.rs:145-164 | in the way is exactly a file on the way to the destination, or an entry of the other kind at the place of one of the source |
| ModuleTree.CopyIsExact | src/component/custom/modules.rs:145-164 | every source file arrives with its content; what the source does not name is unchanged |
| ModuleTree.CopyTwice | src/component/custom/modules.rs:145-164 | copying again meets no conflict and changes nothing |
| ModuleTree.KoAmongMore | src/component/custom/modules.rs:157-159 | each child adds exactly its own .ko files to the count |
| ModuleLookup.SpellingsAgreeIff | src/component/custom/modules.rs:177-181 | the three spellings have one base name exactly when the name has no compressed suffix itself |
| ModuleLookup.SpellingsSelectTheSame | src/component/custom/modules.rs:177-197 | then they select the same file of any source |
| ModuleLookup.BaseIs | src/component/custom/modules.rs:177-181 | a name without module suffix is its own base name, and that of its three spellings |
| ModuleLookup.SelectIs | src/component/custom/modules.rs:183-197 | taken is the file with the first of the three suffixes, in their order, that the source has |
| ModuleLookup.FileNameIs | src/component/custom/modules.rs:188-191 | its name in the destination is what follows the last slash |
| ModuleLookup.MissingAre | src/component/custom/modules.rs:200-202 | reported missing are exactly the modules without a file, as often as configured and in order |
| ModuleLookup.NothingMissingIff | src/component/custom/modules.rs:175-202 | nothing is reported missing exactly when each module has a file under some suffix |
| ModuleLookup.InstalledHas | src/component/custom/modules.rs:187-193 | a module's file is installed with its content unless a later one has the same file name |
| ModuleLookup.OnlyInstalled | src/component/custom/modules.rs:187-193 | what has no module's file name is as before |
| ModuleLookup.ModuleDirectory.CopyFromConfig | src/component/custom/modules.rs:167-218 | copies all that is there, then succeeds or fails with the exact missing list in order |
| ServiceOps.OpsInOrder | src/component/service.rs:143-206 | directories precede everything else, unit copies precede enables, groups precede users |
| ServiceOps.RecoverOps | src/component/service.rs:140-209 | the service can be read back from its operations: nothing lost, repeated or reordered |
| ServiceOps.OpsRecover | src/component/service.rs:140-209 | every ordered list of such operations is compiled from the service read back from it |
| ServiceOps.OpsCompiled | src/component/service.rs:140-209 | what is compiled is such a list |
| ServiceOps.Ops | src/component/service.rs:140-209 | the pushing loops produce that list |
| Executor.RunConcat | src/component/executor/mod.rs:45-48 | running a concatenation is running the parts, stopping with the first failure |
| Executor.RunStopsAtFirstFailure | src/component/executor/mod.rs:35-51 | a run fails exactly when an operation fails after a prefix that passes, and ends with that operation's own effects |
| Executor.OpsRunInTurn | src/component/executor/mod.rs:45-48 | a run that succeeds has worked all operations off in turn, each on the tree the one before left |
| Executor.RunEnables | src/component/executor/systemd.rs:40-49 | enables succeed exactly when no file is in a directory's place, and then add what is missing |
| Executor.EnablesOrderFree | src/component/executor/systemd.rs:40-49 | any permutation or repetition of enables gives the same links |
| Executor.ServiceEnableOrderFree | src/component/service.rs:181-184 | installing a whole service does not depend on the order or repetition of its enable list |
| Executor.UdevHelpersOrderFree | src/component/executor/systemd.rs:74-81 | nor does installing udev helpers, unless two files still missing are to go to one path with different contents |
| Executor.UdevHelpersOrderFreeIff | src/component/executor/systemd.rs:74-81 | a list has the same outcome in every order and with any repetition exactly when it fails or meets that condition |
| Executor.DanglingOrderMatters | src/component/executor/systemd.rs:74-81 | with links in the places of two helpers to one missing file the order decides its content |
| Executor.AllMissingReported | src/component/executor/binaries.rs:37-49 | where the source tree alone decides how a copy ends: unless some copy errs, all binaries not found are reported in order, not just the first |
| Executor.NotFoundAre | src/component/executor/binaries.rs:37-49 | that list has exactly the names not found, as often as listed and in order |
| Executor.BinsOpWorksIff | src/component/executor/binaries.rs:37-49 | under the same assumption the operation works exactly if every binary is found |
| Executor.BinsCopiedInTurn | src/component/executor/binaries.rs:38-45 | without an error the tree is the one after copying all binaries in turn, whatever the copies do |
| Executor.BinsStopAtError | src/component/executor/binaries.rs:38-45 | with one, it is that after the first copy that errs, those before it having been made |
| Executor.FoundBinsAdded | src/component/executor/binaries.rs:38-45 | where copying puts a file at a path, every binary found is there afterwards unless a later one goes to the same path |
| Executor.OnlyFoundBinsAdded | src/component/executor/binaries.rs:38-45 | and all other paths are as before |
| Executor.EnablePairsAgree | src/component/mod.rs:278-285 | no two enables want different things at one path |
| Executor.Builder.HandleEnable | src/component/executor/systemd.rs:40-49 | works exactly if no entry of another kind is on the way; then the link and the directories are there, made only if missing, and nothing else has changed |
| Executor.Builder.HandleUdevHelpers | src/component/executor/systemd.rs:69-84 | copies, in order, the helpers that the source has to where their places lead, links followed, if nothing is there; on success each is there and what was there is unchanged; an error stops it |
| Executor.Builder.HandleBins | src/component/executor/binaries.rs:31-51 | goes on past missing binaries and lists them all; on success the tree is that after all copies; an error stops it |
| Executor.Builder.Execute | src/component/executor/mod.rs:35-51 | runs the list up to the first failing operation |

## Left out

- Kernel compilation and installation, the modification-time checks and the ISO, UKI and qcow2 assembly: they
  delegate to crates that are not part of this model, or are boolean formulas over those crates' answers.
- Hashing and the artifact store: `cache::hash_files` is any partial function of the inputs, injective where a
  lemma says so; the store overwrites an entry when it stores again; a restore fires only for a missing output
  with a known key, and brings the whole file or nothing. The store lies outside the output directory. Their code
  is not part of this model.
- Inputs edited while a build is running: a builder reads one version of its inputs.
- A build's output is a function of the tracked inputs; files that influence it without being tracked are
  not modelled.
- Crashes inside one file write, full disks and file permissions.
- RootfsSwap: a staging tree that is not whole may be empty or not, so moving onto it may succeed or fail;
  moving onto a whole one fails, since a verified tree is not empty.
- Packages: cpio and rpm are taken to extract and register everything, as the program ignores their exit
  codes; the package database is the set of registered names; `install`, which checks key binaries, and
  `cleanup` are not modelled.
- Text.Trim: knows space, tab, LF and CR as whitespace, not the other Unicode kinds.
- BootWatcher: the clock readings and the lines come as a finite trace, so that a watch without end is one
  whose every finite part is still watching; killing QEMU and the printing are not modelled.
- InitScript.Init.Boot: what a user does in the shell asked for on the command line is not modelled; the
  shell is passed through unchanged. The marker file and the mount points that the script itself adds to the
  new root are not part of what it shows. Kernel module loading and the waits for devices only decide facts
  that the machine description gives.
- ModuleTree: symbolic links are followed and appear as what they point to; after a failed copy, which part
  was done depends on the directory order and is not specified.
- Overlay: whiteouts and opaque directories, which neither the medium nor the image has, are not modelled; a
  link holds its target as a path from the root, worked out beforehand.
- Executor.Builder.HandleEnable: `create_symlink_if_missing` comes from a crate that is not part of this model;
  it is taken to leave any entry alone that is there already, a link that leads nowhere included.
- Executor: where a link in the helpers' directory points is an arbitrary function of its target, and so is
  whether a copy works where it leads out of the tree; a helper of the source is a regular file. Handlers whose
  code is not part of this model are arbitrary functions from state to state and verdict; symbolic links in place
  of the directories that enabling or helpers need count as blocking.
- HostKeys: the pair that ssh-keygen makes is arbitrary; a failing ssh-keygen leaves nothing behind.
- PATH and library-path updates of the host tools, preflight checks, printing, PAM and other constant file
  contents, and the download recipes: one-branch code or network access.
