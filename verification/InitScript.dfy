/** The init script of the live initramfs: probing for the boot device, mounting, hand-off. */
module InitScript {
  import opened Lists
  import opened Overlay
  import opened Paths
  import opened Text

  type Device = string

  /** Everything outside the script that decides how its commands end. */
  datatype Machine = Machine(
    devices: seq<Device>,
    block: set<Device>,            // -b holds
    mountable: set<Device>,        // mount -o ro succeeds
    hasRootfs: set<Device>,        // the rootfs image is a file on it
    umountOk: set<Device>,
    cmdline: seq<string>,
    losetupOk: bool, loopMountOk: bool, directMountOk: bool,
    base: Tree,                    // the contents of the rootfs image on the chosen device
    live: Option<Tree>,            // the live overlay directory on the chosen device
    bindOk: bool, overlayOk: bool, moveOk: bool, switchOk: bool)

  predicate Qualifies(m: Machine, d: Device) {
    d in m.block && d in m.mountable && d in m.hasRootfs
  }

  /** The first qualifying device, by position in the probe order. */
  predicate IsFirst(m: Machine, k: nat) {
    k < |m.devices| && Qualifies(m, m.devices[k]) && forall i :: 0 <= i < k ==> !Qualifies(m, m.devices[i])
  }

  /** A probed device that stays mounted because its unmount failed. */
  predicate Sticks(m: Machine, d: Device) {
    d in m.block && d in m.mountable && d !in m.hasRootfs && d !in m.umountOk
  }

  function SticksOn(m: Machine): Device -> bool {
    d => Sticks(m, d)
  }

  function Stuck(m: Machine, devices: seq<Device>): seq<Device> {
    Filter(SticksOn(m), devices)
  }

  datatype Layer = LiveLayer | BaseLayer

  datatype Via = Loop | Direct

  datatype Trouble = NoBootDevice | NoErofs | NoOverlay | NoInit

  /** After the last test the shell replaces itself, so a failed switch ends the script: no shell follows. */
  datatype Outcome = SwitchedRoot | InitExited | EmergencyShell(why: Trouble)

  /** What a layer holds; a live layer whose bind mount failed is an empty directory. */
  function Contents(m: Machine, l: Layer): Tree {
    match l
    case BaseLayer => m.base
    case LiveLayer => if m.bindOk && m.live.Some? then m.live.value else map[]
  }

  function Trees(m: Machine, layers: seq<Layer>): seq<Tree> {
    seq(|layers|, i requires 0 <= i < |layers| => Contents(m, layers[i]))
  }

  const INIT: Path := ["sbin", "init"]

  /** The init of the new root is executable or a symbolic link. */
  predicate InitStarts(layers: seq<Tree>) {
    TestX(layers, INIT) || TestL(layers, INIT)
  }

  predicate ErofsMounts(m: Machine) {
    if m.losetupOk then m.loopMountOk else m.directMountOk
  }

  function Layers(m: Machine): seq<Layer> {
    if m.live.Some? then [LiveLayer, BaseLayer] else [BaseLayer]
  }

  /** Every guarded step before the switch works out. */
  ghost predicate Ready(m: Machine) {
    (exists k: nat :: IsFirst(m, k)) && ErofsMounts(m) && m.overlayOk && InitStarts(Trees(m, Layers(m)))
  }

  class Init {
    var bootDev: Option<Device>
    var mnt: seq<Device>            // devices stacked on /mnt, the visible one last
    var cdrom: Option<Device>       // device moved to /media/cdrom of the new root
    var rootfs: Option<Via>         // how the EROFS image got mounted
    var liveBound: bool
    var layers: Option<seq<Layer>>  // lower layers of the mounted overlay, highest first
    var asked: bool                 // a shell was asked for on the command line
    var paused: bool                // that shell was run

    constructor ()
      ensures bootDev == None && mnt == [] && cdrom == None && rootfs == None && layers == None
      ensures !liveBound && !asked && !paused
    {
      bootDev, mnt, cdrom, rootfs, layers := None, [], None, None, None;
      liveBound, asked, paused := false, false, false;
    }

    method ParseCmdline(m: Machine)
      modifies `asked
      ensures asked <==> old(asked) || "emergency" in m.cmdline
    {
      for i := 0 to |m.cmdline|
        invariant asked <==> old(asked) || "emergency" in m.cmdline[..i]
      {
        if m.cmdline[i] == "emergency" {
          asked := true;
        }
      }
      assert m.cmdline[..|m.cmdline|] == m.cmdline;
    }

    /**
     * Selects the first qualifying device in probe order, whatever fails. It is on top of /mnt, above
     * exactly those earlier devices whose unmount failed; if none qualifies only such devices are there.
     */
    method Probe(m: Machine)
      requires bootDev == None && mnt == []
      modifies `bootDev, `mnt
      ensures bootDev.Some? <==> exists k: nat :: IsFirst(m, k)
      ensures forall k: nat :: IsFirst(m, k) ==>
                bootDev == Some(m.devices[k]) && mnt == Stuck(m, m.devices[..k]) + [m.devices[k]]
      ensures bootDev.None? ==> mnt == Stuck(m, m.devices)
    {
      for i := 0 to |m.devices|
        invariant bootDev == None && mnt == Stuck(m, m.devices[..i])
        invariant forall j :: 0 <= j < i ==> !Qualifies(m, m.devices[j])
      {
        var dev := m.devices[i];
        assert m.devices[..i + 1] == m.devices[..i] + [dev];
        FilterAppend(SticksOn(m), m.devices[..i], dev);
        if dev !in m.block {
          continue;
        }
        if dev !in m.mountable {
          continue;
        }
        mnt := mnt + [dev];
        if dev in m.hasRootfs {
          bootDev := Some(dev);
          assert IsFirst(m, i);
          forall k: nat | IsFirst(m, k) ensures k == i {
            FirstIsUnique(m, k, i);
          }
          return;
        }
        if dev in m.umountOk {
          mnt := mnt[..|mnt| - 1];
        }
      }
      assert m.devices[..|m.devices|] == m.devices;
    }

    /** Tries the loop device; only when that cannot be set up, a direct mount. */
    method MountErofs(m: Machine) returns (ok: bool)
      modifies `rootfs
      ensures ok <==> ErofsMounts(m)
      ensures m.losetupOk ==> (ok <==> m.loopMountOk)
      ensures !m.losetupOk ==> (ok <==> m.directMountOk)
      ensures rootfs == if !ok then old(rootfs) else if m.losetupOk then Some(Loop) else Some(Direct)
    {
      if !m.losetupOk {
        if !m.directMountOk {
          return false;
        }
        rootfs := Some(Direct);
      } else {
        if !m.loopMountOk {
          return false;
        }
        rootfs := Some(Loop);
      }
      return true;
    }

    /** The live layer is used whenever the medium carries one; whether its bind mount worked is not checked. */
    method MountOverlay(m: Machine) returns (ok: bool)
      modifies `liveBound, `layers
      ensures ok <==> m.overlayOk
      ensures layers == if ok then Some(Layers(m)) else old(layers)
      ensures ok ==> layers == Some(if m.live.Some? then [LiveLayer, BaseLayer] else [BaseLayer])
      ensures liveBound <==> old(liveBound) || (m.live.Some? && m.bindOk)
    {
      var liveOverlay := false;
      if m.live.Some? {
        if m.bindOk {
          liveBound := true;
        }
        liveOverlay := true;
      }
      if !m.overlayOk {
        return false;
      }
      layers := Some(if liveOverlay then [LiveLayer, BaseLayer] else [BaseLayer]);
      return true;
    }

    /** Both mounts; the first that fails is the trouble. */
    method Mount(m: Machine) returns (trouble: Option<Trouble>)
      modifies `rootfs, `liveBound, `layers
      ensures trouble == if !ErofsMounts(m) then Some(NoErofs) else if !m.overlayOk then Some(NoOverlay) else None
      ensures rootfs == if !ErofsMounts(m) then old(rootfs) else if m.losetupOk then Some(Loop) else Some(Direct)
      ensures layers == if trouble.None? then Some(Layers(m)) else old(layers)
      ensures liveBound <==> old(liveBound) || (ErofsMounts(m) && m.live.Some? && m.bindOk)
    {
      var ok := MountErofs(m);
      if !ok {
        return Some(NoErofs);
      }
      ok := MountOverlay(m);
      trouble := if ok then None else Some(NoOverlay);
    }

    method HandOff(m: Machine) returns (r: Outcome)
      requires bootDev.Some? && mnt != [] && mnt[|mnt| - 1] == bootDev.value && layers.Some?
      modifies `mnt, `cdrom
      ensures m.moveOk ==> cdrom == bootDev && mnt == old(mnt[..|mnt| - 1])
      ensures !m.moveOk ==> cdrom == old(cdrom) && mnt == old(mnt)
      ensures r == if !InitStarts(Trees(m, layers.value)) then EmergencyShell(NoInit)
                   else if m.switchOk then SwitchedRoot else InitExited
    {
      if m.moveOk {
        cdrom := Some(mnt[|mnt| - 1]);
        mnt := mnt[..|mnt| - 1];
      }
      var root := Trees(m, layers.value);
      if !TestX(root, INIT) && !TestL(root, INIT) {
        return EmergencyShell(NoInit);
      }
      if m.switchOk {
        return SwitchedRoot;
      }
      return InitExited;
    }

    /** The script from the chosen device on; the first failing step before the switch opens a shell. */
    method MountAndHandOff(m: Machine) returns (r: Outcome)
      requires bootDev.Some? && mnt != [] && mnt[|mnt| - 1] == bootDev.value
      requires cdrom == None && rootfs == None && layers == None
      modifies `rootfs, `liveBound, `layers, `mnt, `cdrom
      ensures r == if !ErofsMounts(m) then EmergencyShell(NoErofs)
                   else if !m.overlayOk then EmergencyShell(NoOverlay)
                   else if !InitStarts(Trees(m, Layers(m))) then EmergencyShell(NoInit)
                   else if m.switchOk then SwitchedRoot else InitExited
      ensures m.losetupOk ==> rootfs == if m.loopMountOk then Some(Loop) else None
      ensures !m.losetupOk ==> rootfs == if m.directMountOk then Some(Direct) else None
      ensures layers == if ErofsMounts(m) && m.overlayOk then Some(Layers(m)) else None
      ensures !r.EmergencyShell? ==> cdrom == if m.moveOk then bootDev else None
    {
      var trouble := Mount(m);
      if trouble.Some? {
        return EmergencyShell(trouble.value);
      }
      r := HandOff(m);
    }

    /**
     * The whole script: the root is switched exactly when every guarded step and the switch work out, and an
     * emergency shell opens exactly when a guarded step does not.
     */
    method Boot(m: Machine) returns (r: Outcome)
      requires bootDev == None && mnt == [] && cdrom == None && rootfs == None && layers == None
      requires !asked && !paused
      modifies this
      ensures r.SwitchedRoot? <==> Ready(m) && m.switchOk
      ensures bootDev.Some? && m.losetupOk ==> rootfs == if m.loopMountOk then Some(Loop) else None
      ensures bootDev.Some? && !m.losetupOk ==> rootfs == if m.directMountOk then Some(Direct) else None
      ensures bootDev.None? ==> rootfs == None
      ensures r == EmergencyShell(NoErofs) <==> bootDev.Some? && rootfs == None
      ensures r.InitExited? <==> Ready(m) && !m.switchOk
      ensures r.EmergencyShell? <==> !Ready(m)
      ensures !r.EmergencyShell? ==>
                && (exists k: nat :: IsFirst(m, k) && bootDev == Some(m.devices[k]))
                && rootfs == (if m.losetupOk then Some(Loop) else Some(Direct))
                && layers == Some(Layers(m))
                && cdrom == if m.moveOk then bootDev else None
      ensures r.EmergencyShell? ==>
                match r.why
                case NoBootDevice => !exists k: nat :: IsFirst(m, k)
                case NoErofs => bootDev.Some? && !ErofsMounts(m) && layers == None
                case NoOverlay => rootfs.Some? && !m.overlayOk && layers == None
                case NoInit => layers == Some(Layers(m)) && !InitStarts(Trees(m, Layers(m)))
      ensures paused <==> bootDev.Some? && "emergency" in m.cmdline
    {
      ParseCmdline(m);
      Probe(m);
      if bootDev.None? {
        return EmergencyShell(NoBootDevice);
      }
      ghost var k: nat :| IsFirst(m, k);
      if asked {
        paused := true;
      }
      r := MountAndHandOff(m);
    }
  }

  // ----- consequences -----

  /** At most one device is first, so the selection is a function of the facts and the probe order. */
  lemma FirstIsUnique(m: Machine, i: nat, j: nat)
    requires IsFirst(m, i) && IsFirst(m, j)
    ensures i == j
  {
  }

  lemma NothingStuckIff(m: Machine, devices: seq<Device>)
    ensures Stuck(m, devices) == [] <==> forall i :: 0 <= i < |devices| ==> !Sticks(m, devices[i])
  {
    NonePass(SticksOn(m), devices);
    assert forall i :: 0 <= i < |devices| ==> devices[i] in devices;
  }

  /** What stays mounted are exactly the devices that could be mounted, are not it and could not be unmounted. */
  lemma StuckAre(m: Machine, devices: seq<Device>)
    ensures exists at: seq<nat> ::
              && AreAt(Stuck(m, devices), devices, at)
              && (forall j, k :: 0 <= j < k < |at| ==> at[j] < at[k])
              && forall i: nat :: i < |devices| ==>
                   (i in at <==> devices[i] in m.block && devices[i] in m.mountable
                                 && devices[i] !in m.hasRootfs && devices[i] !in m.umountOk)
  {
    var at := FilterPositions(SticksOn(m), devices);
    assert forall i: nat :: i < |devices| ==> (i in at <==> Sticks(m, devices[i]));
  }

  /**
   * The selected device is the only one left on /mnt exactly when every earlier device that could be
   * mounted, but is not the boot medium, could also be unmounted.
   */
  lemma OnlySelectedMountedIff(m: Machine, k: nat)
    requires IsFirst(m, k)
    ensures Stuck(m, m.devices[..k]) + [m.devices[k]] == [m.devices[k]] <==>
              forall i :: 0 <= i < k && m.devices[i] in m.block && m.devices[i] in m.mountable
                          ==> m.devices[i] in m.umountOk
  {
    var before := m.devices[..k];
    assert Stuck(m, before) + [m.devices[k]] == [m.devices[k]] <==> Stuck(m, before) == [];
    NothingStuckIff(m, before);
    assert forall i :: 0 <= i < k ==> m.devices[i] == before[i];
    assert forall i :: 0 <= i < k ==> !Qualifies(m, m.devices[i]);
  }

  lemma TreesOf(m: Machine)
    ensures Trees(m, Layers(m)) ==
            if m.live.None? then [m.base] else if m.bindOk then [m.live.value, m.base] else [map[]] + [m.base]
  {
  }

  /** The directories stacked as lower layers of the new root, by what the medium has and the commands do. */
  function RootLayers(m: Machine): seq<Tree> {
    if m.live.None? then [m.base] else [if m.bindOk then m.live.value else map[], m.base]
  }

  /**
   * In terms of the machine alone: some device qualifies; the image is mounted through the loop device or, if
   * that cannot be set up, directly; the overlay is mounted; and its init is executable or a link.
   */
  lemma ReadyIff(m: Machine)
    ensures Ready(m) <==>
              && (exists d :: d in m.devices && d in m.block && d in m.mountable && d in m.hasRootfs)
              && ((m.losetupOk && m.loopMountOk) || (!m.losetupOk && m.directMountOk))
              && m.overlayOk
              && (TestX(RootLayers(m), ["sbin", "init"]) || TestL(RootLayers(m), ["sbin", "init"]))
  {
    TreesOf(m);
    assert [map[]] + [m.base] == [map[], m.base];
    if d :| d in m.devices && Qualifies(m, d) {
      var k := FirstOf(m, d);
    }
    if k: nat :| IsFirst(m, k) {
      assert m.devices[k] in m.devices;
    }
  }

  lemma FirstOf(m: Machine, d: Device) returns (k: nat)
    requires d in m.devices && Qualifies(m, d)
    ensures IsFirst(m, k)
  {
    k := 0;
    while !Qualifies(m, m.devices[k])
      invariant k < |m.devices| && forall i :: 0 <= i < k ==> !Qualifies(m, m.devices[i])
      invariant exists i :: k <= i < |m.devices| && m.devices[i] == d
      decreases |m.devices| - k
    {
      k := k + 1;
    }
  }

  /** A failed bind mount goes unnoticed: the script ends as it would on a medium without live overlay. */
  lemma FailedBindIsSilent(m: Machine)
    requires m.live.Some? && !m.bindOk
    ensures Ready(m) <==> Ready(m.(live := None))
    ensures LiveLayer in Layers(m)
  {
    var without := m.(live := None);
    TreesOf(m);
    TreesOf(without);
    EmptyLayerUnnoticed([m.base], INIT);
    assert forall k: nat :: IsFirst(m, k) <==> IsFirst(without, k);
  }

  // ----- the image as it is built -----

  /** `sbin` is a link into `usr`, and init a link by absolute path, which leads out of the new root. */
  ghost predicate ShippedLayout(t: Tree) {
    && WellFormed(t)
    && ["sbin"] in t && t[["sbin"]] == Link(Some(["usr", "sbin"]))
    && ["usr", "sbin", "init"] in t && t[["usr", "sbin", "init"]] == Link(None)
  }

  /** The layers show init where the image has it. */
  ghost predicate ShowsShippedInit(layers: seq<Tree>) {
    && Lookup(layers, ["sbin"]) == Some(Link(Some(["usr", "sbin"])))
    && Lookup(layers, ["usr"]) == Some(Directory)
    && Lookup(layers, ["usr", "sbin"]) == Some(Directory)
    && Lookup(layers, ["usr", "sbin", "init"]) == Some(Link(None))
  }

  lemma ResolvesToInit(layers: seq<Tree>)
    requires ShowsShippedInit(layers)
    ensures TestL(layers, INIT) && !TestX(layers, INIT)
  {
    var last := ["usr", "sbin", "init"];
    ResolveInUsr(layers, false);
    ResolveInUsr(layers, true);
    assert ([] + [INIT[0]]) == ["sbin"] && INIT[1..] == ["init"];
    assert ["usr", "sbin"] + ["init"] == last;
    assert Resolve(layers, [], INIT, false, MAX_LINKS) == Resolve(layers, [], last, false, MAX_LINKS - 1);
    assert Resolve(layers, [], INIT, true, MAX_LINKS) == Resolve(layers, [], last, true, MAX_LINKS - 1);
  }

  lemma ResolveInUsr(layers: seq<Tree>, followLast: bool)
    requires ShowsShippedInit(layers)
    ensures Resolve(layers, [], ["usr", "sbin", "init"], followLast, MAX_LINKS - 1)
         == if followLast then None else Some(["usr", "sbin", "init"])
  {
    var n := MAX_LINKS - 1;
    assert [] + ["usr"] == ["usr"] && ["usr", "sbin", "init"][1..] == ["sbin", "init"];
    assert ["usr"] + ["sbin"] == ["usr", "sbin"] && ["sbin", "init"][1..] == ["init"];
    assert ["usr", "sbin"] + ["init"] == ["usr", "sbin", "init"];
    assert Resolve(layers, ["usr", "sbin"], ["init"], followLast, n)
        == if followLast then None else Some(["usr", "sbin", "init"]);
    assert Resolve(layers, ["usr"], ["sbin", "init"], followLast, n)
        == Resolve(layers, ["usr", "sbin"], ["init"], followLast, n);
  }

  /** The live tree has neither an `sbin` nor an init of its own. */
  ghost predicate BringsNoInit(t: Tree) {
    WellFormed(t) && ["sbin"] !in t && ["usr", "sbin", "init"] !in t
  }

  lemma ShipsDirectories(t: Tree)
    requires ShippedLayout(t)
    ensures ["usr"] in t && t[["usr"]] == Directory && ["usr", "sbin"] in t && t[["usr", "sbin"]] == Directory
  {
    var p := ["usr", "sbin", "init"];
    assert p[..1] == ["usr"] && p[..2] == ["usr", "sbin"];
  }

  lemma HidesInit(t: Tree)
    ensures Hides(t, ["usr", "sbin", "init"]) <==>
              || (["usr"] in t && !t[["usr"]].Directory?)
              || (["usr", "sbin"] in t && !t[["usr", "sbin"]].Directory?)
  {
    var p := ["usr", "sbin", "init"];
    assert p[..1] == ["usr"] && p[..2] == ["usr", "sbin"];
  }

  /** The image's init shows through the live tree exactly when that keeps `usr` and `usr/sbin` directories. */
  lemma ShippedInitShowsIff(live: Tree, base: Tree)
    requires ShippedLayout(base) && BringsNoInit(live)
    ensures ShowsShippedInit([live, base]) <==> !Hides(live, ["usr", "sbin", "init"])
  {
    ShipsDirectories(base);
    HidesInit(live);
    LowerShowsIff(live, base, ["sbin"]);
    LowerShowsIff(live, base, ["usr"]);
    LowerShowsIff(live, base, ["usr", "sbin"]);
    LowerShowsIff(live, base, ["usr", "sbin", "init"]);
    assert !Hides(live, ["sbin"]) && !Hides(live, ["usr"]);
    var p := ["usr", "sbin"];
    assert Hides(live, p) <==> ["usr"] in live && !live[["usr"]].Directory? by {
      assert p[..1] == ["usr"];
    }
  }

  /** A file in the place of a directory on the way to init: neither test finds anything. */
  lemma BlockedInit(layers: seq<Tree>, followLast: bool)
    requires Lookup(layers, ["sbin"]) == Some(Link(Some(["usr", "sbin"])))
    requires Lookup(layers, ["usr"]) in {Some(Plain), Some(Executable)}
             || (Lookup(layers, ["usr"]) == Some(Directory)
                 && Lookup(layers, ["usr", "sbin"]) in {Some(Plain), Some(Executable)})
    ensures Resolve(layers, [], INIT, followLast, MAX_LINKS) == None
  {
    var n, last := MAX_LINKS - 1, ["usr", "sbin", "init"];
    assert ([] + [INIT[0]]) == ["sbin"] && INIT[1..] == ["init"];
    assert ["usr", "sbin"] + ["init"] == last && last[1..] == ["sbin", "init"];
    assert [] + ["usr"] == ["usr"] && ["usr"] + ["sbin"] == ["usr", "sbin"];
    assert Lookup(layers, ["usr"]) == Some(Directory) ==>
        Resolve(layers, ["usr"], ["sbin", "init"], followLast, n) == None;
    assert Resolve(layers, [], last, followLast, n) == None;
  }

  /**
   * The image as built, under a live overlay without an init of its own: the test before the switch passes,
   * by its symbolic link half alone, as long as the overlay hides nothing on the way; it fails when a file
   * of the overlay stands there.
   */
  lemma ShippedImageStarts(live: Tree, base: Tree)
    requires ShippedLayout(base) && BringsNoInit(live)
    ensures !Hides(live, ["usr", "sbin", "init"]) ==>
              TestL([live, base], INIT) && !TestX([live, base], INIT)
    ensures Hides(live, ["usr", "sbin", "init"])
            && (["usr"] in live ==> !live[["usr"]].Link?)
            && (["usr", "sbin"] in live ==> !live[["usr", "sbin"]].Link?) ==>
              !InitStarts([live, base])
  {
    var layers := [live, base];
    ShippedInitShowsIff(live, base);
    if !Hides(live, ["usr", "sbin", "init"]) {
      ResolvesToInit(layers);
    } else if (["usr"] in live ==> !live[["usr"]].Link?)
              && (["usr", "sbin"] in live ==> !live[["usr", "sbin"]].Link?) {
      HidesInit(live);
      ShipsDirectories(base);
      LowerShowsIff(live, base, ["sbin"]);
      LowerShowsIff(live, base, ["usr"]);
      LowerShowsIff(live, base, ["usr", "sbin"]);
      assert !Hides(live, ["sbin"]);
      assert !Hides(live, ["usr"]);
      BlockedInit(layers, false);
      BlockedInit(layers, true);
    }
  }

  /**
   * A link of the live overlay in the place of `usr` or `usr/sbin` redirects: the test is then that of a path
   * below the link's target, and nothing is found if the link leads out of the new root.
   */
  lemma LinkRedirectsInit(live: Tree, base: Tree, followLast: bool)
    requires ShippedLayout(base) && BringsNoInit(live)
    ensures var layers, usr, sbin := [live, base], ["usr"], ["usr", "sbin"];
            && (usr in live && live[usr].Link? ==>
                  Resolve(layers, [], INIT, followLast, MAX_LINKS) ==
                    if live[usr].to.None? then None
                    else Resolve(layers, [], live[usr].to.value + ["sbin", "init"], followLast, MAX_LINKS - 2))
            && (sbin in live && live[sbin].Link? ==>
                  Resolve(layers, [], INIT, followLast, MAX_LINKS) ==
                    if live[sbin].to.None? then None
                    else Resolve(layers, [], live[sbin].to.value + ["init"], followLast, MAX_LINKS - 2))
  {
    var layers, usr, sbin, last := [live, base], ["usr"], ["usr", "sbin"], ["usr", "sbin", "init"];
    ShipsDirectories(base);
    LowerShowsIff(live, base, ["sbin"]);
    LowerShowsIff(live, base, usr);
    LowerShowsIff(live, base, sbin);
    assert !Hides(live, ["sbin"]) && !Hides(live, usr);
    assert sbin in live ==> usr in live && live[usr].Directory? by {
      assert sbin[..1] == usr;
    }
    var n := MAX_LINKS - 1;
    assert [] + [INIT[0]] == ["sbin"] && INIT[1..] == ["init"] && sbin + ["init"] == last;
    assert Resolve(layers, [], INIT, followLast, MAX_LINKS) == Resolve(layers, [], last, followLast, n);
    assert [] + ["usr"] == usr && last[1..] == ["sbin", "init"];
    assert usr + ["sbin"] == sbin && ["sbin", "init"][1..] == ["init"];
  }

  lemma ShippedImageAlone(base: Tree)
    requires ShippedLayout(base)
    ensures TestL([base], INIT) && !TestX([base], INIT)
  {
    ShipsDirectories(base);
    OneLayer(base, ["sbin"]);
    OneLayer(base, ["usr"]);
    OneLayer(base, ["usr", "sbin"]);
    OneLayer(base, ["usr", "sbin", "init"]);
    ResolvesToInit([base]);
  }

  /** With no live overlay bound, the image as built is ready whenever device, EROFS mount and overlay work. */
  lemma ShippedImageReady(m: Machine)
    requires ShippedLayout(m.base) && (m.live.None? || !m.bindOk)
    ensures Ready(m) <==> (exists k: nat :: IsFirst(m, k)) && ErofsMounts(m) && m.overlayOk
  {
    ShippedImageAlone(m.base);
    EmptyLayerUnnoticed([m.base], INIT);
    TreesOf(m);
  }

  /** A file of the live overlay in the place of `sbin` hides every init below it. */
  lemma FileAtSbinHidesInit(live: Tree, base: Tree)
    requires WellFormed(live) && WellFormed(base) && ["sbin"] in live && live[["sbin"]] in {Plain, Executable}
    ensures !InitStarts([live, base])
  {
    LowerShowsIff(live, base, ["sbin"]);
    assert [] + [INIT[0]] == ["sbin"] && INIT[1..] == ["init"];
  }
}
