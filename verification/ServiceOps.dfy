/** Declarative services and the operations they are compiled to. */
module ServiceOps {
  import opened Grading

  datatype Phase =
    | Filesystem | Binaries | Systemd | Dbus | Services | Config | Packages | Firmware | Final

  datatype Dest = Bin | Sbin

  datatype Target = MultiUser | Getty | Sockets | Sysinit

  datatype CustomOp =
    | CreateLiveOverlay | CopyWifiFirmware | CopyAllFirmware | RunDepmod | CopyModules | CreateEtcFiles
    | CopyTimezoneData | CopyLocales | CopySystemdBootEfi | CopyKeymaps | CreateWelcomeMessage | InstallTools
    | InstallStageTests | DisableSelinux | CreatePamFiles | CreateSecurityConfig | CopyRecipe
    | SetupRecipeConfig | SetupLiveSystemdConfigs | CopyDocsTui | CreateSshHostKeys

  datatype User = User(name: string, uid: nat, gid: nat, home: string, shell: string)

  datatype Group = Group(name: string, gid: nat)

  datatype Symlink = Symlink(link: string, target: string)

  datatype Op =
    | DirOp(path: string)
    | DirModeOp(path: string, mode: nat)
    | DirsOp(paths: seq<string>)
    | BinOp(bin: string, dest: Dest)
    | BinsOp(names: seq<string>, dest: Dest)
    | BashOp
    | SystemdBinariesOp(names: seq<string>)
    | SudoLibsOp(names: seq<string>)
    | CopyFileOp(path: string)
    | CopyTreeOp(path: string)
    | WriteFileOp(path: string, content: string)
    | WriteFileModeOp(path: string, content: string, mode: nat)
    | SymlinkOp(symlink: Symlink)
    | UnitsOp(names: seq<string>)
    | UserUnitsOp(names: seq<string>)
    | EnableOp(unit: string, target: Target)
    | DbusSymlinksOp(names: seq<string>)
    | UdevHelpersOp(names: seq<string>)
    | UserOp(user: User)
    | GroupOp(group: Group)
    | CustomOpOp(custom: CustomOp)

  datatype Service = Service(
    name: string, phase: Phase,
    bins: seq<string>, sbins: seq<string>,
    units: seq<string>, userUnits: seq<string>, enable: seq<(Target, string)>,
    configTrees: seq<string>, configFiles: seq<string>, dirs: seq<string>, symlinks: seq<Symlink>,
    users: seq<User>, groups: seq<Group>, custom: seq<CustomOp>)

  // ----- the compiled list, kind by kind -----

  const KINDS: nat := 12

  /** The place of an operation's kind in a compiled service; the kinds no service makes come last. */
  function Kind(op: Op): nat {
    match op
    case DirOp(_) => 0
    case BinsOp(_, Bin) => 1
    case BinsOp(_, Sbin) => 2
    case CopyTreeOp(_) => 3
    case CopyFileOp(_) => 4
    case SymlinkOp(_) => 5
    case UnitsOp(_) => 6
    case UserUnitsOp(_) => 7
    case EnableOp(_, _) => 8
    case CustomOpOp(_) => 9
    case GroupOp(_) => 10
    case UserOp(_) => 11
    case _ => KINDS
  }

  function DirOps(xs: seq<string>): (r: seq<Op>)
    ensures AllOf(Kind, r, 0)
  {
    seq(|xs|, i requires 0 <= i < |xs| => DirOp(xs[i]))
  }

  function BinsOps(xs: seq<string>, d: Dest): (r: seq<Op>)
    ensures AllOf(Kind, r, if d.Bin? then 1 else 2)
  {
    if xs == [] then [] else [BinsOp(xs, d)]
  }

  function TreeOps(xs: seq<string>): (r: seq<Op>)
    ensures AllOf(Kind, r, 3)
  {
    seq(|xs|, i requires 0 <= i < |xs| => CopyTreeOp(xs[i]))
  }

  function FileOps(xs: seq<string>): (r: seq<Op>)
    ensures AllOf(Kind, r, 4)
  {
    seq(|xs|, i requires 0 <= i < |xs| => CopyFileOp(xs[i]))
  }

  function SymlinkOps(xs: seq<Symlink>): (r: seq<Op>)
    ensures AllOf(Kind, r, 5)
  {
    seq(|xs|, i requires 0 <= i < |xs| => SymlinkOp(xs[i]))
  }

  function UnitsOps(xs: seq<string>): (r: seq<Op>)
    ensures AllOf(Kind, r, 6)
  {
    if xs == [] then [] else [UnitsOp(xs)]
  }

  function UserUnitsOps(xs: seq<string>): (r: seq<Op>)
    ensures AllOf(Kind, r, 7)
  {
    if xs == [] then [] else [UserUnitsOp(xs)]
  }

  function EnableOps(xs: seq<(Target, string)>): (r: seq<Op>)
    ensures AllOf(Kind, r, 8)
  {
    seq(|xs|, i requires 0 <= i < |xs| => EnableOp(xs[i].1, xs[i].0))
  }

  function CustomOps(xs: seq<CustomOp>): (r: seq<Op>)
    ensures AllOf(Kind, r, 9)
  {
    seq(|xs|, i requires 0 <= i < |xs| => CustomOpOp(xs[i]))
  }

  function GroupOps(xs: seq<Group>): (r: seq<Op>)
    ensures AllOf(Kind, r, 10)
  {
    seq(|xs|, i requires 0 <= i < |xs| => GroupOp(xs[i]))
  }

  function UserOps(xs: seq<User>): (r: seq<Op>)
    ensures AllOf(Kind, r, 11)
  {
    seq(|xs|, i requires 0 <= i < |xs| => UserOp(xs[i]))
  }

  function Blocks(s: Service): (r: seq<seq<Op>>)
    ensures |r| == KINDS
  {
    [ DirOps(s.dirs), BinsOps(s.bins, Bin), BinsOps(s.sbins, Sbin),
      TreeOps(s.configTrees), FileOps(s.configFiles), SymlinkOps(s.symlinks),
      UnitsOps(s.units), UserUnitsOps(s.userUnits), EnableOps(s.enable),
      CustomOps(s.custom), GroupOps(s.groups), UserOps(s.users) ]
  }

  function OpsOf(s: Service): seq<Op> {
    Flat(Blocks(s), 0)
  }

  lemma BlocksGraded(s: Service)
    ensures Graded(Kind, Blocks(s))
  {
    var b := Blocks(s);
    assert AllOf(Kind, b[0], 0) && AllOf(Kind, b[1], 1) && AllOf(Kind, b[2], 2) && AllOf(Kind, b[3], 3);
    assert AllOf(Kind, b[4], 4) && AllOf(Kind, b[5], 5) && AllOf(Kind, b[6], 6) && AllOf(Kind, b[7], 7);
    assert AllOf(Kind, b[8], 8) && AllOf(Kind, b[9], 9) && AllOf(Kind, b[10], 10) && AllOf(Kind, b[11], 11);
  }

  lemma LowerKindFirst(s: Service, i: nat, j: nat)
    requires i < |OpsOf(s)| && j < |OpsOf(s)| && Kind(OpsOf(s)[i]) < Kind(OpsOf(s)[j])
    ensures i < j
  {
    BlocksGraded(s);
    FlatOrdered(Kind, Blocks(s), 0);
    if j < i {
      OrderedAt(Kind, OpsOf(s), j, i);
    }
  }

  /** Directories come first, copied units before anything is enabled, groups before users. */
  lemma OpsInOrder(s: Service, i: nat, j: nat)
    requires i < |OpsOf(s)| && j < |OpsOf(s)|
    ensures var a, b := OpsOf(s)[i], OpsOf(s)[j];
            && (a.DirOp? && !b.DirOp? ==> i < j)
            && ((a.UnitsOp? || a.UserUnitsOp?) && b.EnableOp? ==> i < j)
            && (a.GroupOp? && b.UserOp? ==> i < j)
  {
    var a, b := OpsOf(s)[i], OpsOf(s)[j];
    if Kind(a) < Kind(b) {
      LowerKindFirst(s, i, j);
    }
  }

  // ----- nothing is lost -----

  function NamesIn(ops: seq<Op>): seq<string> {
    if ops != [] && (ops[0].BinsOp? || ops[0].UnitsOp? || ops[0].UserUnitsOp?) then ops[0].names else []
  }

  function PathsIn(ops: seq<Op>): seq<string> {
    seq(|ops|, i requires 0 <= i < |ops| =>
      if ops[i].DirOp? || ops[i].CopyTreeOp? || ops[i].CopyFileOp? then ops[i].path else "")
  }

  function SymlinksIn(ops: seq<Op>): seq<Symlink> {
    seq(|ops|, i requires 0 <= i < |ops| => if ops[i].SymlinkOp? then ops[i].symlink else Symlink("", ""))
  }

  function EnablesIn(ops: seq<Op>): seq<(Target, string)> {
    seq(|ops|, i requires 0 <= i < |ops| =>
      if ops[i].EnableOp? then (ops[i].target, ops[i].unit) else (MultiUser, ""))
  }

  function CustomsIn(ops: seq<Op>): seq<CustomOp> {
    seq(|ops|, i requires 0 <= i < |ops| => if ops[i].CustomOpOp? then ops[i].custom else CreateLiveOverlay)
  }

  function GroupsIn(ops: seq<Op>): seq<Group> {
    seq(|ops|, i requires 0 <= i < |ops| => if ops[i].GroupOp? then ops[i].group else Group("", 0))
  }

  function UsersIn(ops: seq<Op>): seq<User> {
    seq(|ops|, i requires 0 <= i < |ops| => if ops[i].UserOp? then ops[i].user else User("", 0, 0, "", ""))
  }

  function FromBlocks(name: string, phase: Phase, b: seq<seq<Op>>): Service
    requires |b| == KINDS
  {
    Service(name, phase, NamesIn(b[1]), NamesIn(b[2]), NamesIn(b[6]), NamesIn(b[7]), EnablesIn(b[8]),
            PathsIn(b[3]), PathsIn(b[4]), PathsIn(b[0]), SymlinksIn(b[5]),
            UsersIn(b[11]), GroupsIn(b[10]), CustomsIn(b[9]))
  }

  /** Reads a service back from a list of operations. */
  function Recover(name: string, phase: Phase, ops: seq<Op>): Service {
    FromBlocks(name, phase, Picks(Kind, ops, KINDS))
  }

  lemma FromBlocksOf(s: Service)
    ensures FromBlocks(s.name, s.phase, Blocks(s)) == s
  {
    assert PathsIn(DirOps(s.dirs)) == s.dirs && PathsIn(TreeOps(s.configTrees)) == s.configTrees;
    assert PathsIn(FileOps(s.configFiles)) == s.configFiles && SymlinksIn(SymlinkOps(s.symlinks)) == s.symlinks;
    assert EnablesIn(EnableOps(s.enable)) == s.enable && CustomsIn(CustomOps(s.custom)) == s.custom;
    assert GroupsIn(GroupOps(s.groups)) == s.groups && UsersIn(UserOps(s.users)) == s.users;
  }

  /** Compiling loses nothing: every declared item is there, as often as declared and in its order. */
  lemma RecoverOps(s: Service)
    ensures Recover(s.name, s.phase, OpsOf(s)) == s
  {
    BlocksGraded(s);
    var blocks := Blocks(s);
    var picks := Picks(Kind, OpsOf(s), KINDS);
    forall k: nat | k < KINDS ensures picks[k] == blocks[k] {
      PickFlat(Kind, blocks, 0, k);
    }
    assert picks == blocks;
    FromBlocksOf(s);
  }

  // ----- every such list is some service's -----

  /** At most one operation with a list of names that is not empty. */
  ghost predicate NamesOnce(ops: seq<Op>) {
    |ops| <= 1 && (ops != [] ==> NamesIn(ops) != [])
  }

  /** Lists as services make them: kinds in order, each list of names in one operation. */
  ghost predicate Compiled(ops: seq<Op>) {
    && Ordered(Kind, ops)
    && (forall i :: 0 <= i < |ops| ==> Kind(ops[i]) < KINDS)
    && NamesOnce(Pick(Kind, ops, 1)) && NamesOnce(Pick(Kind, ops, 2))
    && NamesOnce(Pick(Kind, ops, 6)) && NamesOnce(Pick(Kind, ops, 7))
  }

  /** What the compiler makes is such a list. */
  lemma OpsCompiled(s: Service)
    ensures Compiled(OpsOf(s))
  {
    BlocksGraded(s);
    FlatOrdered(Kind, Blocks(s), 0);
    FlatBelow(Kind, Blocks(s), 0);
    BlockPicked(s, 1);
    BlockPicked(s, 2);
    BlockPicked(s, 6);
    BlockPicked(s, 7);
  }

  lemma BlockPicked(s: Service, k: nat)
    requires k < KINDS
    ensures Pick(Kind, OpsOf(s), k) == Blocks(s)[k]
    ensures k in {1, 2, 6, 7} ==> NamesOnce(Blocks(s)[k])
  {
    BlocksGraded(s);
    PickFlat(Kind, Blocks(s), 0, k);
  }

  lemma {:induction false} PickIsOf(ops: seq<Op>, k: nat)
    ensures AllOf(Kind, Pick(Kind, ops, k), k)
  {
    if ops != [] {
      PickIsOf(ops[1..], k);
    }
  }

  lemma NamesBlock(ops: seq<Op>, k: nat)
    requires AllOf(Kind, ops, k) && NamesOnce(ops)
    ensures k == 1 ==> BinsOps(NamesIn(ops), Bin) == ops
    ensures k == 2 ==> BinsOps(NamesIn(ops), Sbin) == ops
    ensures k == 6 ==> UnitsOps(NamesIn(ops)) == ops
    ensures k == 7 ==> UserUnitsOps(NamesIn(ops)) == ops
  {
    if ops != [] {
      assert Kind(ops[0]) == k && ops == [ops[0]];
    }
  }

  lemma FileBlock(ops: seq<Op>, k: nat)
    requires AllOf(Kind, ops, k)
    ensures k == 0 ==> DirOps(PathsIn(ops)) == ops
    ensures k == 3 ==> TreeOps(PathsIn(ops)) == ops
    ensures k == 4 ==> FileOps(PathsIn(ops)) == ops
    ensures k == 5 ==> SymlinkOps(SymlinksIn(ops)) == ops
  {
    assert forall i :: 0 <= i < |ops| ==> Kind(ops[i]) == k;
  }

  lemma OtherBlock(ops: seq<Op>, k: nat)
    requires AllOf(Kind, ops, k)
    ensures k == 8 ==> EnableOps(EnablesIn(ops)) == ops
    ensures k == 9 ==> CustomOps(CustomsIn(ops)) == ops
    ensures k == 10 ==> GroupOps(GroupsIn(ops)) == ops
    ensures k == 11 ==> UserOps(UsersIn(ops)) == ops
  {
    assert forall i :: 0 <= i < |ops| ==> Kind(ops[i]) == k;
  }

  lemma BlocksOfRecovered(name: string, phase: Phase, b: seq<seq<Op>>)
    requires |b| == KINDS && Graded(Kind, b)
    requires NamesOnce(b[1]) && NamesOnce(b[2]) && NamesOnce(b[6]) && NamesOnce(b[7])
    ensures Blocks(FromBlocks(name, phase, b)) == b
  {
    FileBlock(b[0], 0);
    NamesBlock(b[1], 1);
    NamesBlock(b[2], 2);
    FileBlock(b[3], 3);
    FileBlock(b[4], 4);
    FileBlock(b[5], 5);
    NamesBlock(b[6], 6);
    NamesBlock(b[7], 7);
    OtherBlock(b[8], 8);
    OtherBlock(b[9], 9);
    OtherBlock(b[10], 10);
    OtherBlock(b[11], 11);
  }

  /**
   * Reading a service back and compiling it again gives the same list. With `RecoverOps` and `OpsCompiled`,
   * compiling is one-to-one between services and such lists, and onto them.
   */
  lemma OpsRecover(name: string, phase: Phase, ops: seq<Op>)
    requires Compiled(ops)
    ensures OpsOf(Recover(name, phase, ops)) == ops
  {
    var b := Picks(Kind, ops, KINDS);
    forall k | 0 <= k < KINDS ensures AllOf(Kind, b[k], k) {
      PickIsOf(ops, k);
    }
    BlocksOfRecovered(name, phase, b);
    OrderedIsFlat(Kind, ops, KINDS, 0);
  }

  // ----- the compiler -----

  method PushDirsAndBins(s: Service) returns (ops: seq<Op>)
    ensures ops == DirOps(s.dirs) + BinsOps(s.bins, Bin) + BinsOps(s.sbins, Sbin)
  {
    ops := [];
    for i := 0 to |s.dirs|
      invariant ops == DirOps(s.dirs[..i])
    {
      ops := ops + [DirOp(s.dirs[i])];
    }
    assert s.dirs[..|s.dirs|] == s.dirs;
    if s.bins != [] {
      ops := ops + [BinsOp(s.bins, Bin)];
    }
    if s.sbins != [] {
      ops := ops + [BinsOp(s.sbins, Sbin)];
    }
  }

  method PushConfig(s: Service, ops0: seq<Op>) returns (ops: seq<Op>)
    ensures ops == ops0 + (TreeOps(s.configTrees) + FileOps(s.configFiles) + SymlinkOps(s.symlinks))
  {
    ops := ops0;
    for i := 0 to |s.configTrees|
      invariant ops == ops0 + TreeOps(s.configTrees[..i])
    {
      ops := ops + [CopyTreeOp(s.configTrees[i])];
    }
    assert s.configTrees[..|s.configTrees|] == s.configTrees;
    ghost var done := ops;
    for i := 0 to |s.configFiles|
      invariant ops == done + FileOps(s.configFiles[..i])
    {
      ops := ops + [CopyFileOp(s.configFiles[i])];
    }
    assert s.configFiles[..|s.configFiles|] == s.configFiles;
    done := ops;
    for i := 0 to |s.symlinks|
      invariant ops == done + SymlinkOps(s.symlinks[..i])
    {
      ops := ops + [SymlinkOp(s.symlinks[i])];
    }
    assert s.symlinks[..|s.symlinks|] == s.symlinks;
  }

  method PushEnables(s: Service, ops0: seq<Op>) returns (ops: seq<Op>)
    ensures ops == ops0 + EnableOps(s.enable)
  {
    ops := ops0;
    for i := 0 to |s.enable|
      invariant ops == ops0 + EnableOps(s.enable[..i])
    {
      ops := ops + [EnableOp(s.enable[i].1, s.enable[i].0)];
    }
    assert s.enable[..|s.enable|] == s.enable;
  }

  method PushUnits(s: Service, ops0: seq<Op>) returns (ops: seq<Op>)
    ensures ops == ops0 + (UnitsOps(s.units) + UserUnitsOps(s.userUnits) + EnableOps(s.enable))
  {
    ops := ops0;
    if s.units != [] {
      ops := ops + [UnitsOp(s.units)];
    }
    if s.userUnits != [] {
      ops := ops + [UserUnitsOp(s.userUnits)];
    }
    assert ops == ops0 + (UnitsOps(s.units) + UserUnitsOps(s.userUnits));
    ops := PushEnables(s, ops);
    Reassociate(ops0, UnitsOps(s.units) + UserUnitsOps(s.userUnits), EnableOps(s.enable));
  }

  method PushAccounts(s: Service, ops0: seq<Op>) returns (ops: seq<Op>)
    ensures ops == ops0 + (CustomOps(s.custom) + GroupOps(s.groups) + UserOps(s.users))
  {
    ops := ops0;
    for i := 0 to |s.custom|
      invariant ops == ops0 + CustomOps(s.custom[..i])
    {
      ops := ops + [CustomOpOp(s.custom[i])];
    }
    assert s.custom[..|s.custom|] == s.custom;
    ghost var done := ops;
    for i := 0 to |s.groups|
      invariant ops == done + GroupOps(s.groups[..i])
    {
      ops := ops + [GroupOp(s.groups[i])];
    }
    assert s.groups[..|s.groups|] == s.groups;
    done := ops;
    for i := 0 to |s.users|
      invariant ops == done + UserOps(s.users[..i])
    {
      ops := ops + [UserOp(s.users[i])];
    }
    assert s.users[..|s.users|] == s.users;
  }

  lemma Regroup(a: seq<Op>, b: seq<Op>, c: seq<Op>, d: seq<Op>)
    ensures a + (b + (c + d)) == a + b + c + d
  {
  }

  lemma FlatUnrolled(b: seq<seq<Op>>)
    requires |b| == KINDS
    ensures Flat(b, 0) == (b[0] + b[1] + b[2]) + (b[3] + b[4] + b[5]) + (b[6] + b[7] + b[8]) + (b[9] + b[10] + b[11])
  {
    var files, config := b[0] + b[1] + b[2], b[3] + b[4] + b[5];
    var units, accounts := b[6] + b[7] + b[8], b[9] + b[10] + b[11];
    FlatThree(b, 0);
    FlatThree(b, 3);
    FlatThree(b, 6);
    FlatThree(b, 9);
    assert accounts + [] == accounts;
    Regroup(files, config, units, accounts);
  }

  /** The compiler; its list is in order and gives the service back. */
  method Ops(s: Service) returns (ops: seq<Op>)
    ensures ops == OpsOf(s)
    ensures Ordered(Kind, ops) && Recover(s.name, s.phase, ops) == s
  {
    ops := PushDirsAndBins(s);
    ops := PushConfig(s, ops);
    ops := PushUnits(s, ops);
    ops := PushAccounts(s, ops);
    FlatUnrolled(Blocks(s));
    BlocksGraded(s);
    FlatOrdered(Kind, Blocks(s), 0);
    RecoverOps(s);
  }
}
