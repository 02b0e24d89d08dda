/** Files in directories. Elsewhere a disk is a map from paths to bytes; here a file and a directory cannot
    share a name, and that decides whether an operation gets through. */
module FileTree {
  import opened Base
  import opened SyncOps
  import opened Drives
  import opened CrashSafety
  import opened Executor
  import opened ConflictResolver
  import opened RenameDetection
  import opened PlanRules
  import opened PlanOrder
  import opened SyncPlanner
  import opened PlanProperties
  import opened Burial
  import opened Convergence
  import opened PlanMeaning

  /** The drives with the directories that exist on each. */
  datatype Tree = Tree(fleet: Fleet, dirs: map<DriveId, set<Path>>)

  predicate WellRooted(t: Tree) {
    t.dirs.Keys == t.fleet.Keys
  }

  /** No name is both a file and a directory, and what is above a file is a directory. */
  ghost predicate IsTree(t: Tree) {
    WellRooted(t) && forall d, p :: d in t.fleet ==> Stands(t.fleet[d].disk, t.dirs[d], p)
  }

  ghost predicate Stands(disk: map<Path, Bytes>, dirs: set<Path>, p: Path) {
    p in disk ==> p !in dirs && Above(p) <= dirs
  }

  function Above(p: Path): set<Path> {
    set a | a in AncestorDirs(p)
  }

  /** No file stands where a directory above the path is to be. */
  predicate CanReach(t: Tree, d: DriveId, p: Path)
    requires d in t.fleet
  {
    forall a :: a in AncestorDirs(p) ==> a !in t.fleet[d].disk
  }

  /** No file can be put at the path. */
  predicate Blocked(t: Tree, d: DriveId, p: Path)
    requires WellRooted(t) && d in t.fleet
  {
    !CanReach(t, d, p) || p in t.dirs[d]
  }

  /** What stands in the way of putting a file at the path. */
  function Obstacle(t: Tree, d: DriveId, p: Path): Fault
    requires WellRooted(t) && d in t.fleet
  {
    if !CanReach(t, d, p) then DirFails else if p in t.dirs[d] then RenameFails else NoFault
  }

  /** The fault that the file tree itself is to an operation. */
  function TreeFault(t: Tree, op: SyncOp): Fault
    requires WellRooted(t)
  {
    if op.target !in t.fleet then NoFault
    else match op.kind
      case MKDIR => if CanReach(t, op.target, op.path) && op.path !in t.fleet[op.target].disk then NoFault else DirFails
      case COPY => Obstacle(t, op.target, op.path)
      case REPLACE => Obstacle(t, op.target, op.path)
      case RENAME => if op.newPath.Some? then Obstacle(t, op.target, op.newPath.value) else NoFault
      case REMOVE => NoFault
  }

  /** Nothing stands below the directory. */
  predicate IsEmpty(t: Tree, d: DriveId, p: Path)
    requires d in t.fleet && d in t.dirs
  {
    && (forall q :: q in t.fleet[d].disk ==> p !in AncestorDirs(q))
    && (forall q :: q in t.dirs[d] ==> p !in AncestorDirs(q))
  }

  /** The directories on the target after an operation: those above a new file are made before anything
      else can fail, and removing takes an empty directory too. */
  function DirsAfter(h: Bytes -> Digest, t: Tree, op: SyncOp): set<Path>
    requires WellRooted(t) && op.target in t.fleet
  {
    var d, dirs := op.target, t.dirs[op.target];
    match op.kind
    case MKDIR => if TreeFault(t, op) == NoFault then dirs + Above(op.path) + {op.path} else dirs
    case COPY => if CanCopy(h, t.fleet, op) && CanReach(t, d, op.path) then dirs + Above(op.path) else dirs
    case REPLACE => if CanCopy(h, t.fleet, op) && CanReach(t, d, op.path) then dirs + Above(op.path) else dirs
    case RENAME =>
      if op.newPath.Some? && CanReach(t, d, op.newPath.value) then dirs + Above(op.newPath.value) else dirs
    case REMOVE => if op.path in dirs && IsEmpty(t, d, op.path) then dirs - {op.path} else dirs
  }

  /** One operation on the file tree. */
  function TreeStep(h: Bytes -> Digest, t: Tree, op: SyncOp): (t': Tree)
    requires WellRooted(t)
    ensures WellRooted(t')
  {
    if op.target !in t.fleet then t
    else Tree(Suffered(h, t.fleet, op, TreeFault(t, op)), t.dirs[op.target := DirsAfter(h, t, op)])
  }

  function TreeRun(h: Bytes -> Digest, t: Tree, ops: seq<SyncOp>): (t': Tree)
    requires WellRooted(t)
    ensures WellRooted(t')
  {
    if ops == [] then t else TreeStep(h, TreeRun(h, t, ops[..|ops| - 1]), ops[|ops| - 1])
  }

  lemma NotAboveItself(p: Path)
    ensures p !in Above(p)
  {
    if p in AncestorDirs(p) {
      AncestorsAreAbove(p, p);
    }
  }

  /** A tree stays a tree, whatever is done to it. */
  lemma StepKeepsTree(h: Bytes -> Digest, t: Tree, op: SyncOp)
    requires IsTree(t)
    ensures IsTree(TreeStep(h, t, op))
  {
    hide OutcomeOf;
    hide TreeFault;
    hide DirsAfter;
    hide Stands;
    if op.target in t.fleet {
      var d := op.target;
      forall p
        ensures Stands(OutcomeOf(h, t.fleet, op, TreeFault(t, op)).replica.disk, DirsAfter(h, t, op), p)
      {
        assert Stands(t.fleet[d].disk, t.dirs[d], p);
        if op.kind == REMOVE {
          RemovedKeeps(h, t, op, p);
        } else if op.kind == MKDIR {
          MadeKeeps(h, t, op, p);
        } else if op.kind == RENAME {
          RenamedKeeps(h, t, op, p);
        } else {
          CopiedKeeps(h, t, op, p);
        }
      }
    }
  }

  lemma RemovedKeeps(h: Bytes -> Digest, t: Tree, op: SyncOp, p: Path)
    requires WellRooted(t) && op.kind == REMOVE && op.target in t.fleet
    requires Stands(t.fleet[op.target].disk, t.dirs[op.target], p)
    ensures Stands(OutcomeOf(h, t.fleet, op, TreeFault(t, op)).replica.disk, DirsAfter(h, t, op), p)
  {
  }

  lemma MadeKeeps(h: Bytes -> Digest, t: Tree, op: SyncOp, p: Path)
    requires WellRooted(t) && op.kind == MKDIR && op.target in t.fleet
    requires Stands(t.fleet[op.target].disk, t.dirs[op.target], p)
    ensures Stands(OutcomeOf(h, t.fleet, op, TreeFault(t, op)).replica.disk, DirsAfter(h, t, op), p)
  {
  }

  lemma CopiedKeeps(h: Bytes -> Digest, t: Tree, op: SyncOp, p: Path)
    requires WellRooted(t) && op.kind in {COPY, REPLACE} && op.target in t.fleet
    requires Stands(t.fleet[op.target].disk, t.dirs[op.target], p)
    ensures Stands(OutcomeOf(h, t.fleet, op, TreeFault(t, op)).replica.disk, DirsAfter(h, t, op), p)
  {
    NotAboveItself(op.path);
  }

  lemma RenamedKeeps(h: Bytes -> Digest, t: Tree, op: SyncOp, p: Path)
    requires WellRooted(t) && op.kind == RENAME && op.target in t.fleet
    requires Stands(t.fleet[op.target].disk, t.dirs[op.target], p)
    ensures Stands(OutcomeOf(h, t.fleet, op, TreeFault(t, op)).replica.disk, DirsAfter(h, t, op), p)
  {
    hide RenamedManifest;
    if op.newPath.Some? {
      NotAboveItself(op.newPath.value);
    }
  }

  lemma {:induction false} RunKeepsTree(h: Bytes -> Digest, t: Tree, ops: seq<SyncOp>)
    requires IsTree(t)
    ensures IsTree(TreeRun(h, t, ops))
  {
    hide IsTree;
    hide TreeStep;
    TreeIsRooted(t);
    if ops != [] {
      RunKeepsTree(h, t, ops[..|ops| - 1]);
      StepKeepsTree(h, TreeRun(h, t, ops[..|ops| - 1]), ops[|ops| - 1]);
    }
  }

  lemma TreeIsRooted(t: Tree)
    requires IsTree(t)
    ensures WellRooted(t)
  {
  }

  /** Where nothing is in the way, an operation does on the tree what it does on a flat disk. */
  lemma UnhinderedStep(h: Bytes -> Digest, t: Tree, op: SyncOp)
    requires WellRooted(t) && (op.kind == MKDIR || TreeFault(t, op) == NoFault)
    ensures TreeStep(h, t, op).fleet == Applied(h, t.fleet, op)
  {
    hide Applied;
    hide DirsAfter;
    if op.kind == MKDIR {
      DirChangesNothing(h, t.fleet, op);
      MkDirKeepsFleet(h, t, op);
    } else {
      NoFaultNoLoss(h, t.fleet, op);
    }
  }

  lemma MkDirKeepsFleet(h: Bytes -> Digest, t: Tree, op: SyncOp)
    requires WellRooted(t) && op.kind == MKDIR
    ensures TreeStep(h, t, op).fleet == t.fleet
  {
    assert op.target in t.fleet ==> t.fleet[op.target := t.fleet[op.target]] == t.fleet;
  }

  // ----- Operations that are blocked --------------------------------------------------------

  /** The operation is to put a file where none can be put. */
  predicate IsBlocked(t: Tree, op: SyncOp)
    requires WellRooted(t)
  {
    op.target in t.fleet && Destination(op).Some? && Blocked(t, op.target, Destination(op).value)
  }

  /** The operations but for those that are blocked at the start. */
  function Through(t: Tree, ops: seq<SyncOp>): seq<SyncOp>
    requires WellRooted(t)
  {
    if ops == [] then []
    else
      var front, op := Through(t, ops[..|ops| - 1]), ops[|ops| - 1];
      if IsBlocked(t, op) then front else front + [op]
  }

  lemma {:induction false} ThroughMembers(t: Tree, ops: seq<SyncOp>)
    requires WellRooted(t)
    ensures forall op :: op in Through(t, ops) <==> op in ops && !IsBlocked(t, op)
  {
    hide IsBlocked;
    if ops != [] {
      ThroughMembers(t, ops[..|ops| - 1]);
      assert forall op :: op in ops <==> op in ops[..|ops| - 1] || op == ops[|ops| - 1];
    }
  }

  lemma ThroughOne(t: Tree, done: seq<SyncOp>, op: SyncOp)
    requires WellRooted(t)
    ensures Through(t, done + [op]) == if IsBlocked(t, op) then Through(t, done) else Through(t, done) + [op]
  {
    assert (done + [op])[..|done|] == done;
  }

  lemma {:induction false} AllThrough(t: Tree, ops: seq<SyncOp>)
    requires WellRooted(t) && forall op :: op in ops ==> !IsBlocked(t, op)
    ensures Through(t, ops) == ops
  {
    hide IsBlocked;
    if ops != [] {
      assert ops[|ops| - 1] in ops && forall op :: op in ops[..|ops| - 1] ==> op in ops;
      AllThrough(t, ops[..|ops| - 1]);
    }
  }

  lemma NowhereToGo(t: Tree, op: SyncOp)
    requires WellRooted(t)
    ensures Destination(op).None? ==> !IsBlocked(t, op)
  {
    hide Blocked;
  }

  /** A file above the new name, or a directory of that name, and nothing is written: if there is no
      stale tmp file, the drives are as they were. */
  lemma BlockedChangesNothing(h: Bytes -> Digest, t: Tree, op: SyncOp)
    requires WellRooted(t) && IsBlocked(t, op)
    requires op.kind == COPY ==> Tmp(op.path) !in t.fleet[op.target].disk
    ensures TreeStep(h, t, op).fleet == t.fleet && !Reports(h, t.fleet, op, TreeFault(t, op))
  {
    var r := t.fleet[op.target];
    assert r.disk - {Tmp(op.path)} == r.disk || op.kind != COPY;
    assert Replica(r.disk, r.manifest) == r;
    assert t.fleet[op.target := r] == t.fleet;
  }

  // ----- Where no live path is above another ------------------------------------------------

  /** Among these paths, none is above another. */
  ghost predicate Antichain(live: set<Path>) {
    forall p, q :: p in live && q in live ==> p !in AncestorDirs(q)
  }

  /** All files are at these paths. */
  ghost predicate FilesIn(live: set<Path>, t: Tree) {
    forall d, p :: d in t.fleet && p in t.fleet[d].disk ==> p in live
  }

  /** All files are at these paths, and none of them is a directory anywhere. */
  ghost predicate FilesAt(live: set<Path>, t: Tree) {
    WellRooted(t) && FilesIn(live, t) && forall d, p :: d in t.dirs && p in t.dirs[d] ==> p !in live
  }

  /** All files are at these paths, and the same of them are directories as in `t`. */
  ghost predicate LikeAt(live: set<Path>, t: Tree, u: Tree)
    requires WellRooted(t)
  {
    && WellRooted(u) && FilesIn(live, u) && u.fleet.Keys == t.fleet.Keys
    && forall d, p :: d in t.fleet && p in live ==> (p in u.dirs[d] <==> p in t.dirs[d])
  }

  /** The operation makes files only at these paths, and directories only above them. */
  ghost predicate KeepsTo(live: set<Path>, op: SyncOp) {
    if op.kind == MKDIR then exists q :: q in live && op.path in AncestorDirs(q)
    else op.path in live && (Destination(op).Some? ==> Destination(op).value in live)
  }

  /** It does, it replaces or removes no directory, and no path is another one's tmp file. */
  ghost predicate Suits(live: set<Path>, t: Tree, op: SyncOp)
    requires WellRooted(t)
  {
    && KeepsTo(live, op)
    && (op.kind in {REPLACE, REMOVE} && op.target in t.fleet ==> op.path !in t.dirs[op.target])
    && (op.kind == COPY && IsBlocked(t, op) ==> Tmp(op.path) !in live)
  }

  lemma AboveIsNotLive(live: set<Path>, p: Path)
    requires Antichain(live)
    ensures p in live ==> forall a :: a in Above(p) ==> a !in live
    ensures (exists q :: q in live && p in AncestorDirs(q)) ==> p !in live && forall a :: a in Above(p) ==> a !in live
  {
    if q :| q in live && p in AncestorDirs(q) {
      forall a | a in AncestorDirs(p)
        ensures a in AncestorDirs(q)
      {
        AncestorsChain(q, p, a);
      }
    }
  }

  /** At these paths, nothing but a directory is in the way. */
  lemma OnlyDirsBlock(live: set<Path>, t: Tree, d: DriveId, p: Path)
    requires Antichain(live) && WellRooted(t) && FilesIn(live, t) && d in t.fleet && p in live
    ensures CanReach(t, d, p) && (Blocked(t, d, p) <==> p in t.dirs[d])
  {
    forall a | a in AncestorDirs(p)
      ensures a !in live
    {
    }
  }

  lemma StepOnLive(h: Bytes -> Digest, live: set<Path>, t: Tree, u: Tree, op: SyncOp)
    requires Antichain(live) && WellRooted(t) && FilesIn(live, t) && LikeAt(live, t, u) && Suits(live, t, op)
    ensures TreeStep(h, u, op).fleet == if IsBlocked(t, op) then u.fleet else Applied(h, u.fleet, op)
    ensures LikeAt(live, t, TreeStep(h, u, op))
  {
    hide Antichain;
    hide TreeStep;
    hide Applied;
    hide Blocked;
    hide KeepsTo;
    KeptPaths(live, op);
    if op.target in t.fleet {
      if op.path in live {
        OnlyDirsBlock(live, u, op.target, op.path);
        OnlyDirsBlock(live, t, op.target, op.path);
      }
      if Destination(op).Some? {
        OnlyDirsBlock(live, u, op.target, Destination(op).value);
        OnlyDirsBlock(live, t, op.target, Destination(op).value);
      }
    }
    DirsStay(h, live, t, u, op);
    StepKeys(h, u, op);
    if IsBlocked(t, op) {
      BlockedChangesNothing(h, u, op);
    } else {
      GetsThrough(live, u, op);
      UnhinderedStep(h, u, op);
      FilesStay(h, live, u.fleet, op);
    }
  }

  /** What is above a path that is worked on is none of these paths. */
  lemma KeptPaths(live: set<Path>, op: SyncOp)
    requires Antichain(live) && KeepsTo(live, op)
    ensures op.kind == MKDIR <==> op.path !in live
    ensures forall a :: a in Above(op.path) ==> a !in live
    ensures Destination(op).Some? ==>
      Destination(op).value in live && forall a :: a in Above(Destination(op).value) ==> a !in live
  {
    hide Antichain;
    hide Above;
    AboveIsNotLive(live, op.path);
    if Destination(op).Some? {
      AboveIsNotLive(live, Destination(op).value);
    }
  }

  lemma GetsThrough(live: set<Path>, u: Tree, op: SyncOp)
    requires WellRooted(u) && !IsBlocked(u, op) && (op.kind != MKDIR ==> op.path in live)
    requires op.kind == REPLACE && op.target in u.fleet ==> !Blocked(u, op.target, op.path)
    ensures op.kind == MKDIR || TreeFault(u, op) == NoFault
  {
  }

  lemma StepKeys(h: Bytes -> Digest, u: Tree, op: SyncOp)
    requires WellRooted(u)
    ensures TreeStep(h, u, op).fleet.Keys == u.fleet.Keys == TreeStep(h, u, op).dirs.Keys
  {
    hide OutcomeOf;
    hide DirsAfter;
    hide TreeFault;
  }

  /** New directories are above the paths, and so are none of them. */
  lemma DirsStay(h: Bytes -> Digest, live: set<Path>, t: Tree, u: Tree, op: SyncOp)
    requires WellRooted(t) && LikeAt(live, t, u) && (op.kind == MKDIR <==> op.path !in live)
    requires op.kind in {REPLACE, REMOVE} && op.target in t.fleet ==> op.path !in t.dirs[op.target]
    requires forall a :: a in Above(op.path) ==> a !in live
    requires Destination(op).Some? ==> forall a :: a in Above(Destination(op).value) ==> a !in live
    ensures TreeStep(h, u, op).dirs.Keys == u.dirs.Keys
    ensures forall d, p :: d in t.fleet && p in live ==> (p in TreeStep(h, u, op).dirs[d] <==> p in t.dirs[d])
  {
    hide Suffered;
    hide Above;
    hide CanCopy;
    hide CanReach;
    hide IsEmpty;
    hide TreeFault;
    hide FilesIn;
  }

  lemma FilesStay(h: Bytes -> Digest, live: set<Path>, f: Fleet, op: SyncOp)
    requires KeepsTo(live, op)
    requires forall d, p :: d in f && p in f[d].disk ==> p in live
    ensures Applied(h, f, op).Keys == f.Keys
    ensures forall d, p :: d in f && p in Applied(h, f, op)[d].disk ==> p in live
  {
    hide RenamedManifest;
  }

  lemma {:induction false} RunOnLive(h: Bytes -> Digest, live: set<Path>, t: Tree, ops: seq<SyncOp>)
    requires Antichain(live) && WellRooted(t) && FilesIn(live, t) && forall op :: op in ops ==> Suits(live, t, op)
    ensures TreeRun(h, t, ops).fleet == ApplyAll(h, t.fleet, Through(t, ops)) && LikeAt(live, t, TreeRun(h, t, ops))
  {
    hide Antichain;
    hide FilesIn;
    hide LikeAt;
    hide Suits;
    hide IsBlocked;
    hide TreeStep;
    hide Applied;
    if ops == [] {
      LikeItself(live, t);
    } else {
      var front, op := ops[..|ops| - 1], ops[|ops| - 1];
      assert op in ops && forall x :: x in front ==> x in ops;
      RunOnLive(h, live, t, front);
      StepOnLive(h, live, t, TreeRun(h, t, front), op);
      ApplyLast(h, t.fleet, Through(t, front), op);
    }
  }

  lemma LikeItself(live: set<Path>, t: Tree)
    requires WellRooted(t) && FilesIn(live, t)
    ensures LikeAt(live, t, t)
  {
  }

  lemma PlanKeepsToLive(ms: Manifests, res: seq<Resolution>, plan: seq<SyncOp>)
    requires IsPlanOf(ms, res, plan)
    ensures forall op :: op in plan ==> KeepsTo(LivePaths(ms), op)
  {
    hide Emitted;
    hide KahnOrdered;
    hide KeepLast;
    hide Sound;
    hide LivePaths;
    hide AncestorDirs;
    var r, sorted := PlanParts(ms, res, plan);
    forall op | op in plan
      ensures KeepsTo(LivePaths(ms), op)
    {
      KeepLastIsLast(sorted, op);
      var i := SortedPlace(Emitted(ms, res, r), sorted, op);
      if op.kind == MKDIR {
        DirIsAboveLive(ms, res, r, i);
      } else {
        WorksOnLive(ms, res, r, i);
      }
    }
  }

  lemma LiveTreeIsAntichain(ms: Manifests)
    requires LiveTree(ms)
    ensures Antichain(LivePaths(ms))
  {
  }

  /** What a plan replaces or removes is a file, on trees whose disks match. */
  lemma PlanSuitsLive(h: Bytes -> Digest, t: Tree, res: seq<Resolution>, plan: seq<SyncOp>)
    requires IsTree(t) && Sane(h, t.fleet) && IsPlanOf(ManifestsOf(t.fleet), res, plan)
    ensures WellRooted(t) && FilesIn(LivePaths(ManifestsOf(t.fleet)), t)
    ensures forall op :: op in plan ==> Suits(LivePaths(ManifestsOf(t.fleet)), t, op)
  {
    hide IsPlanOf;
    hide KeepsTo;
    hide Sane;
    hide LivePaths;
    hide IsBlocked;
    hide IsTree;
    var ms := ManifestsOf(t.fleet);
    TreeIsRooted(t);
    PlanKeepsToLive(ms, res, plan);
    forall d, p | d in t.fleet && p in t.fleet[d].disk
      ensures p in LivePaths(ms)
    {
      FileIsLive(h, t.fleet, res, d, p);
    }
    forall op | op in plan
      ensures Suits(LivePaths(ms), t, op)
    {
      if op.kind in {REPLACE, REMOVE} {
        WorksOnFile(h, t, res, plan, op);
      }
      TmpIsNotLive(h, t.fleet, op.path);
    }
  }

  lemma TmpIsNotLive(h: Bytes -> Digest, f: Fleet, p: Path)
    requires Sane(h, f)
    ensures Tmp(p) !in LivePaths(ManifestsOf(f))
  {
    TmpIsTmp(p);
  }

  lemma WorksOnFile(h: Bytes -> Digest, t: Tree, res: seq<Resolution>, plan: seq<SyncOp>, op: SyncOp)
    requires IsTree(t) && Sane(h, t.fleet) && IsPlanOf(ManifestsOf(t.fleet), res, plan) && op in plan
    requires op.kind in {REPLACE, REMOVE}
    ensures op.target in t.fleet ==> op.target in t.dirs && op.path !in t.dirs[op.target]
  {
    hide OpFor;
    hide Emitted;
    hide KahnOrdered;
    hide KeepLast;
    hide Sound;
    hide IsDetected;
    hide Stands;
    hide AllPaths;
    var ms := ManifestsOf(t.fleet);
    var r, sorted := PlanParts(ms, res, plan);
    KeepLastIsLast(sorted, op);
    var i := SortedPlace(Emitted(ms, res, r), sorted, op);
    EmittedOp(ms, res, r, i);
    OpForFacts(ms, res, op.target, op.path);
    ReplacesLive(ms, res, op.target, op.path);
    assert Matches(h, t.fleet[op.target]);
    FileIsNoDir(t, op.target, op.path);
  }

  lemma FileIsNoDir(t: Tree, d: DriveId, p: Path)
    requires IsTree(t) && d in t.fleet
    ensures d in t.dirs && (p in t.fleet[d].disk ==> p !in t.dirs[d])
  {
    assert Stands(t.fleet[d].disk, t.dirs[d], p);
  }

  /** Where no live path is above another, a sync on the file tree does what it does on flat disks without the
      operations that are blocked at the start, with or without renames; and the same live paths stay
      directories. */
  lemma LiveTreeRun(h: Bytes -> Digest, t: Tree, res: seq<Resolution>, plan: seq<SyncOp>)
    requires IsTree(t) && Sane(h, t.fleet) && LiveTree(ManifestsOf(t.fleet))
    requires IsPlanOf(ManifestsOf(t.fleet), res, plan)
    ensures WellRooted(t) && TreeRun(h, t, plan).fleet == ApplyAll(h, t.fleet, Through(t, plan))
    ensures LikeAt(LivePaths(ManifestsOf(t.fleet)), t, TreeRun(h, t, plan)) && IsTree(TreeRun(h, t, plan))
  {
    hide *;
    var ms := ManifestsOf(t.fleet);
    TreeIsRooted(t);
    LiveTreeIsAntichain(ms);
    PlanSuitsLive(h, t, res, plan);
    RunOnLive(h, LivePaths(ms), t, plan);
    RunKeepsTree(h, t, plan);
  }

  /** Where no live path is a directory on any drive either, it does just what it does on flat disks, and that
      stays so. */
  lemma TreeIsFlat(h: Bytes -> Digest, t: Tree, res: seq<Resolution>, plan: seq<SyncOp>)
    requires LiveTree(ManifestsOf(t.fleet)) && FilesAt(LivePaths(ManifestsOf(t.fleet)), t)
    requires IsPlanOf(ManifestsOf(t.fleet), res, plan)
    ensures WellRooted(t) && TreeRun(h, t, plan).fleet == ApplyAll(h, t.fleet, plan)
    ensures FilesAt(LivePaths(ManifestsOf(t.fleet)), TreeRun(h, t, plan))
  {
    hide *;
    var live := LivePaths(ManifestsOf(t.fleet));
    LiveTreeIsAntichain(ManifestsOf(t.fleet));
    PlanKeepsToLive(ManifestsOf(t.fleet), res, plan);
    NothingInTheWay(live, t, plan);
    AllThrough(t, plan);
    RunOnLive(h, live, t, plan);
    StillAt(live, t, TreeRun(h, t, plan));
  }

  lemma NothingInTheWay(live: set<Path>, t: Tree, plan: seq<SyncOp>)
    requires Antichain(live) && FilesAt(live, t) && forall op :: op in plan ==> KeepsTo(live, op)
    ensures WellRooted(t) && FilesIn(live, t)
    ensures forall op :: op in plan ==> !IsBlocked(t, op) && Suits(live, t, op)
  {
    hide Antichain;
    hide Blocked;
    hide KeepsTo;
    forall op | op in plan
      ensures !IsBlocked(t, op)
      ensures op.kind in {REPLACE, REMOVE} && op.target in t.fleet ==> op.path !in t.dirs[op.target]
    {
      KeptPaths(live, op);
      if op.target in t.fleet && Destination(op).Some? {
        OnlyDirsBlock(live, t, op.target, Destination(op).value);
      }
    }
  }

  lemma StillAt(live: set<Path>, t: Tree, u: Tree)
    requires FilesAt(live, t) && WellRooted(t) && LikeAt(live, t, u)
    ensures FilesAt(live, u)
  {
  }

  // ----- Where it is not --------------------------------------------------------------------

  /** The operations of the fleet on which a file has become a directory. */
  lemma BecameDirPlanned(h: Bytes -> Digest, x: Bytes, y: Bytes, op: SyncOp)
    requires OpFor(ManifestsOf(BecameDir(h, x, y)), [], op.target, op.path) == Some(op)
    ensures op.target == "B" && (op.path == "a" || (op.path == "a/b" && op.kind == COPY))
  {
    hide BecameDir;
    hide ManifestsOf;
    hide Quorum;
    hide SourceOf;
    hide JoinAt;
    hide Tombstones;
    hide AllPaths;
    BecameDirManifests(h, x, y);
    BecameDirSource(h, x, y);
    SourceExists(ManifestsOf(BecameDir(h, x, y)), [], op.path);
  }

  lemma {:induction false} StuckRun(h: Bytes -> Digest, x: Bytes, y: Bytes, t: Tree, ops: seq<SyncOp>)
    requires WellRooted(t) && t.fleet == BecameDir(h, x, y)
    requires forall op :: op in ops ==> op.kind == MKDIR || (op.kind == COPY && op.target == "B" && op.path == "a/b")
    ensures TreeRun(h, t, ops).fleet == BecameDir(h, x, y)
  {
    hide TreeStep;
    if ops != [] {
      var front, op := ops[..|ops| - 1], ops[|ops| - 1];
      assert op in ops && forall z :: z in front ==> z in ops;
      StuckRun(h, x, y, t, front);
      var s := TreeRun(h, t, front);
      if op.kind == MKDIR {
        MkDirKeepsFleet(h, s, op);
      } else {
        AboveAB();
        assert "a" in s.fleet["B"].disk;
        TmpIsTmp("a/b");
        assert Tmp("a/b") != "a";
        BlockedChangesNothing(h, s, op);
      }
    }
  }

  /** Where a file has become a directory on one drive, no plan changes anything on the file tree: sync
      after sync, the other drive keeps the file and lacks what is in the directory. */
  lemma BecameDirIsStuck(h: Bytes -> Digest, x: Bytes, y: Bytes, t: Tree, plan: seq<SyncOp>)
    requires h(x) != h(y) && WellRooted(t) && t.fleet == BecameDir(h, x, y)
    requires IsPlanOf(ManifestsOf(t.fleet), [], plan)
    ensures TreeRun(h, t, plan).fleet == t.fleet && !Converged(t.fleet)
  {
    hide *;
    var ms := ManifestsOf(t.fleet);
    BecameDirCalm(h, x, y);
    var r, sorted := PlanParts(ms, [], plan);
    NothingDetected(ms, r);
    PlanIsUnburied(ms, [], r, sorted);
    BecameDirOps(h, x, y);
    RemovalIsBuried(ms, "B", "a", "a/b");
    forall op | op in plan
      ensures op.kind == MKDIR || (op.kind == COPY && op.target == "B" && op.path == "a/b")
    {
      if op.kind != MKDIR {
        PartMember(ms, [], plan, op);
        BecameDirPlanned(h, x, y, op);
      }
    }
    StuckRun(h, x, y, t, plan);
    BecameDirApart(h, x, y);
  }

  lemma RemovalIsBuried(ms: Manifests, t: DriveId, d: Path, p: Path)
    requires Buries(ms, [], t, d, p)
    ensures Buried(ms, [], t, d)
  {
    hide Buries;
  }

  lemma PartMember(ms: Manifests, res: seq<Resolution>, plan: seq<SyncOp>, op: SyncOp)
    requires PartOf(plan, ms, res) && op in plan && op.kind != MKDIR
    ensures OpFor(ms, res, op.target, op.path) == Some(op)
  {
    hide OpFor;
  }

  lemma BecameDirApart(h: Bytes -> Digest, x: Bytes, y: Bytes)
    ensures !Converged(BecameDir(h, x, y))
  {
    var f := BecameDir(h, x, y);
    assert "A" in f && "B" in f && "a/b" in f["A"].disk && "a/b" !in f["B"].disk;
  }
}
