/** A round without renames on a file tree: which operations get through, and when the drives come to
    agree. */
module TreeRounds {
  import opened Base
  import opened SyncOps
  import opened VersionVectors
  import opened Drives
  import opened CrashSafety
  import opened Executor
  import opened ConflictResolver
  import opened RenameDetection
  import opened PlanRules
  import opened PlanOrder
  import opened SyncPlanner
  import opened Burial
  import opened Convergence
  import opened PlanMeaning
  import opened FileTree

  /** A copy of the path to the drive is called for. */
  ghost predicate CopyCalled(ms: Manifests, res: seq<Resolution>, d: DriveId, p: Path) {
    OpFor(ms, res, d, p).Some? && OpFor(ms, res, d, p).value.kind == COPY
  }

  /** No copy that is called for is blocked as the tree stands. */
  ghost predicate NoCopyBlocked(t: Tree, res: seq<Resolution>)
    requires WellRooted(t)
  {
    forall d, p :: d in t.fleet && CopyCalled(ManifestsOf(t.fleet), res, d, p) ==> !Blocked(t, d, p)
  }

  lemma {:induction false} ThroughIsPart(t: Tree, ops: seq<SyncOp>, ms: Manifests, res: seq<Resolution>)
    requires WellRooted(t) && PartOf(ops, ms, res)
    ensures PartOf(Through(t, ops), ms, res)
  {
    hide OpFor;
    hide IsBlocked;
    if ops != [] {
      var front, op := ops[..|ops| - 1], ops[|ops| - 1];
      ThroughIsPart(t, front, ms, res);
      ThroughMembers(t, front);
      var kept := Through(t, front);
      forall i | 0 <= i < |kept| && kept[i].kind != MKDIR && op.kind != MKDIR
        ensures kept[i].Key() != op.Key()
      {
        assert kept[i] in kept && kept[i] in front;
        var k :| 0 <= k < |front| && front[k] == kept[i];
        assert ops[k] == kept[i];
      }
    }
  }

  // ----- What a plan is made of -------------------------------------------------------------

  /** Nothing buried, and every directory for a copy that is called for. */
  ghost predicate Fitted(ms: Manifests, res: seq<Resolution>, op: SyncOp) {
    if op.kind == MKDIR then AboveCopy(ms, res, op.target, op.path)
    else !Buried(ms, res, op.target, op.path)
  }

  lemma PlanIsFitted(ms: Manifests, res: seq<Resolution>, plan: seq<SyncOp>)
    requires IsPlanOf(ms, res, plan) && NoRenames(ms)
    ensures PartOf(plan, ms, res) && forall op :: op in plan ==> Fitted(ms, res, op)
    ensures forall t, p :: OpFor(ms, res, t, p).Some? ==>
      (OpFor(ms, res, t, p).value in plan <==> !Buried(ms, res, t, p))
  {
    hide Emitted;
    hide OpFor;
    hide Buried;
    hide KahnOrdered;
    hide KeepLast;
    hide Sound;
    hide NoRenames;
    hide PartOf;
    hide AncestorDirs;
    var r, sorted := PlanParts(ms, res, plan);
    NothingDetected(ms, r);
    PlanIsUnburied(ms, res, r, sorted);
    forall op | op in plan
      ensures Fitted(ms, res, op)
    {
      if op.kind == MKDIR {
        KeepLastIsLast(sorted, op);
        var i := SortedPlace(Emitted(ms, res, r), sorted, op);
        var j := CopyBelow(ms, res, r, i);
      } else {
        PartIsCalled(ms, res, plan, op);
      }
    }
  }

  lemma PartIsCalled(ms: Manifests, res: seq<Resolution>, plan: seq<SyncOp>, op: SyncOp)
    requires PartOf(plan, ms, res) && op in plan && op.kind != MKDIR
    ensures OpFor(ms, res, op.target, op.path) == Some(op)
  {
    hide OpFor;
  }

  // ----- One operation after another --------------------------------------------------------

  /** The files are as if the blocked copies had not been planned; no directory has gone, and the new
      ones are above copies that are called for. */
  ghost predicate AsPlanned(h: Bytes -> Digest, t: Tree, res: seq<Resolution>, done: seq<SyncOp>, u: Tree)
    requires WellRooted(t)
  {
    && WellRooted(u) && u.fleet == ApplyAll(h, t.fleet, Through(t, done)) && u.fleet.Keys == t.fleet.Keys
    && forall d, m :: d in t.fleet ==> DirAsPlanned(t, res, u, d, m)
  }

  ghost predicate AboveCopy(ms: Manifests, res: seq<Resolution>, d: DriveId, m: Path) {
    exists q :: CopyCalled(ms, res, d, q) && m in AncestorDirs(q)
  }

  ghost predicate DirAsPlanned(t: Tree, res: seq<Resolution>, u: Tree, d: DriveId, m: Path)
    requires d in t.dirs && d in u.dirs
  {
    && (m in t.dirs[d] ==> m in u.dirs[d])
    && (m in u.dirs[d] ==> m in t.dirs[d] || AboveCopy(ManifestsOf(t.fleet), res, d, m))
  }

  /** A name that is worked on, and not buried, has not become a directory. */
  lemma NotADirectory(t: Tree, res: seq<Resolution>, u: Tree, op: SyncOp)
    requires WellRooted(t) && WellRooted(u) && op.target in t.dirs && op.target in u.dirs
    requires DirAsPlanned(t, res, u, op.target, op.path)
    requires OpFor(ManifestsOf(t.fleet), res, op.target, op.path) == Some(op) && op.kind != MKDIR
    requires Fitted(ManifestsOf(t.fleet), res, op)
    ensures op.path in u.dirs[op.target] <==> op.path in t.dirs[op.target]
  {
    hide OpFor;
    hide AboveCopy;
    hide Buried;
    AboveCopyIsBuried(ManifestsOf(t.fleet), res, op.target, op.path);
  }

  lemma AboveCopyIsBuried(ms: Manifests, res: seq<Resolution>, d: DriveId, p: Path)
    ensures OpFor(ms, res, d, p).Some? && AboveCopy(ms, res, d, p) ==> Buried(ms, res, d, p)
  {
    hide OpFor;
    if OpFor(ms, res, d, p).Some? && AboveCopy(ms, res, d, p) {
      var q :| CopyCalled(ms, res, d, q) && p in AncestorDirs(q);
      assert Buries(ms, res, d, p, q);
    }
  }

  /** A file that was not there is a copy that got through; one that has gone was worked on. */
  lemma FilesAsPlanned(
    h: Bytes -> Digest, t: Tree, res: seq<Resolution>, done: seq<SyncOp>, u: Tree, d: DriveId, p: Path)
    returns (op: Option<SyncOp>)
    requires Sane(h, t.fleet) && WellRooted(t) && AsPlanned(h, t, res, done, u) && d in t.fleet
    requires PartOf(done, ManifestsOf(t.fleet), res)
    ensures op.None? ==> Lookup(u.fleet[d].disk, p) == Lookup(t.fleet[d].disk, p)
    ensures op.Some? ==>
      && op.value in done && !IsBlocked(t, op.value)
      && OpFor(ManifestsOf(t.fleet), res, d, p) == op && op.value.kind != MKDIR
      && (op.value.kind != COPY ==> p in t.fleet[d].disk)
  {
    hide OpFor;
    hide ApplyAll;
    hide EntryAfter;
    hide FileAfter;
    hide IsBlocked;
    hide DirAsPlanned;
    var ms, kept := ManifestsOf(t.fleet), Through(t, done);
    ThroughIsPart(t, done, ms, res);
    ThroughMembers(t, done);
    PrefixReached(h, t.fleet, res, kept, |kept|);
    assert kept[..|kept|] == kept;
    assert CellAt(t.fleet, res, u.fleet, d, p, DoneIn(kept, d, p));
    op := None;
    if DoneIn(kept, d, p) {
      var i :| 0 <= i < |kept| && kept[i].kind != MKDIR && kept[i].Key() == (d, p);
      op := Some(kept[i]);
      assert kept[i] in kept;
      OpForFacts(ms, res, d, p);
      ReplacesLive(ms, res, d, p);
      assert Matches(h, t.fleet[d]);
    }
  }

  /** On a tree, an operation on a file that is there is not blocked. */
  lemma PresentIsFree(t: Tree, d: DriveId, p: Path)
    requires IsTree(t) && d in t.fleet && p in t.fleet[d].disk
    ensures !Blocked(t, d, p) && forall a :: a in AncestorDirs(p) ==> a in t.dirs[d]
  {
    assert Stands(t.fleet[d].disk, t.dirs[d], p);
    forall a | a in AncestorDirs(p)
      ensures a in t.dirs[d] && a !in t.fleet[d].disk
    {
      assert a in Above(p);
      assert Stands(t.fleet[d].disk, t.dirs[d], a);
    }
  }

  /** When its turn comes, a copy is blocked if and only if it was at the start, and a replacement is not. */
  lemma BlockedAsBefore(
    h: Bytes -> Digest, t: Tree, res: seq<Resolution>, done: seq<SyncOp>, u: Tree, op: SyncOp)
    requires Sane(h, t.fleet) && IsTree(t) && AsPlanned(h, t, res, done, u)
    requires PartOf(done, ManifestsOf(t.fleet), res) && forall x :: x in done ==> Fitted(ManifestsOf(t.fleet), res, x)
    requires OpFor(ManifestsOf(t.fleet), res, op.target, op.path) == Some(op) && op.kind in {COPY, REPLACE}
    requires Fitted(ManifestsOf(t.fleet), res, op)
    ensures op.target in t.fleet && op.target in u.fleet
    ensures Blocked(u, op.target, op.path) <==> op.kind == COPY && Blocked(t, op.target, op.path)
  {
    hide OpFor;
    hide ApplyAll;
    hide Sane;
    hide IsTree;
    hide Through;
    TreeIsRooted(t);
    var ms, d, p := ManifestsOf(t.fleet), op.target, op.path;
    OpForFacts(ms, res, d, p);
    assert DirAsPlanned(t, res, u, d, p);
    NotADirectory(t, res, u, op);
    if op.kind == REPLACE {
      ReplacedIsThere(h, t.fleet, res, op);
      PresentIsFree(t, d, p);
    }
    forall a | a in AncestorDirs(p)
      ensures a in u.fleet[d].disk <==> a in t.fleet[d].disk
    {
      AboveAsBefore(h, t, res, done, u, op, a);
    }
  }

  lemma ReplacedIsThere(h: Bytes -> Digest, f: Fleet, res: seq<Resolution>, op: SyncOp)
    requires Sane(h, f) && OpFor(ManifestsOf(f), res, op.target, op.path) == Some(op) && op.kind in {REPLACE, REMOVE}
    ensures op.target in f && op.path in f[op.target].disk
  {
    hide OpFor;
    OpForFacts(ManifestsOf(f), res, op.target, op.path);
    ReplacesLive(ManifestsOf(f), res, op.target, op.path);
    assert Matches(h, f[op.target]);
  }

  /** No file above the path has come or gone. */
  lemma AboveAsBefore(
    h: Bytes -> Digest, t: Tree, res: seq<Resolution>, done: seq<SyncOp>, u: Tree, op: SyncOp, a: Path)
    requires Sane(h, t.fleet) && IsTree(t) && AsPlanned(h, t, res, done, u)
    requires PartOf(done, ManifestsOf(t.fleet), res) && forall x :: x in done ==> Fitted(ManifestsOf(t.fleet), res, x)
    requires OpFor(ManifestsOf(t.fleet), res, op.target, op.path) == Some(op) && op.kind in {COPY, REPLACE}
    requires op.target in t.fleet && a in AncestorDirs(op.path)
    ensures a in u.fleet[op.target].disk <==> a in t.fleet[op.target].disk
  {
    hide OpFor;
    hide ApplyAll;
    hide Sane;
    hide IsTree;
    hide Through;
    hide AsPlanned;
    hide PartOf;
    TreeIsRooted(t);
    AsPlannedKeys(h, t, res, done, u);
    var ms, d := ManifestsOf(t.fleet), op.target;
    if op.kind == COPY {
      AboveIsBuried(ms, res, d, a, op);
    } else {
      ReplacedIsThere(h, t.fleet, res, op);
      AboveIsBlocked(t, res, op, a);
    }
    var x := FilesAsPlanned(h, t, res, done, u, d, a);
  }

  /** What is planned for a name above a copy is buried. */
  lemma AboveIsBuried(ms: Manifests, res: seq<Resolution>, d: DriveId, a: Path, op: SyncOp)
    requires OpFor(ms, res, d, op.path) == Some(op) && op.kind == COPY && a in AncestorDirs(op.path)
    ensures OpFor(ms, res, d, a).Some? && OpFor(ms, res, d, a).value.kind != MKDIR ==>
      !Fitted(ms, res, OpFor(ms, res, d, a).value)
  {
    hide OpFor;
    if OpFor(ms, res, d, a).Some? {
      OpForFacts(ms, res, d, a);
      assert Buries(ms, res, d, a, op.path);
    }
  }

  /** What is planned for a name above a file that is there is a blocked copy. */
  lemma AboveIsBlocked(t: Tree, res: seq<Resolution>, op: SyncOp, a: Path)
    requires IsTree(t) && op.target in t.fleet && op.path in t.fleet[op.target].disk && a in AncestorDirs(op.path)
    ensures a !in t.fleet[op.target].disk
    ensures var x := OpFor(ManifestsOf(t.fleet), res, op.target, a);
      x.Some? && x.value.kind == COPY ==> IsBlocked(t, x.value)
  {
    hide OpFor;
    var d := op.target;
    PresentIsFree(t, d, op.path);
    assert Stands(t.fleet[d].disk, t.dirs[d], a);
    if OpFor(ManifestsOf(t.fleet), res, d, a).Some? {
      OpForFacts(ManifestsOf(t.fleet), res, d, a);
    }
  }

  lemma AsPlannedKeys(h: Bytes -> Digest, t: Tree, res: seq<Resolution>, done: seq<SyncOp>, u: Tree)
    requires WellRooted(t) && AsPlanned(h, t, res, done, u)
    ensures WellRooted(u) && u.fleet.Keys == t.fleet.Keys && u.fleet == ApplyAll(h, t.fleet, Through(t, done))
  {
  }

  // ----- A whole plan -----------------------------------------------------------------------

  lemma PlannedStep(
    h: Bytes -> Digest, t: Tree, res: seq<Resolution>, done: seq<SyncOp>, u: Tree, op: SyncOp)
    requires Sane(h, t.fleet) && IsTree(t) && AsPlanned(h, t, res, done, u)
    requires PartOf(done + [op], ManifestsOf(t.fleet), res)
    requires forall x :: x in done + [op] ==> Fitted(ManifestsOf(t.fleet), res, x)
    ensures AsPlanned(h, t, res, done + [op], TreeStep(h, u, op))
  {
    hide OpFor;
    hide Sane;
    hide IsTree;
    hide PartOf;
    hide Fitted;
    hide TreeStep;
    hide Applied;
    hide ApplyAll;
    hide AsPlanned;
    hide IsBlocked;
    hide DirAsPlanned;
    TreeIsRooted(t);
    AsPlannedKeys(h, t, res, done, u);
    LastOfPart(done, op, ManifestsOf(t.fleet), res);
    ThroughOne(t, done, op);
    StepFleet(h, t, res, done, u, op);
    StepKeys(h, u, op);
    ApplyLast(h, t.fleet, Through(t, done), op);
    forall d, m | d in t.fleet
      ensures d in TreeStep(h, u, op).dirs && DirAsPlanned(t, res, TreeStep(h, u, op), d, m)
    {
      AsPlannedAt(h, t, res, done, u, d, m);
      if op.target in t.fleet {
        AsPlannedAt(h, t, res, done, u, op.target, op.path);
      }
      StepDirs(h, t, res, u, op, d, m);
    }
    AsPlannedFrom(h, t, res, done + [op], TreeStep(h, u, op));
  }

  lemma AsPlannedAt(h: Bytes -> Digest, t: Tree, res: seq<Resolution>, done: seq<SyncOp>, u: Tree, d: DriveId, m: Path)
    requires WellRooted(t) && AsPlanned(h, t, res, done, u) && d in t.fleet
    ensures d in u.dirs && d in t.dirs && DirAsPlanned(t, res, u, d, m)
    ensures u.fleet == ApplyAll(h, t.fleet, Through(t, done))
  {
    hide DirAsPlanned;
  }

  lemma AsPlannedFrom(h: Bytes -> Digest, t: Tree, res: seq<Resolution>, done: seq<SyncOp>, u: Tree)
    requires WellRooted(t) && WellRooted(u) && u.fleet.Keys == t.fleet.Keys
    requires u.fleet == ApplyAll(h, t.fleet, Through(t, done))
    requires forall d, m :: d in t.fleet ==> DirAsPlanned(t, res, u, d, m)
    ensures AsPlanned(h, t, res, done, u)
  {
  }

  lemma LastOfPart(done: seq<SyncOp>, op: SyncOp, ms: Manifests, res: seq<Resolution>)
    requires PartOf(done + [op], ms, res)
    ensures PartOf(done, ms, res) && (op.kind == MKDIR || OpFor(ms, res, op.target, op.path) == Some(op))
    ensures (forall x :: x in done ==> x in done + [op]) && op in done + [op]
  {
    hide OpFor;
    var all := done + [op];
    assert all[|done|] == op;
    assert forall i :: 0 <= i < |done| ==> all[i] == done[i];
  }

  /** One operation on the files. */
  lemma StepFleet(h: Bytes -> Digest, t: Tree, res: seq<Resolution>, done: seq<SyncOp>, u: Tree, op: SyncOp)
    requires Sane(h, t.fleet) && IsTree(t) && AsPlanned(h, t, res, done, u)
    requires PartOf(done, ManifestsOf(t.fleet), res) && forall x :: x in done ==> Fitted(ManifestsOf(t.fleet), res, x)
    requires op.kind == MKDIR || OpFor(ManifestsOf(t.fleet), res, op.target, op.path) == Some(op)
    requires Fitted(ManifestsOf(t.fleet), res, op)
    ensures WellRooted(t)
    ensures TreeStep(h, u, op).fleet == if IsBlocked(t, op) then u.fleet else Applied(h, u.fleet, op)
  {
    hide OpFor;
    hide Sane;
    hide IsTree;
    hide PartOf;
    hide Fitted;
    hide TreeStep;
    hide Applied;
    hide Through;
    hide ApplyAll;
    hide AsPlanned;
    TreeIsRooted(t);
    AsPlannedKeys(h, t, res, done, u);
    if op.kind == COPY || op.kind == REPLACE {
      BlockedAsBefore(h, t, res, done, u, op);
      if IsBlocked(t, op) {
        NoTmpThere(h, t, res, done, u, op.target, op.path);
        BlockedChangesNothing(h, u, op);
      } else {
        UnhinderedStep(h, u, op);
      }
    } else {
      if op.kind != MKDIR {
        OpForFacts(ManifestsOf(t.fleet), res, op.target, op.path);
      }
      UnhinderedStep(h, u, op);
    }
  }

  lemma NoTmpThere(
    h: Bytes -> Digest, t: Tree, res: seq<Resolution>, done: seq<SyncOp>, u: Tree, d: DriveId, p: Path)
    requires Sane(h, t.fleet) && WellRooted(t) && AsPlanned(h, t, res, done, u) && d in t.fleet
    requires PartOf(done, ManifestsOf(t.fleet), res)
    ensures d in u.fleet && Tmp(p) !in u.fleet[d].disk
  {
    hide OpFor;
    hide Sane;
    hide PartOf;
    hide ApplyAll;
    hide DirAsPlanned;
    var kept := Through(t, done);
    ThroughIsPart(t, done, ManifestsOf(t.fleet), res);
    PrefixReached(h, t.fleet, res, kept, |kept|);
    assert kept[..|kept|] == kept;
    NoTmpFile(h, t.fleet, res, kept, u.fleet, d, p);
  }

  /** One operation on the directories. */
  lemma StepDirs(h: Bytes -> Digest, t: Tree, res: seq<Resolution>, u: Tree, op: SyncOp, d: DriveId, m: Path)
    requires Sane(h, t.fleet) && IsTree(t) && WellRooted(u) && u.fleet.Keys == t.fleet.Keys && d in t.fleet
    requires d in t.dirs && d in u.dirs && DirAsPlanned(t, res, u, d, m)
    requires op.target in t.fleet ==> op.target in u.dirs && op.target in t.dirs && DirAsPlanned(t, res, u, op.target, op.path)
    requires op.kind == MKDIR || OpFor(ManifestsOf(t.fleet), res, op.target, op.path) == Some(op)
    requires Fitted(ManifestsOf(t.fleet), res, op)
    ensures d in TreeStep(h, u, op).dirs && DirAsPlanned(t, res, TreeStep(h, u, op), d, m)
  {
    hide OpFor;
    hide Sane;
    hide IsTree;
    hide Suffered;
    hide TreeFault;
    hide CanReach;
    hide IsEmpty;
    hide CanCopy;
    hide Fitted;
    TreeIsRooted(t);
    var ms := ManifestsOf(t.fleet);
    if op.target == d {
      if op.kind == MKDIR {
        MadeAboveCopy(ms, res, op, m);
      } else {
        OpForFacts(ms, res, d, op.path);
        if op.kind == COPY {
          CopiedBelow(ms, res, op, m);
        } else {
          ReplacedIsThere(h, t.fleet, res, op);
          PresentIsNoDir(t, d, op.path, m);
          NotADirectory(t, res, u, op);
        }
      }
    }
  }

  lemma MadeAboveCopy(ms: Manifests, res: seq<Resolution>, op: SyncOp, m: Path)
    requires op.kind == MKDIR && Fitted(ms, res, op)
    ensures m == op.path || m in Above(op.path) ==> AboveCopy(ms, res, op.target, m)
  {
    hide OpFor;
    var q :| CopyCalled(ms, res, op.target, q) && op.path in AncestorDirs(q);
    if m in Above(op.path) {
      AncestorsChain(q, op.path, m);
    }
  }

  lemma CopiedBelow(ms: Manifests, res: seq<Resolution>, op: SyncOp, m: Path)
    requires OpFor(ms, res, op.target, op.path) == Some(op) && op.kind == COPY
    ensures m in Above(op.path) ==> AboveCopy(ms, res, op.target, m)
  {
    hide OpFor;
    assert CopyCalled(ms, res, op.target, op.path);
  }

  lemma PresentIsNoDir(t: Tree, d: DriveId, p: Path, m: Path)
    requires IsTree(t) && d in t.fleet && p in t.fleet[d].disk
    ensures p !in t.dirs[d] && (m in Above(p) ==> m in t.dirs[d])
  {
    assert Stands(t.fleet[d].disk, t.dirs[d], p);
  }

  lemma {:induction false} PrefixAsPlanned(h: Bytes -> Digest, t: Tree, res: seq<Resolution>, ops: seq<SyncOp>)
    requires Sane(h, t.fleet) && IsTree(t) && PartOf(ops, ManifestsOf(t.fleet), res)
    requires forall op :: op in ops ==> Fitted(ManifestsOf(t.fleet), res, op)
    ensures WellRooted(t) && AsPlanned(h, t, res, ops, TreeRun(h, t, ops))
  {
    hide OpFor;
    hide Sane;
    hide IsTree;
    hide PartOf;
    hide Fitted;
    hide TreeStep;
    hide Applied;
    hide AsPlanned;
    TreeIsRooted(t);
    if ops == [] {
      NothingYet(h, t, res);
    } else {
      var front, op := ops[..|ops| - 1], ops[|ops| - 1];
      assert front + [op] == ops;
      LastOfPart(front, op, ManifestsOf(t.fleet), res);
      PrefixAsPlanned(h, t, res, front);
      PlannedStep(h, t, res, front, TreeRun(h, t, front), op);
    }
  }

  lemma NothingYet(h: Bytes -> Digest, t: Tree, res: seq<Resolution>)
    requires WellRooted(t)
    ensures AsPlanned(h, t, res, [], t)
  {
  }

  // ----- When the drives come to agree ------------------------------------------------------

  /** The disks match the manifests of the tree, and no contents are confused. */
  ghost predicate Fit(h: Bytes -> Digest, t: Tree) {
    IsTree(t) && Sane(h, t.fleet) && CollisionFree(h, t.fleet)
  }

  /** What a plan does to a file tree on which nothing was renamed: what it does to flat disks without the
      copies that are blocked at the start. */
  lemma TreeRunIsThrough(h: Bytes -> Digest, t: Tree, res: seq<Resolution>, plan: seq<SyncOp>)
    requires IsTree(t) && Sane(h, t.fleet) && NoRenames(ManifestsOf(t.fleet))
    requires IsPlanOf(ManifestsOf(t.fleet), res, plan)
    ensures WellRooted(t) && AsPlanned(h, t, res, plan, TreeRun(h, t, plan))
    ensures PartOf(Through(t, plan), ManifestsOf(t.fleet), res)
    ensures IsTree(TreeRun(h, t, plan)) && Sane(h, TreeRun(h, t, plan).fleet)
    ensures CollisionFree(h, t.fleet) ==> CollisionFree(h, TreeRun(h, t, plan).fleet)
  {
    hide *;
    TreeIsRooted(t);
    PlanIsFitted(ManifestsOf(t.fleet), res, plan);
    PrefixAsPlanned(h, t, res, plan);
    ThroughIsPart(t, plan, ManifestsOf(t.fleet), res);
    RunKeepsTree(h, t, plan);
    AsPlannedKeys(h, t, res, plan, TreeRun(h, t, plan));
    PartIsSane(h, t.fleet, res, Through(t, plan));
    if CollisionFree(h, t.fleet) {
      PartKeepsContents(h, t.fleet, res, Through(t, plan));
    }
  }

  /** A round without renames on a file tree makes the drives agree if and only if nothing that moves bytes
      is buried and no copy that is called for is blocked. */
  lemma TreeConverges(h: Bytes -> Digest, t: Tree, res: seq<Resolution>, plan: seq<SyncOp>)
    requires Fit(h, t) && NoRenames(ManifestsOf(t.fleet)) && IsPlanOf(ManifestsOf(t.fleet), res, plan)
    ensures WellRooted(t) && Fit(h, TreeRun(h, t, plan))
    ensures Converged(TreeRun(h, t, plan).fleet)
      <==> !BytesBuried(ManifestsOf(t.fleet), res) && NoCopyBlocked(t, res)
  {
    hide *;
    FitParts(h, t);
    TreeRunIsThrough(h, t, res, plan);
    PlanIsFitted(ManifestsOf(t.fleet), res, plan);
    AsPlannedKeys(h, t, res, plan, TreeRun(h, t, plan));
    PartConverges(h, t.fleet, res, Through(t, plan));
    MissingOnTree(t, res, plan);
    FitFrom(h, TreeRun(h, t, plan));
  }

  lemma FitFrom(h: Bytes -> Digest, t: Tree)
    requires IsTree(t) && Sane(h, t.fleet) && CollisionFree(h, t.fleet)
    ensures Fit(h, t)
  {
  }

  lemma FitParts(h: Bytes -> Digest, t: Tree)
    requires Fit(h, t)
    ensures IsTree(t) && WellRooted(t) && Sane(h, t.fleet) && CollisionFree(h, t.fleet)
  {
  }

  /** An operation gets through unless it is buried or a blocked copy. */
  lemma ThroughHas(t: Tree, res: seq<Resolution>, plan: seq<SyncOp>, d: DriveId, p: Path)
    requires WellRooted(t) && OpFor(ManifestsOf(t.fleet), res, d, p).Some?
    requires OpFor(ManifestsOf(t.fleet), res, d, p).value in plan <==> !Buried(ManifestsOf(t.fleet), res, d, p)
    ensures d in t.fleet
    ensures OpFor(ManifestsOf(t.fleet), res, d, p).value in Through(t, plan)
      <==> !Buried(ManifestsOf(t.fleet), res, d, p)
           && !(CopyCalled(ManifestsOf(t.fleet), res, d, p) && Blocked(t, d, p))
  {
    hide OpFor;
    hide Buried;
    hide Through;
    hide Blocked;
    ThroughMembers(t, plan);
    OpForFacts(ManifestsOf(t.fleet), res, d, p);
  }

  lemma MissingOnTree(t: Tree, res: seq<Resolution>, plan: seq<SyncOp>)
    requires WellRooted(t)
    requires forall d, p :: OpFor(ManifestsOf(t.fleet), res, d, p).Some? ==>
      (OpFor(ManifestsOf(t.fleet), res, d, p).value in plan <==> !Buried(ManifestsOf(t.fleet), res, d, p))
    ensures BytesMissing(ManifestsOf(t.fleet), res, Through(t, plan))
      <==> BytesBuried(ManifestsOf(t.fleet), res) || !NoCopyBlocked(t, res)
  {
    hide OpFor;
    hide Buried;
    hide Through;
    hide Blocked;
    var ms := ManifestsOf(t.fleet);
    forall d, p
      ensures Moves(ms, res, d, p) ==> OpFor(ms, res, d, p).Some?
      ensures OpFor(ms, res, d, p).Some? ==> d in t.fleet
      ensures OpFor(ms, res, d, p).Some? ==>
        (OpFor(ms, res, d, p).value in Through(t, plan) <==>
          !Buried(ms, res, d, p) && !(CopyCalled(ms, res, d, p) && Blocked(t, d, p)))
      ensures CopyCalled(ms, res, d, p) ==> Moves(ms, res, d, p)
    {
      if OpFor(ms, res, d, p).Some? {
        OpForFacts(ms, res, d, p);
        ThroughHas(t, res, plan, d, p);
      }
    }
  }

  /** A file operation of the plan succeeds if and only if it is no copy that is blocked at the start. */
  lemma TreeResult(h: Bytes -> Digest, t: Tree, res: seq<Resolution>, plan: seq<SyncOp>, k: nat)
    requires IsTree(t) && Sane(h, t.fleet) && NoRenames(ManifestsOf(t.fleet))
    requires IsPlanOf(ManifestsOf(t.fleet), res, plan) && k < |plan| && plan[k].kind != MKDIR
    ensures WellRooted(t)
    ensures var u := TreeRun(h, t, plan[..k]);
      Reports(h, u.fleet, plan[k], TreeFault(u, plan[k])) <==> !IsBlocked(t, plan[k])
  {
    hide *;
    TreeIsRooted(t);
    PlanIsFitted(ManifestsOf(t.fleet), res, plan);
    PrefixOfPart(ManifestsOf(t.fleet), res, plan, k);
    PrefixAsPlanned(h, t, res, plan[..k]);
    NextResult(h, t, res, plan[..k], TreeRun(h, t, plan[..k]), plan[k]);
  }

  lemma PrefixOfPart(ms: Manifests, res: seq<Resolution>, plan: seq<SyncOp>, k: nat)
    requires k < |plan| && PartOf(plan, ms, res) && forall op :: op in plan ==> Fitted(ms, res, op)
    ensures PartOf(plan[..k], ms, res) && PartOf(plan[..k] + [plan[k]], ms, res)
    ensures (forall op :: op in plan[..k] ==> Fitted(ms, res, op)) && Fitted(ms, res, plan[k])
  {
    hide OpFor;
    hide Fitted;
    assert plan[..k] + [plan[k]] == plan[..k + 1];
  }

  lemma NextResult(h: Bytes -> Digest, t: Tree, res: seq<Resolution>, done: seq<SyncOp>, u: Tree, op: SyncOp)
    requires Sane(h, t.fleet) && IsTree(t) && WellRooted(t) && AsPlanned(h, t, res, done, u) && op.kind != MKDIR
    requires PartOf(done, ManifestsOf(t.fleet), res) && PartOf(done + [op], ManifestsOf(t.fleet), res)
    requires (forall x :: x in done ==> Fitted(ManifestsOf(t.fleet), res, x)) && Fitted(ManifestsOf(t.fleet), res, op)
    ensures WellRooted(u) && (Reports(h, u.fleet, op, TreeFault(u, op)) <==> !IsBlocked(t, op))
  {
    hide OpFor;
    hide Sane;
    hide IsTree;
    hide PartOf;
    hide Fitted;
    hide AsPlanned;
    hide ApplyAll;
    hide Through;
    hide Succeeds;
    hide Reports;
    AsPlannedKeys(h, t, res, done, u);
    LastOfPart(done, op, ManifestsOf(t.fleet), res);
    OpForFacts(ManifestsOf(t.fleet), res, op.target, op.path);
    if op.kind != REMOVE {
      BlockedAsBefore(h, t, res, done, u, op);
    }
    if IsBlocked(t, op) {
      NoTmpThere(h, t, res, done, u, op.target, op.path);
      BlockedChangesNothing(h, u, op);
    } else {
      ThroughOne(t, done, op);
      ThroughIsPart(t, done + [op], ManifestsOf(t.fleet), res);
      var kept := Through(t, done);
      assert (kept + [op])[..|kept|] == kept && (kept + [op])[|kept|] == op;
      FileOpSucceeds(h, t.fleet, res, kept + [op], |kept|);
      NoFaultNoLoss(h, u.fleet, op);
    }
  }

  // ----- A directory that has become a file -------------------------------------------------

  /** On "A" the directory "a" has become a file; "B" has, or had, a file in the directory, and still has the
      directory. */
  ghost predicate DirBecameFile(h: Bytes -> Digest, t: Tree) {
    && Fit(h, t) && t.fleet.Keys == {"A", "B"} && "a" in t.dirs["B"] && Outdone(ManifestsOf(t.fleet))
  }

  /** "A" has the file "a" and knows all there is to know of "a/b": that it was deleted. */
  ghost predicate Outdone(ms: Manifests) {
    && ms.Keys == {"A", "B"} && ms["A"].Keys == {"a", "a/b"} && ms["B"].Keys == {"a/b"}
    && Live(ms["A"], "a") && ms["A"]["a/b"].tombstone && Leq(ms["B"]["a/b"].vv, ms["A"]["a/b"].vv)
    && (Live(ms["B"], "a/b") ==> ms["B"]["a/b"].hash != ms["A"]["a"].hash)
  }

  lemma OutdoneIsCalm(ms: Manifests)
    requires Outdone(ms)
    ensures NoRenames(ms) && forall p :: !InConflict(Versions(ms, p))
  {
    hide Leq;
    forall p
      ensures !InConflict(Versions(ms, p))
    {
      var v := Versions(ms, p);
      assert forall d :: d in v ==> d == "A" || d == "B";
      if "A" in v && "B" in v {
        OrderDecidesLeq(v["A"].vv, v["B"].vv);
        OrderDecidesLeq(v["B"].vv, v["A"].vv);
      }
    }
  }

  /** "A" is the source of both paths. */
  lemma OutdoneSource(ms: Manifests, res: seq<Resolution>, p: Path)
    requires Outdone(ms) && p in {"a", "a/b"}
    ensures SourceOf(ms, res, p) == Some("A") && !Quorum(ms, "a")
  {
    hide Leq;
    hide Quorum;
    hide Dominant;
    hide Resolved;
    hide FirstSupreme;
    OutdoneResolved(ms, res, p);
    LeqReflexive(ms["A"][p].vv);
    FirstOfTwo(ms, p);
    FewTombstones(ms, "a");
  }

  lemma FirstOfTwo(ms: Manifests, p: Path)
    requires ms.Keys == {"A", "B"} && p in ms["A"] && Leq(ms["A"][p].vv, ms["A"][p].vv)
    requires p in ms["B"] ==> Leq(ms["B"][p].vv, ms["A"][p].vv)
    ensures Dominant(ms, Ids(ms), p) == Some("A")
  {
    hide Leq;
    hide Dominant;
    var v := Versions(ms, p);
    assert forall d :: d in v ==> d == "A" || d == "B";
    assert Supreme(v, "A");
    DominantPrefix(ms, Ids(ms), p);
    assert "A" in Ids(ms);
    var c := Dominant(ms, Ids(ms), p).value;
    assert !Less("B", "A");
  }

  lemma {:induction false} OutdoneResolved(ms: Manifests, res: seq<Resolution>, p: Path)
    requires Outdone(ms)
    ensures Resolved(ms, res, p).None?
  {
    hide Leq;
    if res != [] {
      OutdoneResolved(ms, res[1..], p);
      forall w, e | w in ms && p in ms[w] && e in ms
        ensures !Rivals(ms, w, e, p)
      {
        if p == "a/b" {
          OrderDecidesLeq(ms[w][p].vv, ms[e][p].vv);
        }
      }
    }
  }

  /** Nothing but these two is called for. */
  ghost predicate OnlyOutdone(ms: Manifests, res: seq<Resolution>) {
    forall d, p :: OpFor(ms, res, d, p).Some? ==> d == "B" && p in {"a", "a/b"}
  }

  /** What is called for: "a" is to be copied to "B", and "a/b" to be removed there if it is live. */
  lemma OutdoneOps(ms: Manifests, res: seq<Resolution>)
    requires Outdone(ms)
    ensures CopyCalled(ms, res, "B", "a") && OnlyOutdone(ms, res)
  {
    hide OpFor;
    OutdoneCopy(ms, res, "B");
    forall d, p | OpFor(ms, res, d, p).Some?
      ensures d == "B" && p in {"a", "a/b"}
    {
      OpForFacts(ms, res, d, p);
      assert p in {"a", "a/b"};
      OutdoneCopy(ms, res, d);
      OutdoneRemoval(ms, res, d);
    }
  }

  lemma OutdoneCopy(ms: Manifests, res: seq<Resolution>, d: DriveId)
    requires Outdone(ms)
    ensures CopyCalled(ms, res, "B", "a") && (OpFor(ms, res, d, "a").Some? ==> d == "B")
  {
    hide Leq;
    hide Quorum;
    hide SourceOf;
    hide JoinAt;
    hide Tombstones;
    OutdoneSource(ms, res, "a");
  }

  lemma OutdoneRemoval(ms: Manifests, res: seq<Resolution>, d: DriveId)
    requires Outdone(ms)
    ensures OpFor(ms, res, d, "a/b").Some? ==>
      && d == "B" && OpFor(ms, res, d, "a/b").value.kind == REMOVE
      && Leq(OpFor(ms, res, d, "a/b").value.vv, ms["A"]["a/b"].vv)
  {
    hide Leq;
    hide Quorum;
    hide SourceOf;
    hide JoinAt;
    hide Tombstones;
    OutdoneSource(ms, res, "a/b");
    LeqReflexive(ms["A"]["a/b"].vv);
    JoinAtIsLub(ms, "a/b", "A", ms["A"]["a/b"].vv);
    OutdoneQuorum(ms, "a/b");
  }

  /** Where there is a quorum, both have the tombstone. */
  lemma OutdoneQuorum(ms: Manifests, p: Path)
    requires ms.Keys == {"A", "B"}
    ensures Quorum(ms, p) ==> p in ms["B"] && ms["B"][p].tombstone
  {
    hide Quorum;
    if !(p in ms["B"] && ms["B"][p].tombstone) {
      FewTombstones(ms, p);
    }
  }

  lemma OutdoneUnburied(ms: Manifests, res: seq<Resolution>)
    requires Outdone(ms)
    ensures NothingBuried(ms, res)
  {
    hide OpFor;
    OutdoneOps(ms, res);
    forall t, d, p
      ensures !Buries(ms, res, t, d, p)
    {
      OutdoneRemoval(ms, res, t);
      if d in AncestorDirs(p) {
        AncestorsAreAbove(p, d);
      }
    }
  }

  /** What a plan leaves of such manifests is such manifests. */
  lemma OutdoneStays(h: Bytes -> Digest, t: Tree, res: seq<Resolution>, kept: seq<SyncOp>)
    requires DirBecameFile(h, t) && PartOf(kept, ManifestsOf(t.fleet), res)
    requires forall op :: op in kept ==> !(op.kind == COPY && op.Key() == ("B", "a"))
    ensures Outdone(ManifestsOf(ApplyAll(h, t.fleet, kept)))
  {
    hide OpFor;
    hide ApplyAll;
    hide EntryAfter;
    hide FileAfter;
    hide PartOf;
    hide OnlyOutdone;
    hide Outdone;
    hide Sane;
    hide IsTree;
    hide CollisionFree;
    var ms := ManifestsOf(t.fleet);
    PrefixReached(h, t.fleet, res, kept, |kept|);
    assert kept[..|kept|] == kept;
    OutdoneOps(ms, res);
    PartDone(t.fleet, res, kept, "B", "a");
    OpForFacts(ms, res, "B", "a");
    OutdoneCells(t.fleet, res, ApplyAll(h, t.fleet, kept), kept);
  }

  lemma OutdoneCells(f: Fleet, res: seq<Resolution>, g: Fleet, kept: seq<SyncOp>)
    requires Outdone(ManifestsOf(f)) && OnlyOutdone(ManifestsOf(f), res) && g.Keys == f.Keys
    requires !DoneIn(kept, "B", "a") && forall d, p :: d in f ==> CellAt(f, res, g, d, p, DoneIn(kept, d, p))
    ensures Outdone(ManifestsOf(g))
  {
    hide OpFor;
    hide FileAfter;
    hide DoneIn;
    hide Leq;
    var ms, after := ManifestsOf(f), ManifestsOf(g);
    OutdoneRemoval(ms, res, "B");
    forall d, p | d in f
      ensures d == "A" || p != "a/b" ==> Lookup(after[d], p) == Lookup(ms[d], p)
    {
      assert CellAt(f, res, g, d, p, DoneIn(kept, d, p));
    }
    assert CellAt(f, res, g, "B", "a/b", DoneIn(kept, "B", "a/b"));
    SameMap(after["A"], ms["A"]);
    forall p
      ensures p in after["B"] <==> p == "a/b"
    {
      assert p != "a/b" ==> Lookup(after["B"], p) == Lookup(ms["B"], p);
    }
  }

  /** The copy does not get through. */
  lemma CopyIsBlocked(t: Tree, plan: seq<SyncOp>)
    requires WellRooted(t) && "B" in t.fleet && "a" in t.dirs["B"]
    ensures forall op :: op in Through(t, plan) ==> !(op.kind == COPY && op.Key() == ("B", "a"))
  {
    ThroughMembers(t, plan);
  }

  /** Where a directory has become a file, nothing is in conflict, nothing was renamed, nothing is buried, and on
      flat disks every plan would make the drives agree. On the file tree no plan does, and what it leaves is
      as bad: the directory stays, and the file cannot take its place. */
  lemma DirBecameFileIsStuck(h: Bytes -> Digest, t: Tree, res: seq<Resolution>, plan: seq<SyncOp>)
    requires DirBecameFile(h, t) && IsPlanOf(ManifestsOf(t.fleet), res, plan)
    ensures NoRenames(ManifestsOf(t.fleet)) && NothingBuried(ManifestsOf(t.fleet), res)
    ensures forall p :: !InConflict(Versions(ManifestsOf(t.fleet), p))
    ensures Converged(ApplyAll(h, t.fleet, plan))
    ensures WellRooted(t) && !Converged(TreeRun(h, t, plan).fleet) && DirBecameFile(h, TreeRun(h, t, plan))
  {
    hide *;
    StuckParts(h, t, res);
    var ms, u := ManifestsOf(t.fleet), TreeRun(h, t, plan);
    OutdoneIsCalm(ms);
    OutdoneUnburied(ms, res);
    NoneBuried(ms, res);
    CalmPlan(h, t.fleet, res, plan);
    TreeRunIsThrough(h, t, res, plan);
    TreeConverges(h, t, res, plan);
    AsPlannedKeys(h, t, res, plan, u);
    CopyIsBlocked(t, plan);
    OutdoneStays(h, t, res, Through(t, plan));
    AsPlannedAt(h, t, res, plan, u, "B", "a");
    StuckAgain(h, t, res, u);
  }

  lemma NoneBuried(ms: Manifests, res: seq<Resolution>)
    requires NothingBuried(ms, res)
    ensures !BytesBuried(ms, res) && forall t, p :: !Buried(ms, res, t, p)
  {
    hide Buried;
    hide Moves;
  }

  lemma StuckParts(h: Bytes -> Digest, t: Tree, res: seq<Resolution>)
    requires DirBecameFile(h, t)
    ensures Fit(h, t) && IsTree(t) && WellRooted(t) && Sane(h, t.fleet) && CollisionFree(h, t.fleet)
    ensures Outdone(ManifestsOf(t.fleet)) && "B" in t.fleet && "a" in t.dirs["B"] && !NoCopyBlocked(t, res)
  {
    hide OpFor;
    hide Sane;
    hide CollisionFree;
    OutdoneOps(ManifestsOf(t.fleet), res);
    assert Blocked(t, "B", "a");
  }

  lemma StuckAgain(h: Bytes -> Digest, t: Tree, res: seq<Resolution>, u: Tree)
    requires DirBecameFile(h, t) && Fit(h, u) && WellRooted(u) && u.fleet.Keys == t.fleet.Keys
    requires Outdone(ManifestsOf(u.fleet)) && DirAsPlanned(t, res, u, "B", "a")
    ensures DirBecameFile(h, u)
  {
    hide Fit;
    hide Outdone;
  }

  /** "B" still has "a/b"; on "A" it was deleted, and a file "a" was made. */
  function BecameFile(h: Bytes -> Digest, x: Bytes, y: Bytes): Tree {
    Tree(map["A" := Replica(map["a" := x], map["a" := BLANK.(hash := h(x)), "a/b" := TOMB_A]),
             "B" := Replica(map["a/b" := y], map["a/b" := BLANK.(hash := h(y))])],
         map["A" := {}, "B" := {"a"}])
  }

  lemma BecameFileFits(h: Bytes -> Digest, x: Bytes, y: Bytes)
    requires h(x) != h(y) && OnlyPreimage(h, x) && OnlyPreimage(h, y)
    ensures DirBecameFile(h, BecameFile(h, x, y))
  {
    hide OnlyPreimage;
    var t := BecameFile(h, x, y);
    assert t.fleet.Keys == {"A", "B"};
    assert t.fleet["A"].manifest.Keys == {"a", "a/b"} && t.fleet["B"].manifest.Keys == {"a/b"};
    assert Matches(h, t.fleet["A"]) && Matches(h, t.fleet["B"]);
    BecameFileStands(h, x, y);
  }

  lemma BecameFileStands(h: Bytes -> Digest, x: Bytes, y: Bytes)
    ensures IsTree(BecameFile(h, x, y))
  {
    var t := BecameFile(h, x, y);
    assert ParentDir("a") == "" by { assert forall i :: 0 <= i < |"a"| ==> "a"[i] != '/'; }
    AboveAB();
  }
}
