/** A round with renames on a file tree, where no live path is above another: when the drives come to agree if
    some new names are still directories. */
module RenameTrees {
  import opened Base
  import opened SyncOps
  import opened VersionVectors
  import opened Drives
  import opened CrashSafety
  import opened Executor
  import opened ConflictResolver
  import opened RenameDetection
  import opened PlanRules
  import opened PlanOrder
  import opened SyncPlanner
  import opened PlanProperties
  import opened Convergence
  import opened PlanMeaning
  import opened FileTree
  import opened TreeRounds
  import opened RenameConvergence
  import opened CrossedNames

  /** What brings the names of a called-for rename to where they are to be on all drives: the rename, if it gets
      through and fits; or its being blocked, if it should not have been called for. */
  predicate Turns(t: Tree, res: seq<Resolution>, d: DriveId, p: Path, q: Path)
    requires WellRooted(t) && d in t.fleet && p in ManifestsOf(t.fleet)[d]
  {
    var ms := ManifestsOf(t.fleet);
    if Blocked(t, d, q) then
      Doomed(ms, res, q) && !Doomed(ms, res, p) && ms[SourceOf(ms, res, p).value][p].hash == ms[d][p].hash
    else Fits(ms, res, d, p, q)
  }

  ghost predicate AllTurn(t: Tree, res: seq<Resolution>)
    requires WellRooted(t)
  {
    forall s, d, p, q :: IsRename(ManifestsOf(t.fleet), s, d, p, q) ==> Turns(t, res, d, p, q)
  }

  // ----- What gets through ------------------------------------------------------------------

  lemma {:induction false} ThroughKeys(t: Tree, ops: seq<SyncOp>)
    requires WellRooted(t) && DistinctKeys(ops)
    ensures DistinctKeys(Through(t, ops))
  {
    hide IsBlocked;
    if ops != [] {
      var front, op := ops[..|ops| - 1], ops[|ops| - 1];
      ThroughKeys(t, front);
      ThroughMembers(t, front);
      var kept := Through(t, front);
      forall i | 0 <= i < |kept|
        ensures kept[i].Key() != op.Key()
      {
        assert kept[i] in kept && kept[i] in front;
        var k :| 0 <= k < |front| && front[k] == kept[i];
        assert ops[k] == kept[i];
      }
    }
  }

  lemma ThroughIsRound(t: Tree, ms: Manifests, res: seq<Resolution>, plan: seq<SyncOp>)
    requires WellRooted(t) && WholeRound(ms, res, plan)
    ensures RoundPart(ms, res, Through(t, plan))
  {
    hide OfRound;
    hide DistinctKeys;
    hide Through;
    hide IsBlocked;
    ThroughKeys(t, plan);
    ThroughMembers(t, plan);
  }

  /** What is planned for a name and does not get through is blocked. */
  lemma LeftOut(t: Tree, res: seq<Resolution>, plan: seq<SyncOp>, d: DriveId, x: Path) returns (op: SyncOp)
    requires WellRooted(t) && WholeRound(ManifestsOf(t.fleet), res, plan)
    requires OpFor(ManifestsOf(t.fleet), res, d, x).Some? && !WrittenIn(Through(t, plan), d, x)
    ensures op in plan && Writes(op, d, x) && IsBlocked(t, op) && OfRound(ManifestsOf(t.fleet), res, op)
  {
    hide OpFor;
    hide Through;
    hide IsBlocked;
    hide IsCalled;
    hide DistinctKeys;
    ThroughMembers(t, plan);
    op :| op in plan && Writes(op, d, x);
  }

  // ----- Where the drives come to agree -----------------------------------------------------

  /** Where no copy is blocked and every rename takes its turn, a name that nothing works on holds what the round
      is to give all drives. */
  lemma LeftAloneHolds(h: Bytes -> Digest, t: Tree, res: seq<Resolution>, plan: seq<SyncOp>, d: DriveId, x: Path)
    requires WellRooted(t) && Sane(h, t.fleet) && CollisionFree(h, t.fleet) && d in t.fleet
    requires WholeRound(ManifestsOf(t.fleet), res, plan) && !WrittenIn(Through(t, plan), d, x)
    requires NoCopyBlocked(t, res) && AllTurn(t, res)
    ensures HoldsShared(t.fleet, res, d, x)
  {
    hide OpFor;
    hide Sane;
    hide CollisionFree;
    hide Through;
    hide Shared;
    hide Blocked;
    hide IsRename;
    hide Turns;
    hide WholeRound;
    hide WrittenIn;
    var ms := ManifestsOf(t.fleet);
    if OpFor(ms, res, d, x).None? {
      SharedFile(h, t.fleet, res, d, x);
    } else {
      var op := LeftOut(t, res, plan, d, x);
      assert op.kind == RENAME;
      CalledFacts(ms, op);
      var s :| IsRename(ms, s, d, op.path, op.newPath.value);
      assert Turns(t, res, d, op.path, op.newPath.value);
      TurnedOnDisk(h, t, res, d, op.path, op.newPath.value);
    }
  }

  /** The two names of a blocked rename that takes its turn. */
  lemma TurnedOnDisk(h: Bytes -> Digest, t: Tree, res: seq<Resolution>, d: DriveId, p: Path, q: Path)
    requires WellRooted(t) && Sane(h, t.fleet) && CollisionFree(h, t.fleet) && d in t.fleet
    requires Live(ManifestsOf(t.fleet)[d], p) && !Live(ManifestsOf(t.fleet)[d], q)
    requires Turns(t, res, d, p, q) && Blocked(t, d, q)
    ensures HoldsShared(t.fleet, res, d, p) && HoldsShared(t.fleet, res, d, q)
  {
    hide Blocked;
    hide Quorum;
    hide SourceOf;
    hide AllPaths;
    var f, ms := t.fleet, ManifestsOf(t.fleet);
    var s := SourceOf(ms, res, p).value;
    assert Matches(h, f[d]) && Matches(h, f[s]);
    assert p in f[s].disk && h(f[s].disk[p]) == h(f[d].disk[p]);
  }

  lemma TurningFits(t: Tree, res: seq<Resolution>, plan: seq<SyncOp>)
    requires WellRooted(t) && WholeRound(ManifestsOf(t.fleet), res, plan) && AllTurn(t, res)
    ensures AllFit(ManifestsOf(t.fleet), res, Through(t, plan))
  {
    hide Through;
    hide IsBlocked;
    hide AllTurn;
    hide FitsHere;
    hide OfRound;
    hide DistinctKeys;
    hide WrittenIn;
    ThroughMembers(t, plan);
    forall op | op in Through(t, plan)
      ensures FitsHere(ManifestsOf(t.fleet), res, op)
    {
      TurningOneFits(t, res, op);
    }
  }

  lemma TurningOneFits(t: Tree, res: seq<Resolution>, op: SyncOp)
    requires WellRooted(t) && AllTurn(t, res) && OfRound(ManifestsOf(t.fleet), res, op) && !IsBlocked(t, op)
    ensures FitsHere(ManifestsOf(t.fleet), res, op)
  {
    hide OpFor;
    hide Blocked;
    hide IsRename;
    hide Fits;
    if op.kind == RENAME {
      CalledFacts(ManifestsOf(t.fleet), op);
      var s :| IsRename(ManifestsOf(t.fleet), s, op.target, op.path, op.newPath.value);
      assert Turns(t, res, op.target, op.path, op.newPath.value);
    }
  }

  /** Where no copy is blocked and every rename takes its turn, a sync makes the drives agree. */
  lemma TurningConverges(h: Bytes -> Digest, t: Tree, res: seq<Resolution>, plan: seq<SyncOp>)
    requires Fit(h, t) && LiveTree(ManifestsOf(t.fleet)) && IsPlanOf(ManifestsOf(t.fleet), res, plan)
    requires WellRooted(t) && NoCopyBlocked(t, res) && AllTurn(t, res)
    ensures Converged(TreeRun(h, t, plan).fleet) && Sane(h, TreeRun(h, t, plan).fleet)
  {
    hide *;
    var f, ms := t.fleet, ManifestsOf(t.fleet);
    FitParts(h, t);
    PlanIsWholeRound(ms, res, plan);
    LiveTreeRun(h, t, res, plan);
    ThroughIsRound(t, ms, res, plan);
    TurningFits(t, res, plan);
    forall d, x | d in f && !WrittenIn(Through(t, plan), d, x)
      ensures HoldsShared(f, res, d, x)
    {
      LeftAloneHolds(h, t, res, plan, d, x);
    }
    FittingPartConverges(h, f, res, Through(t, plan));
  }

  // ----- And where they do not --------------------------------------------------------------

  /** A called-for rename that is not blocked is done. */
  lemma UnblockedIsDone(
    h: Bytes -> Digest, t: Tree, res: seq<Resolution>, plan: seq<SyncOp>, s: DriveId, d: DriveId, p: Path, q: Path)
    requires Fit(h, t) && LiveTree(ManifestsOf(t.fleet)) && "" !in t.fleet && Paired(ManifestsOf(t.fleet))
    requires IsPlanOf(ManifestsOf(t.fleet), res, plan) && IsRename(ManifestsOf(t.fleet), s, d, p, q)
    requires WellRooted(t) && d in t.fleet && !Blocked(t, d, q)
    ensures var g := ApplyAll(h, t.fleet, Through(t, plan));
      && p in t.fleet[d].disk && h(t.fleet[d].disk[p]) == ManifestsOf(t.fleet)[d][p].hash
      && d in g && p !in g[d].disk && Lookup(g[d].disk, q) == Some(t.fleet[d].disk[p])
  {
    hide *;
    var f, ms, kept := t.fleet, ManifestsOf(t.fleet), Through(t, plan);
    FitParts(h, t);
    SameIds(f);
    PlanIsWholeRound(ms, res, plan);
    var i := CalledIsPlanned(ms, res, plan, s, d, p, q);
    TheOneCalled(ms, s, d, p, q, plan[i]);
    RenameGoesTo(t, plan[i], d, q);
    ThroughIsRound(t, ms, res, plan);
    ThroughMembers(t, plan);
    assert plan[i] in plan;
    var k := IndexIn(kept, plan[i]);
    forall j | 0 <= j < |kept| && j != k
      ensures !Writes(kept[j], d, p) && !Writes(kept[j], d, q)
    {
      NothingElseThere(ms, res, kept, k, j);
    }
    RenamedInTheEnd(h, f, kept, k);
    DiskMatches(h, f, d, p);
  }

  lemma RenameGoesTo(t: Tree, op: SyncOp, d: DriveId, q: Path)
    requires WellRooted(t) && d in t.fleet && op.kind == RENAME && op.target == d && op.newPath == Some(q)
    ensures IsBlocked(t, op) <==> Blocked(t, d, q)
  {
    hide Blocked;
  }

  /** One that is blocked leaves both names as they are. */
  lemma BlockedIsNotDone(
    h: Bytes -> Digest, t: Tree, res: seq<Resolution>, plan: seq<SyncOp>, s: DriveId, d: DriveId, p: Path, q: Path)
    requires Fit(h, t) && LiveTree(ManifestsOf(t.fleet)) && "" !in t.fleet && Paired(ManifestsOf(t.fleet))
    requires IsPlanOf(ManifestsOf(t.fleet), res, plan) && IsRename(ManifestsOf(t.fleet), s, d, p, q)
    requires WellRooted(t) && d in t.fleet && Blocked(t, d, q)
    ensures var g := ApplyAll(h, t.fleet, Through(t, plan));
      && p in t.fleet[d].disk && h(t.fleet[d].disk[p]) == ManifestsOf(t.fleet)[d][p].hash
      && d in g && q !in g[d].disk && Lookup(g[d].disk, p) == Some(t.fleet[d].disk[p])
  {
    hide *;
    var f, ms, kept := t.fleet, ManifestsOf(t.fleet), Through(t, plan);
    FitParts(h, t);
    SameIds(f);
    PlanIsWholeRound(ms, res, plan);
    WholeIsPart(ms, res, plan);
    var i := CalledIsPlanned(ms, res, plan, s, d, p, q);
    TheOneCalled(ms, s, d, p, q, plan[i]);
    RenameGoesTo(t, plan[i], d, q);
    ThroughMembers(t, plan);
    forall op | op in kept
      ensures !Writes(op, d, p) && !Writes(op, d, q)
    {
      var j := IndexIn(plan, op);
      NothingElseThere(ms, res, plan, i, j);
    }
    Unwritten(kept, d, p);
    Unwritten(kept, d, q);
    RenamedDrives(ms, s, d, p, q);
    TrackedIsNoTmp(h, f, d, p);
    TrackedIsNoTmp(h, f, s, q);
    UnwrittenStays(h, f, kept, d, p);
    UnwrittenStays(h, f, kept, d, q);
    LiveIsThere(h, f, d, p);
    LiveIsThere(h, f, d, q);
    DiskMatches(h, f, d, p);
    FoundThere(f[d].disk, ApplyAll(h, f, kept)[d].disk, p);
    FoundThere(f[d].disk, ApplyAll(h, f, kept)[d].disk, q);
  }

  lemma Unwritten(ops: seq<SyncOp>, d: DriveId, x: Path)
    requires forall op :: op in ops ==> !Writes(op, d, x)
    ensures !WrittenIn(ops, d, x)
  {
  }

  lemma TrackedIsNoTmp(h: Bytes -> Digest, f: Fleet, d: DriveId, p: Path)
    requires Sane(h, f) && d in ManifestsOf(f) && Live(ManifestsOf(f)[d], p)
    ensures !IsTmp(p)
  {
    hide IsTmp;
    MemberPath(ManifestsOf(f), d, p);
  }

  lemma LiveIsThere(h: Bytes -> Digest, f: Fleet, d: DriveId, p: Path)
    requires Sane(h, f) && d in f
    ensures p in f[d].disk <==> Live(ManifestsOf(f)[d], p)
  {
    hide AllPaths;
    assert Matches(h, f[d]);
  }

  lemma FoundThere<V>(a: map<Path, V>, b: map<Path, V>, p: Path)
    requires Lookup(a, p) == Lookup(b, p)
    ensures p in a <==> p in b
    ensures p in a ==> Lookup(b, p) == Some(a[p])
  {
  }

  /** A blocked copy keeps the drives apart. */
  lemma BlockedCopyKeepsApart(
    h: Bytes -> Digest, t: Tree, res: seq<Resolution>, plan: seq<SyncOp>, d: DriveId, p: Path)
    requires Fit(h, t) && LiveTree(ManifestsOf(t.fleet)) && SourceStays(ManifestsOf(t.fleet), res)
    requires IsPlanOf(ManifestsOf(t.fleet), res, plan) && WellRooted(t) && d in t.fleet
    requires CopyCalled(ManifestsOf(t.fleet), res, d, p) && Blocked(t, d, p)
    ensures !Converged(ApplyAll(h, t.fleet, Through(t, plan)))
  {
    hide *;
    var f, ms, kept := t.fleet, ManifestsOf(t.fleet), Through(t, plan);
    FitParts(h, t);
    PlanIsWholeRound(ms, res, plan);
    ThroughIsRound(t, ms, res, plan);
    var s := CopiedFrom(ms, res, d, p);
    SourceKeeps(h, f, res, kept, s, p);
    CopyLeftOut(t, res, plan, d, p);
    TrackedIsNoTmp(h, f, s, p);
    UnwrittenStays(h, f, kept, d, p);
    LiveIsThere(h, f, d, p);
    FoundThere(f[d].disk, ApplyAll(h, f, kept)[d].disk, p);
    LookupGone(ApplyAll(h, f, kept)[d].disk, p);
    Disagree(ApplyAll(h, f, kept), s, d, p);
  }

  lemma CopiedFrom(ms: Manifests, res: seq<Resolution>, d: DriveId, p: Path) returns (s: DriveId)
    requires CopyCalled(ms, res, d, p) && SourceStays(ms, res)
    ensures SourceOf(ms, res, p) == Some(s) && s in ms && Live(ms[s], p) && !Doomed(ms, res, p)
    ensures d in ms && !Live(ms[d], p) && forall e, q :: !IsRename(ms, e, s, p, q)
  {
    hide Quorum;
    hide SourceOf;
    hide JoinAt;
    hide Tombstones;
    hide Order;
    hide IsRename;
    s := SourceOf(ms, res, p).value;
  }

  lemma CopyLeftOut(t: Tree, res: seq<Resolution>, plan: seq<SyncOp>, d: DriveId, p: Path)
    requires WellRooted(t) && d in t.fleet && Blocked(t, d, p) && WholeRound(ManifestsOf(t.fleet), res, plan)
    requires CopyCalled(ManifestsOf(t.fleet), res, d, p) && !Live(ManifestsOf(t.fleet)[d], p)
    ensures !WrittenIn(Through(t, plan), d, p)
  {
    hide OpFor;
    hide Through;
    hide Blocked;
    hide IsCalled;
    hide DistinctKeys;
    ThroughMembers(t, plan);
    forall op | op in plan && Writes(op, d, p)
      ensures IsBlocked(t, op)
    {
      assert OfRound(ManifestsOf(t.fleet), res, op);
      if op.kind == RENAME {
        CalledFacts(ManifestsOf(t.fleet), op);
      }
    }
  }

  /** A called-for rename that does not take its turn keeps the drives apart. */
  lemma NoTurnKeepsApart(
    h: Bytes -> Digest, t: Tree, res: seq<Resolution>, plan: seq<SyncOp>, s: DriveId, d: DriveId, p: Path, q: Path)
    requires Fit(h, t) && LiveTree(ManifestsOf(t.fleet)) && "" !in t.fleet && Paired(ManifestsOf(t.fleet))
    requires !Chained(ManifestsOf(t.fleet)) && SourceStays(ManifestsOf(t.fleet), res)
    requires IsPlanOf(ManifestsOf(t.fleet), res, plan) && IsRename(ManifestsOf(t.fleet), s, d, p, q)
    requires WellRooted(t) && d in t.fleet && p in ManifestsOf(t.fleet)[d] && !Turns(t, res, d, p, q)
    ensures !Converged(ApplyAll(h, t.fleet, Through(t, plan)))
  {
    hide *;
    var f, ms, kept := t.fleet, ManifestsOf(t.fleet), Through(t, plan);
    var g := ApplyAll(h, f, kept);
    FitParts(h, t);
    PlanIsWholeRound(ms, res, plan);
    ThroughIsRound(t, ms, res, plan);
    Misfit(ms, res, s, d, p, q);
    Turnless(t, res, d, p, q);
    if Blocked(t, d, q) {
      BlockedIsNotDone(h, t, res, plan, s, d, p, q);
      if Doomed(ms, res, p) {
        NeverNamed(h, t, res, plan, s, d, p, q);
        LookupGone(g[s].disk, p);
        Disagree(g, d, s, p);
      } else if Doomed(ms, res, q) {
        var e := SourceOf(ms, res, p).value;
        SourceKeeps(h, f, res, kept, e, p);
        Disagree(g, d, e, p);
      } else {
        SourceIs(ms, res, q);
        var e := SourceOf(ms, res, q).value;
        SourceKeeps(h, f, res, kept, e, q);
        LookupGone(g[d].disk, q);
        Disagree(g, e, d, q);
      }
    } else {
      UnblockedIsDone(h, t, res, plan, s, d, p, q);
      if !Doomed(ms, res, p) {
        var e := SourceOf(ms, res, p).value;
        SourceKeeps(h, f, res, kept, e, p);
        LookupGone(g[d].disk, p);
        Disagree(g, e, d, p);
      } else if Doomed(ms, res, q) {
        LiveThere(f, s, q);
        DoomedGetsThrough(t, res, plan, s, q);
        DoomedGoes(h, f, res, kept, s, q);
        LookupGone(g[s].disk, q);
        Disagree(g, d, s, q);
      } else {
        var e := SourceOf(ms, res, q).value;
        SourceKeeps(h, f, res, kept, e, q);
        Disagree(g, e, d, q);
      }
    }
  }

  lemma SourceIs(ms: Manifests, res: seq<Resolution>, p: Path)
    requires !Doomed(ms, res, p)
    ensures SourceOf(ms, res, p).Some?
  {
    hide SourceOf;
    hide Quorum;
  }

  /** In which ways a rename can fail to take its turn. */
  lemma Turnless(t: Tree, res: seq<Resolution>, d: DriveId, p: Path, q: Path)
    requires WellRooted(t) && d in t.fleet && p in ManifestsOf(t.fleet)[d] && !Turns(t, res, d, p, q)
    ensures var ms := ManifestsOf(t.fleet);
      if !Blocked(t, d, q) then !Fits(ms, res, d, p, q)
      else !Doomed(ms, res, p) && Doomed(ms, res, q) ==>
        SourceOf(ms, res, p).Some? && ms[SourceOf(ms, res, p).value][p].hash != ms[d][p].hash
  {
    hide Blocked;
    hide Quorum;
    hide SourceOf;
  }

  /** The removal of a doomed name gets through. */
  lemma DoomedGetsThrough(t: Tree, res: seq<Resolution>, plan: seq<SyncOp>, d: DriveId, p: Path)
    requires WellRooted(t) && WholeRound(ManifestsOf(t.fleet), res, plan) && d in ManifestsOf(t.fleet)
    requires Live(ManifestsOf(t.fleet)[d], p) && Doomed(ManifestsOf(t.fleet), res, p)
    requires forall s, q :: !IsRename(ManifestsOf(t.fleet), s, d, p, q)
    ensures WrittenIn(Through(t, plan), d, p)
  {
    hide OpFor;
    hide Through;
    hide Blocked;
    hide IsRename;
    hide RoundPart;
    var ms := ManifestsOf(t.fleet);
    DoomedOp(ms, res, d, p);
    var op :| op in plan && Writes(op, d, p);
    OnlyFileOps(ms, res, plan, d, p, op);
    ThroughMembers(t, plan);
    assert op in Through(t, plan);
  }

  /** The drive that calls for a rename has the old name deleted, and it stays so if the name is doomed and nobody's
      new one. */
  lemma NeverNamed(
    h: Bytes -> Digest, t: Tree, res: seq<Resolution>, plan: seq<SyncOp>, s: DriveId, d: DriveId, p: Path, q: Path)
    requires Fit(h, t) && WholeRound(ManifestsOf(t.fleet), res, plan) && Doomed(ManifestsOf(t.fleet), res, p)
    requires IsRename(ManifestsOf(t.fleet), s, d, p, q) && !Chained(ManifestsOf(t.fleet))
    requires WellRooted(t) && RoundPart(ManifestsOf(t.fleet), res, Through(t, plan))
    ensures s in ApplyAll(h, t.fleet, Through(t, plan)) && p !in ApplyAll(h, t.fleet, Through(t, plan))[s].disk
  {
    hide *;
    var f, ms, kept := t.fleet, ManifestsOf(t.fleet), Through(t, plan);
    FitParts(h, t);
    SameIds(f);
    RenamedDrives(ms, s, d, p, q);
    DeletedThere(ms, s, d, p, q);
    forall op | op in kept
      ensures !Writes(op, s, p)
    {
      NothingRevives(ms, res, kept, s, d, p, q, op);
    }
    Unwritten(kept, s, p);
    TrackedIsNoTmp(h, f, d, p);
    UnwrittenStays(h, f, kept, s, p);
    LiveIsThere(h, f, s, p);
    FoundThere(f[s].disk, ApplyAll(h, f, kept)[s].disk, p);
  }

  lemma DeletedThere(ms: Manifests, s: DriveId, d: DriveId, p: Path, q: Path)
    requires IsRename(ms, s, d, p, q)
    ensures s in ms && !Live(ms[s], p)
  {
  }

  lemma NothingRevives(
    ms: Manifests, res: seq<Resolution>, ops: seq<SyncOp>, s: DriveId, d: DriveId, p: Path, q: Path, op: SyncOp)
    requires RoundPart(ms, res, ops) && op in ops && Doomed(ms, res, p) && IsRename(ms, s, d, p, q) && !Chained(ms)
    requires s in ms && !Live(ms[s], p)
    ensures !Writes(op, s, p)
  {
    hide OpFor;
    hide DistinctKeys;
    hide IsRename;
    hide Doomed;
    assert OfRound(ms, res, op);
    if op.kind == RENAME {
      CalledFacts(ms, op);
      var e :| IsRename(ms, e, op.target, op.path, op.newPath.value);
      assert op.newPath.value != p;
    } else if op.kind != MKDIR {
      DoomedIsRemoved(ms, res, op.target, op.path);
    }
  }

  lemma DoomedIsRemoved(ms: Manifests, res: seq<Resolution>, d: DriveId, p: Path)
    ensures OpFor(ms, res, d, p).Some? && Doomed(ms, res, p) ==> d in ms && Live(ms[d], p)
  {
    hide OpFor;
    hide SourceOf;
    hide Quorum;
    if OpFor(ms, res, d, p).Some? {
      OpForFacts(ms, res, d, p);
      OpForSource(ms, res, d, p);
    }
  }

  /** On a file tree on which no live path is above another, old and new names go in pairs, none is both, and no
      old name is renamed on its own source, a sync makes the drives agree if and only if no copy that is called
      for is blocked and every rename takes its turn. */
  lemma RenameTreeExactly(h: Bytes -> Digest, t: Tree, res: seq<Resolution>, plan: seq<SyncOp>)
    requires Fit(h, t) && LiveTree(ManifestsOf(t.fleet)) && "" !in t.fleet && Paired(ManifestsOf(t.fleet))
    requires !Chained(ManifestsOf(t.fleet)) && SourceStays(ManifestsOf(t.fleet), res)
    requires IsPlanOf(ManifestsOf(t.fleet), res, plan)
    ensures WellRooted(t) && IsTree(TreeRun(h, t, plan))
    ensures Converged(TreeRun(h, t, plan).fleet) <==> NoCopyBlocked(t, res) && AllTurn(t, res)
  {
    hide *;
    var ms := ManifestsOf(t.fleet);
    FitParts(h, t);
    LiveTreeRun(h, t, res, plan);
    if !NoCopyBlocked(t, res) {
      var d, p := SomeBlockedCopy(t, res);
      BlockedCopyKeepsApart(h, t, res, plan, d, p);
    } else if !AllTurn(t, res) {
      var s, d, p, q := SomeTurnless(t, res);
      NoTurnKeepsApart(h, t, res, plan, s, d, p, q);
    } else {
      TurningConverges(h, t, res, plan);
    }
  }

  lemma SomeBlockedCopy(t: Tree, res: seq<Resolution>) returns (d: DriveId, p: Path)
    requires WellRooted(t) && !NoCopyBlocked(t, res)
    ensures d in t.fleet && CopyCalled(ManifestsOf(t.fleet), res, d, p) && Blocked(t, d, p)
  {
    hide Blocked;
    hide CopyCalled;
    d, p :| d in t.fleet && CopyCalled(ManifestsOf(t.fleet), res, d, p) && Blocked(t, d, p);
  }

  lemma SomeTurnless(t: Tree, res: seq<Resolution>) returns (s: DriveId, d: DriveId, p: Path, q: Path)
    requires WellRooted(t) && !AllTurn(t, res)
    ensures IsRename(ManifestsOf(t.fleet), s, d, p, q) && d in t.fleet && p in ManifestsOf(t.fleet)[d]
    ensures !Turns(t, res, d, p, q)
  {
    hide Turns;
    s, d, p, q :| IsRename(ManifestsOf(t.fleet), s, d, p, q) && !Turns(t, res, d, p, q);
  }

  /** Where no live path is a directory on any drive, the rename round does on the tree what it does on flat
      disks. */
  lemma RenameTreeIsFlat(h: Bytes -> Digest, t: Tree, res: seq<Resolution>, plan: seq<SyncOp>)
    requires Fit(h, t) && LiveTree(ManifestsOf(t.fleet)) && FilesAt(LivePaths(ManifestsOf(t.fleet)), t)
    requires "" !in t.fleet && Paired(ManifestsOf(t.fleet)) && IsPlanOf(ManifestsOf(t.fleet), res, plan)
    requires Chained(ManifestsOf(t.fleet)) || SourceStays(ManifestsOf(t.fleet), res)
    ensures WellRooted(t) && (Converged(TreeRun(h, t, plan).fleet) <==> RenamesFit(ManifestsOf(t.fleet), res))
  {
    hide *;
    FitParts(h, t);
    TreeIsFlat(h, t, res, plan);
    RenameRoundExactly(h, t.fleet, res, plan);
  }

  // ----- A new name that is a directory -----------------------------------------------------

  /** "A" has renamed "p" to "q", which on "B" is still a directory: every rename fits, nothing is in conflict, and
      every plan leaves the fleet as it is. */
  lemma RenamedOntoDirIsStuck(h: Bytes -> Digest, x: Bytes, t: Tree, plan: seq<SyncOp>)
    requires IsTree(t) && t.fleet == RenamedOnce(h, x) && "B" in t.dirs && "q" in t.dirs["B"]
    requires OnlyPreimage(h, x) && IsPlanOf(ManifestsOf(t.fleet), [], plan)
    ensures RenamesFit(ManifestsOf(t.fleet), []) && WellRooted(t)
    ensures TreeRun(h, t, plan).fleet == t.fleet && !Converged(t.fleet) && IsTree(TreeRun(h, t, plan))
    ensures "B" in TreeRun(h, t, plan).dirs && "q" in TreeRun(h, t, plan).dirs["B"]
  {
    hide *;
    var ms := ManifestsOf(t.fleet);
    TreeIsRooted(t);
    RenamedOnceIsFit(h, x);
    RenamedOnceIsSane(h, x);
    LiveTreeRun(h, t, [], plan);
    PlanIsWholeRound(ms, [], plan);
    ThroughMembers(t, plan);
    OntoDirSetting(h, x, t);
    forall op | op in Through(t, plan)
      ensures op.kind == MKDIR
    {
      OntoDirOnly(h, x, t, plan, op);
    }
    AllDirectories(Through(t, plan));
    DirectoriesOnly(h, t.fleet, Through(t, plan));
    StillDir(LivePaths(ms), t, TreeRun(h, t, plan));
  }

  lemma AllDirectories(ops: seq<SyncOp>)
    requires forall op :: op in ops ==> op.kind == MKDIR
    ensures OnlyDirectories(ops)
  {
  }

  lemma OntoDirSetting(h: Bytes -> Digest, x: Bytes, t: Tree)
    requires t.fleet == RenamedOnce(h, x) && "B" in t.dirs && "q" in t.dirs["B"] && WellRooted(t)
    ensures "B" in t.fleet && Blocked(t, "B", "q") && "q" in LivePaths(ManifestsOf(t.fleet))
    ensures !Converged(t.fleet)
  {
    var f := t.fleet;
    assert "A" in f && "B" in f && "q" in f["A"].disk && "q" !in f["B"].disk;
    assert Live(ManifestsOf(f)["A"], "q");
  }

  lemma StillDir(live: set<Path>, t: Tree, u: Tree)
    requires WellRooted(t) && LikeAt(live, t, u) && "B" in t.fleet && "q" in live && "q" in t.dirs["B"]
    ensures "B" in u.dirs && "q" in u.dirs["B"]
  {
    hide FilesIn;
  }

  lemma OntoDirOnly(h: Bytes -> Digest, x: Bytes, t: Tree, plan: seq<SyncOp>, op: SyncOp)
    requires WellRooted(t) && t.fleet == RenamedOnce(h, x) && "B" in t.fleet && Blocked(t, "B", "q")
    requires IsPlanOf(ManifestsOf(t.fleet), [], plan) && WholeRound(ManifestsOf(t.fleet), [], plan)
    requires LiveTree(ManifestsOf(t.fleet)) && "" !in t.fleet && op in plan && !IsBlocked(t, op)
    ensures op.kind == MKDIR
  {
    hide *;
    var ms := ManifestsOf(t.fleet);
    SameIds(t.fleet);
    RenamedOnceCalls(h, x, "A", "B", "p", "q");
    var i := CalledIsPlanned(ms, [], plan, "A", "B", "p", "q");
    OntoDirNew(h, x, plan[i]);
    OntoDirOther(h, x, t, plan, op, plan[i]);
  }

  lemma OntoDirNew(h: Bytes -> Digest, x: Bytes, op: SyncOp)
    requires IsCalled(ManifestsOf(RenamedOnce(h, x)), op)
    ensures op.kind == RENAME && op.target == "B" && op.path == "p" && op.newPath == Some("q")
  {
    hide RenamedOnce;
    hide ManifestsOf;
    hide IsRename;
    var s :| IsRename(ManifestsOf(RenamedOnce(h, x)), s, op.target, op.path, op.newPath.value);
    RenamedOnceCalls(h, x, s, op.target, op.path, op.newPath.value);
  }

  lemma OntoDirOther(h: Bytes -> Digest, x: Bytes, t: Tree, plan: seq<SyncOp>, op: SyncOp, r: SyncOp)
    requires WellRooted(t) && t.fleet == RenamedOnce(h, x) && "B" in t.fleet && Blocked(t, "B", "q")
    requires WholeRound(ManifestsOf(t.fleet), [], plan) && op in plan && r in plan && !IsBlocked(t, op)
    requires r.kind == RENAME && r.target == "B" && r.path == "p" && r.newPath == Some("q")
    ensures op.kind == MKDIR
  {
    hide OpFor;
    hide RenamedOnce;
    hide ManifestsOf;
    hide Blocked;
    hide AllPaths;
    hide IsCalled;
    hide DistinctKeys;
    hide WrittenIn;
    var ms := ManifestsOf(t.fleet);
    assert OfRound(ms, [], op);
    if op.kind == RENAME {
      OntoDirNew(h, x, op);
    } else if op.kind != MKDIR {
      assert Apart(r, op);
      RenamedOnceManifests(h, x);
      RenamedOnceSources(h, x);
      OpForFacts(ms, [], op.target, op.path);
      OntoDirA(h, x, op.path);
    }
  }

  lemma OntoDirA(h: Bytes -> Digest, x: Bytes, p: Path)
    ensures p in {"p", "q"} ==> OpFor(ManifestsOf(RenamedOnce(h, x)), [], "A", p).None?
  {
    hide RenamedOnce;
    hide ManifestsOf;
    hide Quorum;
    hide SourceOf;
    hide JoinAt;
    hide Tombstones;
    RenamedOnceManifests(h, x);
    RenamedOnceSources(h, x);
  }
}
