/** Sync after sync: the runs of the command are the rounds of which convergence and quiescence speak. */
module RepeatedSync {
  import opened Base
  import opened SyncOps
  import opened Drives
  import opened CrashSafety
  import opened Executor
  import opened ConflictResolver
  import opened RenameDetection
  import opened PlanRules
  import opened PlanOrder
  import opened SyncPlanner
  import opened Burial
  import opened Convergence
  import opened PlanMeaning
  import opened FileTree
  import opened TreeRounds
  import opened Quiescence
  import opened Pipeline

  /** What a sync makes of the drives if nothing fails but for what stands in the way on the file tree. */
  ghost predicate OneSync(h: Bytes -> Digest, t: Tree, res: seq<Resolution>, plan: seq<SyncOp>, u: Tree) {
    && (exists conflicts :: Settles(ManifestsOf(t.fleet), conflicts, res))
    && IsPlanOf(ManifestsOf(t.fleet), res, plan) && WellRooted(t) && u == TreeRun(h, t, plan)
  }

  /** Each tree is what a sync made of the one before. */
  ghost predicate Syncs(h: Bytes -> Digest, ts: seq<Tree>, rs: seq<seq<Resolution>>, plans: seq<seq<SyncOp>>) {
    && |ts| == |rs| + 1 == |plans| + 1
    && forall i :: 0 <= i < |rs| ==> OneSync(h, ts[i], rs[i], plans[i], ts[i + 1])
  }

  // ----- The first sync ---------------------------------------------------------------------

  /** If nothing was renamed, the first sync keeps disks and manifests matched, and it settles the drives if and
      only if it makes them agree: if no operation that moves bytes is buried, and no copy blocked. */
  lemma FirstSync(h: Bytes -> Digest, t: Tree, res: seq<Resolution>, plan: seq<SyncOp>, u: Tree)
    requires Fit(h, t) && NoRenames(ManifestsOf(t.fleet)) && OneSync(h, t, res, plan, u)
    ensures Fit(h, u) && WellRooted(t)
    ensures Converged(u.fleet) <==> !BytesBuried(ManifestsOf(t.fleet), res) && NoCopyBlocked(t, res)
    ensures Settled(ManifestsOf(u.fleet)) <==> Converged(u.fleet)
  {
    hide *;
    SyncParts(h, t, res, plan, u);
    TreeConverges(h, t, res, plan);
    FitParts(h, u);
    MatchedMeansSettled(h, u.fleet);
  }

  lemma SyncParts(h: Bytes -> Digest, t: Tree, res: seq<Resolution>, plan: seq<SyncOp>, u: Tree)
    requires OneSync(h, t, res, plan, u)
    ensures IsPlanOf(ManifestsOf(t.fleet), res, plan) && WellRooted(t) && u == TreeRun(h, t, plan)
  {
    hide IsPlanOf;
    hide TreeRun;
  }

  /** Where disks match manifests, drives that agree are settled, and the other way round. */
  lemma MatchedMeansSettled(h: Bytes -> Digest, g: Fleet)
    requires Sane(h, g) && CollisionFree(h, g)
    ensures Settled(ManifestsOf(g)) <==> Converged(g)
  {
    hide Sane;
    hide CollisionFree;
    forall p, d, e | d in g && e in g
      ensures OneContent(ManifestsOf(g), d, e, p) <==> (p in g[d].disk ==> p in g[e].disk && g[e].disk[p] == g[d].disk[p])
    {
      CellMatches(h, g, d, e, p);
    }
    SettledCells(g);
  }

  ghost predicate OneContent(ms: Manifests, d: DriveId, e: DriveId, p: Path)
    requires d in ms && e in ms
  {
    Live(ms[d], p) ==> Live(ms[e], p) && ms[e][p].hash == ms[d][p].hash
  }

  lemma SettledCells(g: Fleet)
    ensures Settled(ManifestsOf(g))
      <==> forall p, d, e :: d in g && e in g ==> OneContent(ManifestsOf(g), d, e, p)
  {
    var ms := ManifestsOf(g);
    if Settled(ms) {
      forall p, d, e | d in g && e in g
        ensures OneContent(ms, d, e, p)
      {
        assert Uniform(ms, p);
      }
    }
    if forall p, d, e :: d in g && e in g ==> OneContent(ms, d, e, p) {
      forall p
        ensures Uniform(ms, p)
      {
        forall d, e | d in ms && e in ms
          ensures Live(ms[d], p) ==> Live(ms[e], p) && ms[e][p].hash == ms[d][p].hash
        {
          assert OneContent(ms, d, e, p);
        }
      }
    }
  }

  lemma CellMatches(h: Bytes -> Digest, g: Fleet, d: DriveId, e: DriveId, p: Path)
    requires Sane(h, g) && CollisionFree(h, g) && d in g && e in g
    ensures OneContent(ManifestsOf(g), d, e, p) <==> (p in g[d].disk ==> p in g[e].disk && g[e].disk[p] == g[d].disk[p])
  {
    hide AllPaths;
    hide IsTmp;
    assert Matches(h, g[d]) && Matches(h, g[e]);
    assert p in g[d].disk ==> OnlyPreimage(h, g[d].disk[p]);
  }

  // ----- The later ones ---------------------------------------------------------------------

  /** On settled drives nothing is copied, so nothing is buried. */
  lemma SettledBuriesNothing(ms: Manifests, res: seq<Resolution>)
    requires Settled(ms)
    ensures NothingBuried(ms, res)
  {
    hide OpFor;
    forall t, d, p
      ensures !Buries(ms, res, t, d, p)
    {
      if OpFor(ms, res, t, p).Some? {
        assert Uniform(ms, p);
        OpForFacts(ms, res, t, p);
        SettledOp(ms, res, t, p);
      }
    }
  }

  /** On settled drives nothing is copied, so nothing is blocked. */
  lemma SettledIsFree(t: Tree, res: seq<Resolution>, plan: seq<SyncOp>)
    requires WellRooted(t) && Settled(ManifestsOf(t.fleet)) && PartOf(plan, ManifestsOf(t.fleet), res)
    ensures Through(t, plan) == plan
  {
    hide OpFor;
    hide IsBlocked;
    hide PartOf;
    forall op | op in plan
      ensures !IsBlocked(t, op)
    {
      SettledMakesNoFile(ManifestsOf(t.fleet), res, plan, op);
      NowhereToGo(t, op);
    }
    AllThrough(t, plan);
  }

  lemma SettledMakesNoFile(ms: Manifests, res: seq<Resolution>, plan: seq<SyncOp>, op: SyncOp)
    requires Settled(ms) && PartOf(plan, ms, res) && op in plan
    ensures Destination(op).None?
  {
    hide OpFor;
    if op.kind != MKDIR {
      PartIsCalled(ms, res, plan, op);
      assert Uniform(ms, op.path);
      OpForFacts(ms, res, op.target, op.path);
      SettledOp(ms, res, op.target, op.path);
    }
  }

  /** A sync of settled drives is a round, moves no bytes, and leaves them settled. */
  lemma SyncIsRound(h: Bytes -> Digest, t: Tree, res: seq<Resolution>, plan: seq<SyncOp>, u: Tree)
    requires Fit(h, t) && Settled(ManifestsOf(t.fleet)) && OneSync(h, t, res, plan, u)
    ensures FleetRound(h, t.fleet, res, plan, u.fleet)
    ensures Fit(h, u) && Settled(ManifestsOf(u.fleet)) && Converged(u.fleet) && SameDisks(t.fleet, u.fleet)
  {
    hide *;
    SyncParts(h, t, res, plan, u);
    FitParts(h, t);
    SettledMeansNoRenames(ManifestsOf(t.fleet));
    SettledBuriesNothing(ManifestsOf(t.fleet), res);
    CalmPlan(h, t.fleet, res, plan);
    SettledIsFree(t, res, plan);
    TreeRunIsThrough(h, t, res, plan);
    AsPlannedKeys(h, t, res, plan, u);
    FitFrom(h, u);
    RoundFrom(h, t.fleet, res, plan, u.fleet);
    GoodFrom(h, t.fleet);
    RoundKeepsGood(h, t.fleet, res, plan, u.fleet);
  }

  lemma GoodFrom(h: Bytes -> Digest, g: Fleet)
    requires Sane(h, g) && CollisionFree(h, g)
    ensures Good(h, g)
  {
  }

  lemma RoundFrom(h: Bytes -> Digest, f: Fleet, res: seq<Resolution>, plan: seq<SyncOp>, g: Fleet)
    requires CarriesOut(plan, ManifestsOf(f), res) && g == ApplyAll(h, f, plan)
    ensures FleetRound(h, f, res, plan, g)
  {
  }

  lemma {:induction false} SyncsAreRounds(
    h: Bytes -> Digest, ts: seq<Tree>, rs: seq<seq<Resolution>>, plans: seq<seq<SyncOp>>, i: nat)
    requires Syncs(h, ts, rs, plans) && Fit(h, ts[0]) && Settled(ManifestsOf(ts[0].fleet)) && i < |ts|
    ensures Fit(h, ts[i]) && Settled(ManifestsOf(ts[i].fleet)) && SameDisks(ts[0].fleet, ts[i].fleet)
    ensures forall k :: 0 <= k < i ==> FleetRound(h, ts[k].fleet, rs[k], plans[k], ts[k + 1].fleet)
  {
    hide Fit;
    hide Settled;
    hide OneSync;
    hide FleetRound;
    if i > 0 {
      SyncsAreRounds(h, ts, rs, plans, i - 1);
      SyncIsRound(h, ts[i - 1], rs[i - 1], plans[i - 1], ts[i]);
    }
  }

  /** The same manifests are resolved in the same way. */
  lemma SameResolutions(
    h: Bytes -> Digest, t: Tree, res: seq<Resolution>, plan: seq<SyncOp>, u: Tree,
    t': Tree, res': seq<Resolution>, plan': seq<SyncOp>, u': Tree)
    requires OneSync(h, t, res, plan, u) && OneSync(h, t', res', plan', u')
    requires ManifestsOf(t'.fleet) == ManifestsOf(t.fleet)
    ensures res' == res
  {
    hide Settles;
    hide IsPlanOf;
    hide ManifestsOf;
    hide TreeRun;
    var conflicts :| Settles(ManifestsOf(t.fleet), conflicts, res);
    var others :| Settles(ManifestsOf(t'.fleet), others, res');
    SettlingIsDetermined(ManifestsOf(t.fleet), conflicts, res, others, res');
  }

  /** With nothing to work on, the plan is empty: not even a directory is planned. */
  lemma NothingTouchedNothingPlanned(ms: Manifests, res: seq<Resolution>, plan: seq<SyncOp>)
    requires IsPlanOf(ms, res, plan) && NoRenames(ms) && Touched(ms, res) == {}
    ensures plan == []
  {
    hide Emitted;
    hide OpFor;
    hide Touched;
    hide KahnOrdered;
    hide KeepLast;
    hide Sound;
    var r, sorted := PlanParts(ms, res, plan);
    NothingDetected(ms, r);
    var ops := Emitted(ms, res, r);
    if ops != [] {
      EmittedMeansTouched(ms, res, r);
    }
    NothingSorted(sorted);
  }

  /** Whatever is emitted, some operation on a file is. */
  lemma EmittedMeansTouched(ms: Manifests, res: seq<Resolution>, r: RenameMap)
    requires NoneRenamed(r) && Emitted(ms, res, r) != []
    ensures Touched(ms, res) != {}
  {
    hide Emitted;
    hide OpFor;
    hide Touched;
    var i := 0;
    if Emitted(ms, res, r)[0].kind == MKDIR {
      i := CopyBelow(ms, res, r, 0);
    }
    PlainOp(ms, res, r, i);
    var op := Emitted(ms, res, r)[i];
    InTouched(ms, res, op.target, op.path);
  }

  lemma NothingSorted(sorted: seq<SyncOp>)
    ensures KahnOrdered([], sorted) ==> sorted == [] && KeepLast(sorted) == []
  {
  }

  /** If nothing was renamed when the first of some syncs began, and it neither buries anything that moves bytes
      nor finds a copy blocked, then after it the drives agree for good and no file changes any more; and from
      a sync on that the drives' lag bounds, every plan is empty and nothing at all changes. */
  lemma SyncingComesToRest(
    h: Bytes -> Digest, ts: seq<Tree>, rs: seq<seq<Resolution>>, plans: seq<seq<SyncOp>>, i: nat)
    requires Syncs(h, ts, rs, plans) && Fit(h, ts[0]) && NoRenames(ManifestsOf(ts[0].fleet)) && 1 <= i < |ts|
    requires !BytesBuried(ManifestsOf(ts[0].fleet), rs[0]) && WellRooted(ts[0]) && NoCopyBlocked(ts[0], rs[0])
    ensures Converged(ts[i].fleet) && SameDisks(ts[1].fleet, ts[i].fleet)
    ensures 1 + |Lag(ManifestsOf(ts[1].fleet))| <= i < |rs| ==> plans[i] == [] && ts[i + 1] == ts[i]
  {
    hide *;
    Tails(h, ts, rs, plans, i);
    var us, qs, ls := ts[1..], rs[1..], plans[1..];
    FirstSync(h, ts[0], rs[0], plans[0], ts[1]);
    SyncsAreRounds(h, us, qs, ls, i - 1);
    SettledAgree(h, us[i - 1]);
    if 1 + |Lag(ManifestsOf(ts[1].fleet))| <= i < |rs| {
      Rests(h, us, qs, ls, i - 1);
    }
  }

  lemma SettledAgree(h: Bytes -> Digest, t: Tree)
    requires Fit(h, t) && Settled(ManifestsOf(t.fleet))
    ensures Converged(t.fleet)
  {
    hide *;
    FitParts(h, t);
    MatchedMeansSettled(h, t.fleet);
  }

  lemma Tails(h: Bytes -> Digest, ts: seq<Tree>, rs: seq<seq<Resolution>>, plans: seq<seq<SyncOp>>, i: nat)
    requires Syncs(h, ts, rs, plans) && 1 <= i < |ts|
    ensures |rs| > 0 && OneSync(h, ts[0], rs[0], plans[0], ts[1])
    ensures |plans| == |rs| == |ts| - 1 && Syncs(h, ts[1..], rs[1..], plans[1..])
  {
    hide OneSync;
  }

  lemma Rests(h: Bytes -> Digest, ts: seq<Tree>, rs: seq<seq<Resolution>>, plans: seq<seq<SyncOp>>, i: nat)
    requires Syncs(h, ts, rs, plans) && Fit(h, ts[0]) && Settled(ManifestsOf(ts[0].fleet))
    requires |Lag(ManifestsOf(ts[0].fleet))| <= i < |rs|
    ensures plans[i] == [] && ts[i + 1] == ts[i]
  {
    hide Fit;
    hide Settled;
    hide OneSync;
    hide Lag;
    hide Touched;
    hide ManifestsOf;
    hide FleetRound;
    hide NoRenames;
    hide IsPlanOf;
    SyncsAreRounds(h, ts, rs, plans, |rs|);
    var fs := seq(|ts|, k requires 0 <= k < |ts| => ts[k].fleet);
    forall k | 0 <= k < |rs| - 1 && ManifestsOf(fs[k + 1]) == ManifestsOf(fs[k])
      ensures rs[k + 1] == rs[k]
    {
      SameResolutions(h, ts[k], rs[k], plans[k], ts[k + 1], ts[k + 1], rs[k + 1], plans[k + 1], ts[k + 2]);
    }
    assert FleetRun(h, fs, rs, plans);
    FitIsGood(h, ts[0]);
    BoundedQuiescence(h, fs, rs, plans, i);
    SyncsAreRounds(h, ts, rs, plans, i);
    SettledMeansNoRenames(ManifestsOf(ts[i].fleet));
    SyncParts(h, ts[i], rs[i], plans[i], ts[i + 1]);
    NothingTouchedNothingPlanned(ManifestsOf(ts[i].fleet), rs[i], plans[i]);
  }

  lemma FitIsGood(h: Bytes -> Digest, t: Tree)
    requires Fit(h, t)
    ensures Good(h, t.fleet)
  {
    hide Sane;
    hide CollisionFree;
  }

  // ----- A directory that has become a file -------------------------------------------------

  /** Where a directory has become a file, no number of syncs makes the drives agree, and no plan is empty. */
  lemma {:induction false} NeverComesToRest(
    h: Bytes -> Digest, ts: seq<Tree>, rs: seq<seq<Resolution>>, plans: seq<seq<SyncOp>>, i: nat)
    requires Syncs(h, ts, rs, plans) && DirBecameFile(h, ts[0]) && i < |ts|
    ensures DirBecameFile(h, ts[i]) && (i > 0 ==> !Converged(ts[i].fleet)) && (i < |rs| ==> plans[i] != [])
  {
    hide *;
    if i > 0 {
      NeverComesToRest(h, ts, rs, plans, i - 1);
      SyncAt(h, ts, rs, plans, i - 1);
      SyncParts(h, ts[i - 1], rs[i - 1], plans[i - 1], ts[i]);
      DirBecameFileIsStuck(h, ts[i - 1], rs[i - 1], plans[i - 1]);
    }
    SyncLengths(h, ts, rs, plans);
    if i < |rs| {
      SyncAt(h, ts, rs, plans, i);
      SyncParts(h, ts[i], rs[i], plans[i], ts[i + 1]);
      StuckHasPlan(h, ts[i], rs[i], plans[i]);
    }
  }

  lemma SyncLengths(h: Bytes -> Digest, ts: seq<Tree>, rs: seq<seq<Resolution>>, plans: seq<seq<SyncOp>>)
    requires Syncs(h, ts, rs, plans)
    ensures |ts| == |rs| + 1 == |plans| + 1
  {
    hide OneSync;
  }

  lemma SyncAt(h: Bytes -> Digest, ts: seq<Tree>, rs: seq<seq<Resolution>>, plans: seq<seq<SyncOp>>, i: nat)
    requires Syncs(h, ts, rs, plans) && i + 1 < |ts|
    ensures |ts| == |rs| + 1 == |plans| + 1 && OneSync(h, ts[i], rs[i], plans[i], ts[i + 1])
  {
    hide OneSync;
  }

  lemma StuckHasPlan(h: Bytes -> Digest, t: Tree, res: seq<Resolution>, plan: seq<SyncOp>)
    requires DirBecameFile(h, t) && IsPlanOf(ManifestsOf(t.fleet), res, plan)
    ensures plan != []
  {
    hide OpFor;
    hide Fit;
    hide IsPlanOf;
    hide Outdone;
    hide OnlyOutdone;
    hide NoRenames;
    hide PartOf;
    hide Fitted;
    hide Buried;
    var ms := ManifestsOf(t.fleet);
    OutdoneIsCalm(ms);
    OutdoneOps(ms, res);
    PlanIsFitted(ms, res, plan);
    OutdoneUnburied(ms, res);
    NoneBuried(ms, res);
  }
}
