/** A whole sync, from detection to the last operation. */
module Pipeline {
  import opened Base
  import opened SyncOps
  import opened VersionVectors
  import opened Drives
  import opened CrashSafety
  import opened Executor
  import opened ConflictResolver
  import opened RenameDetection
  import opened PlanRules
  import opened PlanOrder
  import opened SyncPlanner
  import opened PlanProperties
  import opened Burial
  import opened Convergence
  import opened PlanMeaning
  import opened FileTree
  import opened TreeRounds

  // ----- Carrying out a plan ----------------------------------------------------------------

  type Histories = map<DriveId, seq<Snapshot>>

  ghost function HistoriesOf(drives: map<DriveId, Drive>): Histories
    reads set d | d in drives :: drives[d]
  {
    map d | d in drives :: drives[d].history
  }

  /** A log that had nothing pending has something pending now if and only if its drive was `left` so. */
  ghost predicate OpenOn(left: set<DriveId>, before: map<DriveId, seq<LogRow>>, after: map<DriveId, seq<LogRow>>) {
    && after.Keys == before.Keys
    && forall d :: d in before ==> (NothingPending(after[d]) <==> NothingPending(before[d]) && d !in left)
  }

  /** Each drive's history goes on by steps that write tracked files whole. */
  ghost predicate GoOn(h: Bytes -> Digest, named: iset<Digest>, before: Histories, after: Histories) {
    after.Keys == before.Keys && forall d :: d in before ==> Continues(h, named, before[d], after[d])
  }

  ghost predicate Named(named: iset<Digest>, m: Manifest) {
    forall p :: p in m ==> m[p].hash == "" || m[p].hash in named
  }

  ghost predicate AllNamed(named: iset<Digest>, f: Fleet) {
    forall d :: d in f ==> Named(named, f[d].manifest)
  }

  /** A file operation works on tracked paths. */
  ghost predicate Tracked(op: SyncOp) {
    op.kind != MKDIR ==> !IsTmp(op.path) && (op.newPath.Some? ==> !IsTmp(op.newPath.value))
  }

  ghost predicate AllTracked(plan: seq<SyncOp>) {
    forall op :: op in plan ==> Tracked(op)
  }

  ghost predicate NoEmptyDigest(h: Bytes -> Digest) {
    forall x :: h(x) != ""
  }

  ghost predicate Steady(faults: nat -> Fault) {
    forall i :: faults(i) == NoFault
  }

  /** All the drives at one moment. */
  datatype Sight = Sight(fleet: Fleet, histories: Histories, logs: map<DriveId, seq<LogRow>>)

  ghost function See(drives: map<DriveId, Drive>): Sight
    reads set d | d in drives :: drives[d]
  {
    Sight(FleetOf(drives), HistoriesOf(drives), LogsOf(drives))
  }

  /** What any work on tracked files keeps: logs closed but for the drives that were `left` with an open
      row, and histories without torn files. */
  ghost predicate Proceeds(
    h: Bytes -> Digest, named: iset<Digest>, tracked: bool, left: set<DriveId>, a: Sight, b: Sight)
  {
    && OpenOn(left, a.logs, b.logs)
    && (tracked && AllNamed(named, a.fleet) && NoEmptyDigest(h) ==>
          GoOn(h, named, a.histories, b.histories) && AllNamed(named, b.fleet))
  }

  lemma ProceedsTransitive(
    h: Bytes -> Digest, named: iset<Digest>, tracked: bool, one: set<DriveId>, two: set<DriveId>,
    a: Sight, b: Sight, c: Sight)
    requires Proceeds(h, named, tracked, one, a, b) && Proceeds(h, named, tracked, two, b, c)
    ensures Proceeds(h, named, tracked, one + two, a, c)
  {
    hide Continues;
    hide NothingPending;
    hide AllNamed;
    hide NoEmptyDigest;
    if tracked && AllNamed(named, a.fleet) && NoEmptyDigest(h) {
      forall d | d in a.histories
        ensures Continues(h, named, a.histories[d], c.histories[d])
      {
        ContinuesTransitive(h, named, a.histories[d], b.histories[d], c.histories[d]);
      }
    }
  }

  /** Named digests stay named: the entries of a drive only ever take digests that were. */
  lemma NamesKept(h: Bytes -> Digest, named: iset<Digest>, run: seq<Snapshot>, later: seq<Snapshot>, originals: iset<Bytes>)
    requires Continues(h, named, run, later) && NoTornFiles(h, named, originals, run[|run| - 1])
    ensures forall k :: |run| - 1 <= k < |later| ==> NoTornFiles(h, named, originals, later[k])
  {
    hide NoTornFiles;
    hide DriveStep;
    var since := later[|run| - 1..];
    forall k | |run| - 1 <= k < |later|
      ensures NoTornFiles(h, named, originals, later[k])
    {
      assert IsHistory(h, named, since);
      NoTornFilesOverRuns(h, named, originals, since, k - (|run| - 1));
    }
  }

  ghost function ManifestIn(run: seq<Snapshot>): Manifest {
    if run == [] then map[] else run[|run| - 1].manifest
  }

  lemma EntriesNamed(h: Bytes -> Digest, named: iset<Digest>, run: seq<Snapshot>, later: seq<Snapshot>)
    requires Continues(h, named, run, later) && Named(named, ManifestIn(run))
    ensures Named(named, ManifestIn(later))
  {
    hide DriveStep;
    var all := iset x: Bytes | |x| >= 0;
    assert NoTornFiles(h, named, all, run[|run| - 1]);
    NamesKept(h, named, run, later, all);
    assert NoTornFiles(h, named, all, later[|later| - 1]);
  }

  lemma NamedAfter(h: Bytes -> Digest, named: iset<Digest>, f: Fleet, before: Histories, after: Histories, g: Fleet)
    requires AllNamed(named, f) && GoOn(h, named, before, after)
    requires f.Keys == g.Keys == before.Keys
    requires forall d :: d in f ==> ManifestIn(before[d]) == f[d].manifest
    requires forall d :: d in g ==> ManifestIn(after[d]) == g[d].manifest
    ensures AllNamed(named, g)
  {
    hide Continues;
    hide Named;
    hide ManifestIn;
    forall d | d in g
      ensures Named(named, g[d].manifest)
    {
      EntriesNamed(h, named, before[d], after[d]);
    }
  }

  lemma OrderlyNow(h: Bytes -> Digest, named: iset<Digest>, f: Fleet, op: SyncOp)
    requires AllNamed(named, f) && Tracked(op) && NoEmptyDigest(h)
    ensures Orderly(h, named, f, op)
  {
    hide IsTmp;
    assert forall d :: d in f ==> Named(named, f[d].manifest);
  }

  function LeftBy(f: Fleet, op: SyncOp, fault: Fault): set<DriveId> {
    if LeavesOpen(f, op, fault) then {op.target} else {}
  }

  /** One operation, with what it means for all the drives. */
  method ExecuteOne(h: Bytes -> Digest, op: SyncOp, drives: map<DriveId, Drive>, fault: Fault, ghost named: iset<Digest>)
    returns (ok: bool)
    requires Wired(drives)
    modifies if op.target in drives then {drives[op.target]} else {}
    ensures Wired(drives)
    ensures Proceeds(h, named, Tracked(op), LeftBy(old(FleetOf(drives)), op, fault), old(See(drives)), See(drives))
    ensures FleetOf(drives) == Suffered(h, old(FleetOf(drives)), op, fault)
    ensures ok == Reports(h, old(FleetOf(drives)), op, fault)
  {
    hide *;
    ghost var before := See(drives);
    Shown(drives);
    if op.target in drives {
      OthersDiffer(drives, op.target);
    }
    ok := Execute(h, op, drives, fault, named);
    forall d | d in drives && d != op.target
      ensures drives[d].history == old(drives[d].history) && drives[d].log == old(drives[d].log)
    {
    }
    Shown(drives);
    OneProceeds(h, named, op, fault, before, See(drives));
  }

  lemma Shown(drives: map<DriveId, Drive>)
    requires Wired(drives)
    ensures var s := See(drives);
      && s.fleet == FleetOf(drives) && WellShown(s) && s.fleet.Keys == drives.Keys
      && (forall d :: d in drives ==> s.histories[d] == drives[d].history && s.logs[d] == drives[d].log)
  {
  }

  lemma OthersDiffer(drives: map<DriveId, Drive>, t: DriveId)
    requires Wired(drives) && t in drives
    ensures forall d :: d in drives && d != t ==> drives[d] != drives[t]
  {
  }

  ghost predicate WellShown(s: Sight) {
    && s.histories.Keys == s.logs.Keys == s.fleet.Keys
    && (forall d :: d in s.fleet ==> s.histories[d] != [] && ManifestIn(s.histories[d]) == s.fleet[d].manifest)
    && (forall d :: d in s.fleet ==> s.histories[d][|s.histories[d]| - 1].disk == s.fleet[d].disk)
  }

  lemma OneProceeds(h: Bytes -> Digest, named: iset<Digest>, op: SyncOp, fault: Fault, before: Sight, after: Sight)
    requires WellShown(before) && WellShown(after) && after.fleet.Keys == before.fleet.Keys
    requires forall d :: d in before.fleet && d != op.target ==>
      after.histories[d] == before.histories[d] && after.logs[d] == before.logs[d]
    requires op.target in before.fleet ==>
      after.logs[op.target] == before.logs[op.target] + OutcomeOf(h, before.fleet, op, fault).rows
    requires op.target in before.fleet && Orderly(h, named, before.fleet, op) ==>
      Continues(h, named, before.histories[op.target], after.histories[op.target])
    ensures Proceeds(h, named, Tracked(op), LeftBy(before.fleet, op, fault), before, after)
  {
    hide NothingPending;
    hide Continues;
    hide Orderly;
    hide AllNamed;
    hide ManifestIn;
    hide Tracked;
    hide NoEmptyDigest;
    hide OpenOn;
    OneLeft(h, op, fault, before, after);
    if Tracked(op) && AllNamed(named, before.fleet) && NoEmptyDigest(h) {
      OrderlyNow(h, named, before.fleet, op);
      OthersGoOn(h, named, before.histories, after.histories, op.target);
      NamedAfter(h, named, before.fleet, before.histories, after.histories, after.fleet);
    }
  }

  lemma OneLeft(h: Bytes -> Digest, op: SyncOp, fault: Fault, before: Sight, after: Sight)
    requires before.logs.Keys == after.logs.Keys == before.fleet.Keys
    requires forall d :: d in before.fleet && d != op.target ==> after.logs[d] == before.logs[d]
    requires op.target in before.fleet ==>
      after.logs[op.target] == before.logs[op.target] + OutcomeOf(h, before.fleet, op, fault).rows
    ensures OpenOn(LeftBy(before.fleet, op, fault), before.logs, after.logs)
  {
    hide NothingPending;
    hide OutcomeOf;
    if op.target in before.fleet {
      OpenAfter(h, before.fleet, op, fault, before.logs[op.target]);
    }
  }

  lemma OthersGoOn(h: Bytes -> Digest, named: iset<Digest>, before: Histories, after: Histories, t: DriveId)
    requires after.Keys == before.Keys && forall d :: d in before && d != t ==> before[d] != [] && after[d] == before[d]
    ensures (t in before ==> Continues(h, named, before[t], after[t])) ==> GoOn(h, named, before, after)
  {
  }

  lemma NothingYet(h: Bytes -> Digest, named: iset<Digest>, tracked: bool, drives: map<DriveId, Drive>)
    requires Wired(drives)
    ensures Proceeds(h, named, tracked, {}, See(drives), See(drives))
  {
  }

  /** The fleet after a plan under faults, one to an operation. */
  function SufferAll(h: Bytes -> Digest, f: Fleet, ops: seq<SyncOp>, faults: nat -> Fault): Fleet {
    if ops == [] then f
    else
      var i := |ops| - 1;
      Suffered(h, SufferAll(h, f, ops[..i], faults), ops[i], faults(i))
  }

  /** One operation after another, from the first to the last, each under the fault of its own number. */
  lemma {:induction false} SufferedInOrder(
    h: Bytes -> Digest, f: Fleet, ops: seq<SyncOp>, faults: nat -> Fault, later: nat -> Fault)
    requires ops != [] && forall i: nat :: later(i) == faults(i + 1)
    ensures SufferAll(h, f, ops, faults) == SufferAll(h, Suffered(h, f, ops[0], faults(0)), ops[1..], later)
    decreases |ops|
  {
    hide Suffered;
    if |ops| > 1 {
      var front := ops[..|ops| - 1];
      SufferedInOrder(h, f, front, faults, later);
      assert ops[1..][..|ops| - 2] == front[1..];
      assert later(|ops| - 2) == faults(|ops| - 1);
    }
  }

  /** The drives on which some operation leaves its row open. */
  function LeftOpen(h: Bytes -> Digest, f: Fleet, ops: seq<SyncOp>, faults: nat -> Fault): set<DriveId> {
    if ops == [] then {}
    else
      var i := |ops| - 1;
      LeftOpen(h, f, ops[..i], faults) + LeftBy(SufferAll(h, f, ops[..i], faults), ops[i], faults(i))
  }

  /** Operation after operation, failed ones skipped; `faults` says what the devices do meanwhile. */
  method ExecutePlan(
    h: Bytes -> Digest, plan: seq<SyncOp>, drives: map<DriveId, Drive>, faults: nat -> Fault, ghost named: iset<Digest>)
    returns (results: seq<bool>)
    requires Wired(drives)
    modifies set d | d in drives :: drives[d]
    ensures Wired(drives) && |results| == |plan|
    ensures Proceeds(
      h, named, AllTracked(plan), LeftOpen(h, old(FleetOf(drives)), plan, faults), old(See(drives)), See(drives))
    ensures FleetOf(drives) == SufferAll(h, old(FleetOf(drives)), plan, faults)
    ensures forall i :: 0 <= i < |plan| ==>
      results[i] == Reports(h, SufferAll(h, old(FleetOf(drives)), plan[..i], faults), plan[i], faults(i))
  {
    hide *;
    ghost var s0, f0, tracked := See(drives), FleetOf(drives), AllTracked(plan);
    results := [];
    NothingYet(h, named, tracked, drives);
    SufferNone(h, f0, plan, faults);
    for i := 0 to |plan|
      invariant Wired(drives) && |results| == i
      invariant Proceeds(h, named, tracked, LeftOpen(h, f0, plan[..i], faults), s0, See(drives))
      invariant FleetOf(drives) == SufferAll(h, f0, plan[..i], faults)
      invariant forall k :: 0 <= k < i ==>
        results[k] == Reports(h, SufferAll(h, f0, plan[..k], faults), plan[k], faults(k))
    {
      ghost var before, f := See(drives), FleetOf(drives);
      var ok := ExecuteOne(h, plan[i], drives, faults(i), named);
      ghost var left := LeftBy(f, plan[i], faults(i));
      TrackedOne(h, named, plan, i, left, before, See(drives));
      ProceedsTransitive(h, named, tracked, LeftOpen(h, f0, plan[..i], faults), left, s0, before, See(drives));
      SufferOne(h, f0, plan, faults, i);
      results := results + [ok];
    }
    assert plan[..|plan|] == plan;
  }

  lemma TrackedOne(
    h: Bytes -> Digest, named: iset<Digest>, plan: seq<SyncOp>, i: nat, left: set<DriveId>, a: Sight, b: Sight)
    requires i < |plan| && Proceeds(h, named, Tracked(plan[i]), left, a, b)
    ensures Proceeds(h, named, AllTracked(plan), left, a, b)
  {
    hide Tracked;
    hide OpenOn;
    assert plan[i] in plan;
  }

  lemma SufferNone(h: Bytes -> Digest, f: Fleet, plan: seq<SyncOp>, faults: nat -> Fault)
    ensures SufferAll(h, f, plan[..0], faults) == f && LeftOpen(h, f, plan[..0], faults) == {}
  {
  }

  lemma SufferOne(h: Bytes -> Digest, f: Fleet, plan: seq<SyncOp>, faults: nat -> Fault, i: nat)
    requires i < |plan|
    ensures SufferAll(h, f, plan[..i + 1], faults)
      == Suffered(h, SufferAll(h, f, plan[..i], faults), plan[i], faults(i))
    ensures LeftOpen(h, f, plan[..i + 1], faults)
      == LeftOpen(h, f, plan[..i], faults) + LeftBy(SufferAll(h, f, plan[..i], faults), plan[i], faults(i))
  {
    hide Suffered;
    hide LeftBy;
    assert plan[..i + 1][..i] == plan[..i];
  }

  /** Where the devices do not fail, every operation has its full effect or none. */
  lemma {:induction false} SteadyRun(h: Bytes -> Digest, f: Fleet, ops: seq<SyncOp>, faults: nat -> Fault)
    requires Steady(faults)
    ensures SufferAll(h, f, ops, faults) == ApplyAll(h, f, ops)
  {
    hide Suffered;
    hide Applied;
    if ops != [] {
      var i := |ops| - 1;
      SteadyRun(h, f, ops[..i], faults);
      NoFaultNoLoss(h, ApplyAll(h, f, ops[..i]), ops[i]);
    }
  }

  /** Only a manifest that cannot be written leaves a row open. */
  lemma {:induction false} OnlyUpsertsLeaveOpen(h: Bytes -> Digest, f: Fleet, ops: seq<SyncOp>, faults: nat -> Fault)
    requires forall i :: faults(i) != UpsertFails
    ensures LeftOpen(h, f, ops, faults) == {}
  {
    if ops != [] {
      OnlyUpsertsLeaveOpen(h, f, ops[..|ops| - 1], faults);
    }
  }

  // ----- Sync -------------------------------------------------------------------------------

  /** The conflicts of a fleet in path order, with the resolution of each. */
  ghost predicate Settles(ms: Manifests, conflicts: seq<Conflict>, res: seq<Resolution>) {
    && (forall c :: c in conflicts <==>
          c.path in AllPaths(ms) && c.versions == Versions(ms, c.path) && InConflict(c.versions))
    && (forall i, j :: 0 <= i < j < |conflicts| ==> Less(conflicts[i].path, conflicts[j].path))
    && |res| == |conflicts|
    && forall i :: 0 <= i < |res| ==> IsResolution(conflicts[i].versions, |ms|, res[i])
  }

  /** The manifests decide what is in conflict, and how it is resolved. */
  lemma {:induction false} SettlingIsDetermined(
    ms: Manifests, conflicts: seq<Conflict>, res: seq<Resolution>, others: seq<Conflict>, also: seq<Resolution>)
    requires Settles(ms, conflicts, res) && Settles(ms, others, also)
    ensures conflicts == others && res == also
  {
    hide IsResolution;
    hide InConflict;
    hide Versions;
    hide AllPaths;
    SameAscending(conflicts, others);
    assert |res| == |also|;
    forall i | 0 <= i < |res|
      ensures res[i] == also[i]
    {
      ResolutionIsDetermined(conflicts[i].versions, |ms|, res[i], also[i]);
    }
  }

  lemma {:induction false} SameAscending(a: seq<Conflict>, b: seq<Conflict>)
    requires forall c :: c in a <==> c in b
    requires forall i, j :: 0 <= i < j < |a| ==> Less(a[i].path, a[j].path)
    requires forall i, j :: 0 <= i < j < |b| ==> Less(b[i].path, b[j].path)
    ensures a == b
  {
    FirstIn(a);
    FirstIn(b);
    if a != [] && b != [] {
      assert a[0] in b && b[0] in a;
      var k :| 0 <= k < |b| && b[k] == a[0];
      var l :| 0 <= l < |a| && a[l] == b[0];
      LessTotal(a[0].path, b[0].path);
      assert a[0] == b[0];
      RestMembers(a, b);
      RestMembers(b, a);
      SameAscending(a[1..], b[1..]);
      assert a == [a[0]] + a[1..] && b == [b[0]] + b[1..];
    }
  }

  lemma FirstIn(a: seq<Conflict>)
    ensures a == [] || a[0] in a
  {
  }

  lemma RestMembers(a: seq<Conflict>, b: seq<Conflict>)
    requires a != [] && b != [] && a[0] == b[0] && forall c :: c in a <==> c in b
    requires forall i, j :: 0 <= i < j < |a| ==> Less(a[i].path, a[j].path)
    ensures forall c :: c in a[1..] ==> c in b[1..]
  {
    forall c | c in a[1..]
      ensures c in b[1..]
    {
      var k :| 1 <= k < |a| && a[k] == c;
      LessTotal(a[0].path, a[k].path);
      assert c in b && c != b[0];
    }
  }

  method DetectAndResolve(ms: Manifests) returns (conflicts: seq<Conflict>, res: seq<Resolution>)
    ensures Settles(ms, conflicts, res)
  {
    hide IsResolution;
    hide InConflict;
    hide Versions;
    conflicts := DetectConflicts(ms);
    res := [];
    for i := 0 to |conflicts|
      invariant |res| == i
      invariant forall k :: 0 <= k < i ==> IsResolution(conflicts[k].versions, |ms|, res[k])
    {
      var r := Resolve(conflicts[i].versions, |ms|);
      res := res + [r];
    }
  }

  ghost predicate NoTmpTracked(ms: Manifests) {
    forall p :: p in AllPaths(ms) ==> !IsTmp(p)
  }

  /** Plans for tracked paths work on tracked paths. */
  lemma PlanIsTracked(ms: Manifests, res: seq<Resolution>, plan: seq<SyncOp>)
    requires IsPlanOf(ms, res, plan)
    ensures NoTmpTracked(ms) ==> AllTracked(plan)
  {
    hide Emitted;
    hide KahnOrdered;
    hide KeepLast;
    hide Sound;
    hide Covers;
    hide Tracked;
    var r, sorted :| PlanFrom(ms, res, r, sorted, plan);
    if NoTmpTracked(ms) {
      forall op | op in plan
        ensures Tracked(op)
      {
        KeepLastIsLast(sorted, op);
        var i := SortedPlace(Emitted(ms, res, r), sorted, op);
        EmittedIsTracked(ms, res, r, i);
      }
    }
  }

  lemma EmittedIsTracked(ms: Manifests, res: seq<Resolution>, r: RenameMap, i: nat)
    requires Sound(ms, r) && NoTmpTracked(ms) && i < |Emitted(ms, res, r)|
    ensures Tracked(Emitted(ms, res, r)[i])
  {
    hide Emitted;
    hide Sound;
    hide IsDetected;
    hide OpFor;
    hide IsTmp;
    var op := Emitted(ms, res, r)[i];
    if op.kind != MKDIR {
      EmittedOp(ms, res, r, i);
      if op.kind == RENAME {
        DetectedFacts(ms, r, op);
      } else {
        PlannedKind(ms, res, op);
        OpForFacts(ms, res, op.target, op.path);
      }
    }
  }

  lemma PlannedKind(ms: Manifests, res: seq<Resolution>, op: SyncOp)
    requires OpFor(ms, res, op.target, op.path) == Some(op)
    ensures op.newPath == None
  {
    hide Quorum;
    hide Tombstones;
    hide SourceOf;
    hide JoinAt;
    hide Order;
  }

  /** Where no live path is above another, or nothing was renamed and nothing is buried, no drive and path
      gets two operations, and every copy comes after its directories. */
  lemma PlanInOrder(ms: Manifests, res: seq<Resolution>, plan: seq<SyncOp>)
    requires IsPlanOf(ms, res, plan) && (LiveTree(ms) || (NoRenames(ms) && NothingBuried(ms, res)))
    ensures DistinctKeys(plan) && DirectoriesFirst(plan)
  {
    hide *;
    var r, sorted := PlanParts(ms, res, plan);
    if LiveTree(ms) {
      EmittedKeys(ms, res, r);
      PlannerGraphIsAcyclic(ms, res, r);
    } else {
      NothingDetected(ms, r);
      UnburiedKeys(ms, res, r);
      NoneHas(r);
      RenameFreeGraphIsAcyclic(ms, res, r);
    }
    FinishedPlan(ms, res, r, sorted);
  }

  lemma NoneHas(r: RenameMap)
    requires NoneRenamed(r)
    ensures forall t, p :: !Has(r, t, p)
  {
  }

  method MakePlan(ms: Manifests, files: map<DriveId, seq<Path>>)
    returns (plan: seq<SyncOp>, conflicts: seq<Conflict>, res: seq<Resolution>)
    requires files.Keys == ms.Keys
    requires forall d, p :: d in ms ==> (p in files[d] <==> p in ms[d])
    ensures Settles(ms, conflicts, res) && IsPlanOf(ms, res, plan) && PlannedFor(ms, res, files, plan)
  {
    hide *;
    conflicts, res := DetectAndResolve(ms);
    plan := PlanSync(ms, res, files);
  }

  /** One sync of some drives. `files` lists each store's paths in the order it returns them. */
  method Sync(
    h: Bytes -> Digest, drives: map<DriveId, Drive>, files: map<DriveId, seq<Path>>, dryRun: bool,
    faults: nat -> Fault, ghost named: iset<Digest>)
    returns (plan: seq<SyncOp>, results: seq<bool>, ghost conflicts: seq<Conflict>, ghost res: seq<Resolution>)
    requires Wired(drives) && files.Keys == drives.Keys
    requires forall d, p :: d in drives ==> (p in files[d] <==> p in drives[d].manifest)
    modifies set d | d in drives :: drives[d]
    ensures Wired(drives)
    ensures |drives| < 2 || dryRun ==> See(drives) == old(See(drives))
    ensures |drives| >= 2 ==> var ms := ManifestsOf(old(FleetOf(drives)));
      && files.Keys == ms.Keys && Settles(ms, conflicts, res)
      && IsPlanOf(ms, res, plan) && PlannedFor(ms, res, files, plan)
    ensures |drives| >= 2 && !dryRun ==>
      && Ran(h, old(FleetOf(drives)), plan, faults, results, FleetOf(drives))
      && Proceeds(h, named, NoTmpTracked(ManifestsOf(old(FleetOf(drives)))),
                  LeftOpen(h, old(FleetOf(drives)), plan, faults), old(See(drives)), See(drives))
      && (Steady(faults) ==> Synced(h, old(FleetOf(drives)), res, plan, results, FleetOf(drives)))
      && SyncedOnTrees(h, old(FleetOf(drives)), res, plan, faults, results, FleetOf(drives))
  {
    hide *;
    plan, results, conflicts, res := [], [], [], [];
    if |drives| < 2 {
      return;
    }
    var ms := map d | d in drives :: drives[d].manifest;
    SameManifests(drives, ms);
    plan, conflicts, res := MakePlan(ms, files);
    if dryRun {
      return;
    }
    results := RunPlan(h, plan, drives, faults, named, res);
  }

  /** The fleet and the results are those of the plan under the faults. */
  ghost predicate Ran(
    h: Bytes -> Digest, f: Fleet, plan: seq<SyncOp>, faults: nat -> Fault, results: seq<bool>, g: Fleet)
  {
    && g == SufferAll(h, f, plan, faults) && |results| == |plan|
    && forall i :: 0 <= i < |plan| ==> results[i] == Reports(h, SufferAll(h, f, plan[..i], faults), plan[i], faults(i))
  }

  /** The second half of a sync: the plan, on the drives it was made for. */
  method RunPlan(
    h: Bytes -> Digest, plan: seq<SyncOp>, drives: map<DriveId, Drive>, faults: nat -> Fault,
    ghost named: iset<Digest>, ghost res: seq<Resolution>)
    returns (results: seq<bool>)
    requires Wired(drives) && IsPlanOf(ManifestsOf(FleetOf(drives)), res, plan)
    modifies set d | d in drives :: drives[d]
    ensures Wired(drives)
    ensures Ran(h, old(FleetOf(drives)), plan, faults, results, FleetOf(drives))
    ensures Proceeds(h, named, NoTmpTracked(ManifestsOf(old(FleetOf(drives)))),
                     LeftOpen(h, old(FleetOf(drives)), plan, faults), old(See(drives)), See(drives))
    ensures Steady(faults) ==> Synced(h, old(FleetOf(drives)), res, plan, results, FleetOf(drives))
    ensures SyncedOnTrees(h, old(FleetOf(drives)), res, plan, faults, results, FleetOf(drives))
  {
    hide *;
    ghost var f0, s0 := FleetOf(drives), See(drives);
    results := ExecutePlan(h, plan, drives, faults, named);
    HasRun(h, f0, plan, faults, results);
    PlanProceeds(h, named, ManifestsOf(f0), res, plan, LeftOpen(h, f0, plan, faults), s0, See(drives));
    if Steady(faults) {
      SyncedAfter(h, f0, res, plan, faults, results, FleetOf(drives));
    }
    SyncedOverTrees(h, f0, res, plan, faults, results, FleetOf(drives));
  }

  lemma HasRun(h: Bytes -> Digest, f: Fleet, plan: seq<SyncOp>, faults: nat -> Fault, results: seq<bool>)
    requires |results| == |plan|
    requires forall i :: 0 <= i < |plan| ==>
      results[i] == Reports(h, SufferAll(h, f, plan[..i], faults), plan[i], faults(i))
    ensures Ran(h, f, plan, faults, results, SufferAll(h, f, plan, faults))
  {
  }

  lemma PlanProceeds(
    h: Bytes -> Digest, named: iset<Digest>, ms: Manifests, res: seq<Resolution>, plan: seq<SyncOp>,
    left: set<DriveId>, a: Sight, b: Sight)
    requires IsPlanOf(ms, res, plan) && Proceeds(h, named, AllTracked(plan), left, a, b)
    ensures Proceeds(h, named, NoTmpTracked(ms), left, a, b)
  {
    hide AllTracked;
    hide NoTmpTracked;
    hide GoOn;
    hide AllNamed;
    hide OpenOn;
    hide IsPlanOf;
    PlanIsTracked(ms, res, plan);
  }

  /** What a sync does where every operation gets through to its disk: if the disks match the manifests and
      nothing was renamed, the disks still match, every file operation succeeds, and the drives agree if and
      only if no operation that moves bytes is buried. */
  ghost predicate Synced(
    h: Bytes -> Digest, f: Fleet, res: seq<Resolution>, plan: seq<SyncOp>, results: seq<bool>, g: Fleet)
  {
    && |results| == |plan| && g == ApplyAll(h, f, plan)
    && (Sane(h, f) && CollisionFree(h, f) && NoRenames(ManifestsOf(f)) ==>
          && Sane(h, g) && (Converged(g) <==> !BytesBuried(ManifestsOf(f), res))
          && (CarriesOut(plan, ManifestsOf(f), res) <==> NothingBuried(ManifestsOf(f), res))
          && forall i :: 0 <= i < |plan| && plan[i].kind != MKDIR ==> results[i])
  }

  lemma SyncedAfter(
    h: Bytes -> Digest, f: Fleet, res: seq<Resolution>, plan: seq<SyncOp>, faults: nat -> Fault,
    results: seq<bool>, g: Fleet)
    requires IsPlanOf(ManifestsOf(f), res, plan) && Steady(faults) && Ran(h, f, plan, faults, results, g)
    ensures Synced(h, f, res, plan, results, g)
  {
    hide Sane;
    hide CollisionFree;
    hide NoRenames;
    hide Converged;
    hide CarriesOut;
    hide ApplyAll;
    hide SufferAll;
    hide Reports;
    hide Succeeds;
    hide IsPlanOf;
    hide BytesBuried;
    hide NothingBuried;
    SteadyRun(h, f, plan, faults);
    if Sane(h, f) && CollisionFree(h, f) && NoRenames(ManifestsOf(f)) {
      CalmPlan(h, f, res, plan);
      forall i | 0 <= i < |plan| && plan[i].kind != MKDIR
        ensures results[i]
      {
        SteadyRun(h, f, plan[..i], faults);
        NoFaultNoLoss(h, ApplyAll(h, f, plan[..i]), plan[i]);
        FileOpSucceeds(h, f, res, plan, i);
      }
    }
  }

  /** Nothing fails but for what stands in the way on the file tree. */
  ghost predicate FollowsTree(h: Bytes -> Digest, t: Tree, plan: seq<SyncOp>, faults: nat -> Fault)
    requires WellRooted(t)
  {
    forall i :: 0 <= i < |plan| ==> faults(i) == TreeFault(TreeRun(h, t, plan[..i]), plan[i])
  }

  /** What a sync does to a file tree: if the disks match the manifests and nothing was renamed, the tree is one
      still and its disks match, exactly the copies that were blocked at the start fail, and the drives agree if
      and only if there are none and no operation that moves bytes is buried. */
  ghost predicate SyncedOnTree(
    h: Bytes -> Digest, t: Tree, res: seq<Resolution>, plan: seq<SyncOp>, faults: nat -> Fault,
    results: seq<bool>, g: Fleet)
  {
    IsTree(t) && FollowsTree(h, t, plan, faults) ==>
      && g == TreeRun(h, t, plan).fleet && IsTree(TreeRun(h, t, plan))
      && (Fit(h, t) && NoRenames(ManifestsOf(t.fleet)) ==>
            && Fit(h, TreeRun(h, t, plan))
            && (Converged(g) <==> !BytesBuried(ManifestsOf(t.fleet), res) && NoCopyBlocked(t, res))
            && |results| == |plan|
            && forall i :: 0 <= i < |plan| && plan[i].kind != MKDIR ==> (results[i] <==> !IsBlocked(t, plan[i])))
  }

  ghost predicate SyncedOnTrees(
    h: Bytes -> Digest, f: Fleet, res: seq<Resolution>, plan: seq<SyncOp>, faults: nat -> Fault,
    results: seq<bool>, g: Fleet)
  {
    forall dirs :: SyncedOnTree(h, Tree(f, dirs), res, plan, faults, results, g)
  }

  lemma SyncedOverTrees(
    h: Bytes -> Digest, f: Fleet, res: seq<Resolution>, plan: seq<SyncOp>, faults: nat -> Fault,
    results: seq<bool>, g: Fleet)
    requires IsPlanOf(ManifestsOf(f), res, plan) && Ran(h, f, plan, faults, results, g)
    ensures SyncedOnTrees(h, f, res, plan, faults, results, g)
  {
    hide SyncedOnTree;
    hide Ran;
    hide IsPlanOf;
    forall dirs
      ensures SyncedOnTree(h, Tree(f, dirs), res, plan, faults, results, g)
    {
      SyncedTree(h, Tree(f, dirs), res, plan, faults, results, g);
    }
  }

  lemma SyncedTree(
    h: Bytes -> Digest, t: Tree, res: seq<Resolution>, plan: seq<SyncOp>, faults: nat -> Fault,
    results: seq<bool>, g: Fleet)
    requires IsPlanOf(ManifestsOf(t.fleet), res, plan) && Ran(h, t.fleet, plan, faults, results, g)
    ensures SyncedOnTree(h, t, res, plan, faults, results, g)
  {
    hide IsTree;
    hide FollowsTree;
    hide Fit;
    hide NoRenames;
    hide NoCopyBlocked;
    hide BytesBuried;
    hide Converged;
    hide IsBlocked;
    hide IsPlanOf;
    hide TreeRun;
    hide SufferAll;
    hide Reports;
    if IsTree(t) {
      TreeIsRooted(t);
      if FollowsTree(h, t, plan, faults) {
        TreeSuffers(h, t, plan, faults, |plan|);
        assert plan[..|plan|] == plan;
        RunKeepsTree(h, t, plan);
        if Fit(h, t) && NoRenames(ManifestsOf(t.fleet)) {
          TreeConverges(h, t, res, plan);
          FitParts(h, t);
          forall i | 0 <= i < |plan| && plan[i].kind != MKDIR
            ensures results[i] <==> !IsBlocked(t, plan[i])
          {
            TreeSuffers(h, t, plan, faults, i);
            FaultAt(h, t, plan, faults, i);
            TreeResult(h, t, res, plan, i);
          }
        }
      }
    }
  }

  lemma FaultAt(h: Bytes -> Digest, t: Tree, plan: seq<SyncOp>, faults: nat -> Fault, i: nat)
    requires WellRooted(t) && FollowsTree(h, t, plan, faults) && i < |plan|
    ensures faults(i) == TreeFault(TreeRun(h, t, plan[..i]), plan[i])
  {
    hide TreeFault;
    hide TreeRun;
  }

  lemma {:induction false} TreeSuffers(h: Bytes -> Digest, t: Tree, plan: seq<SyncOp>, faults: nat -> Fault, k: nat)
    requires WellRooted(t) && FollowsTree(h, t, plan, faults) && k <= |plan|
    ensures SufferAll(h, t.fleet, plan[..k], faults) == TreeRun(h, t, plan[..k]).fleet
  {
    hide FollowsTree;
    hide TreeFault;
    hide Suffered;
    hide DirsAfter;
    if k > 0 {
      TreeSuffers(h, t, plan, faults, k - 1);
      FaultAt(h, t, plan, faults, k - 1);
      assert plan[..k][..k - 1] == plan[..k - 1];
      SufferNowhere(h, TreeRun(h, t, plan[..k - 1]).fleet, plan[k - 1], faults(k - 1));
    }
  }

  lemma SufferNowhere(h: Bytes -> Digest, f: Fleet, op: SyncOp, fault: Fault)
    ensures op.target !in f ==> Suffered(h, f, op, fault) == f
  {
  }

  // ----- What is never seen during a sync ---------------------------------------------------

  ghost function DigestsOf(f: Fleet): iset<Digest> {
    iset d, p | d in f && p in f[d].manifest :: f[d].manifest[p].hash
  }

  ghost function ContentsOf(f: Fleet): iset<Bytes> {
    iset d, p | d in f && p in f[d].disk :: f[d].disk[p]
  }

  /** Whatever the devices do during a sync and wherever it is cut off, a tracked file is never torn:
      in every state, what stands at its path was on some drive before, or is what some manifest
      named before. */
  lemma NeverTorn(h: Bytes -> Digest, left: set<DriveId>, a: Sight, b: Sight, d: DriveId, k: nat, p: Path)
    requires Proceeds(h, DigestsOf(a.fleet), true, left, a, b) && WellShown(a) && NoEmptyDigest(h)
    requires d in a.fleet && d in b.histories && |a.histories[d]| - 1 <= k < |b.histories[d]|
    requires p in b.histories[d][k].disk && !IsTmp(p)
    ensures var x := b.histories[d][k].disk[p]; x in ContentsOf(a.fleet) || h(x) in DigestsOf(a.fleet)
  {
    hide Continues;
    hide IsTmp;
    var named, originals := DigestsOf(a.fleet), ContentsOf(a.fleet);
    forall e, q | e in a.fleet && q in a.fleet[e].manifest
      ensures a.fleet[e].manifest[q].hash in named
    {
    }
    assert Continues(h, named, a.histories[d], b.histories[d]);
    assert NoTornFiles(h, named, originals, a.histories[d][|a.histories[d]| - 1]);
    NamesKept(h, named, a.histories[d], b.histories[d], originals);
  }
}
