/** When a round with renames makes the drives agree: where every rename goes the way in which the two
    names would go without it. */
module RenameConvergence {
  import opened Base
  import opened SyncOps
  import opened Drives
  import opened CrashSafety
  import opened Executor
  import opened ConflictResolver
  import opened RenameDetection
  import opened PlanRules
  import opened PlanOrder
  import opened SyncPlanner
  import opened Directories
  import opened PlanProperties
  import opened Convergence
  import opened PlanMeaning
  import opened RenameRounds

  // ----- Renames that fit -------------------------------------------------------------------

  /** The path is to be gone from all drives. */
  predicate Doomed(ms: Manifests, res: seq<Resolution>, p: Path) {
    var s := SourceOf(ms, res, p);
    Quorum(ms, p) || s.None? || ms[s.value][p].tombstone
  }

  /** The old name is to be gone, and the new one is to have the contents that are renamed. */
  predicate Fits(ms: Manifests, res: seq<Resolution>, t: DriveId, p: Path, q: Path)
    requires t in ms && p in ms[t]
  {
    && Doomed(ms, res, p) && !Doomed(ms, res, q)
    && ms[SourceOf(ms, res, q).value][q].hash == ms[t][p].hash
  }

  /** Every rename that some drive calls for fits. */
  ghost predicate RenamesFit(ms: Manifests, res: seq<Resolution>) {
    forall s, t, p, q :: IsRename(ms, s, t, p, q) ==> Fits(ms, res, t, p, q)
  }

  // ----- What a round is made of ------------------------------------------------------------

  /** The operation works on the path on that drive. */
  predicate Writes(op: SyncOp, t: DriveId, x: Path) {
    op.kind != MKDIR && op.target == t && (op.path == x || (op.kind == RENAME && op.newPath == Some(x)))
  }

  ghost predicate WrittenIn(ops: seq<SyncOp>, t: DriveId, x: Path) {
    exists op :: op in ops && Writes(op, t, x)
  }

  /** An operation of the round: a rename that was called for, or what is planned for its path. */
  ghost predicate OfRound(ms: Manifests, res: seq<Resolution>, op: SyncOp) {
    || op.kind == MKDIR
    || (op.kind == RENAME && IsCalled(ms, op))
    || (op.kind != RENAME && OpFor(ms, res, op.target, op.path) == Some(op))
  }

  ghost predicate IsCalled(ms: Manifests, op: SyncOp) {
    op.kind == RENAME && op.newPath.Some? && exists s :: IsRename(ms, s, op.target, op.path, op.newPath.value)
  }

  lemma CalledFacts(ms: Manifests, op: SyncOp)
    requires IsCalled(ms, op)
    ensures op.kind == RENAME && op.newPath.Some? && op.target in ms && op.newPath.value != op.path
    ensures Live(ms[op.target], op.path) && !Live(ms[op.target], op.newPath.value)
    ensures op.path in AllPaths(ms) && op.newPath.value in AllPaths(ms)
  {
  }

  /** The operation is no rename, or one that fits. */
  predicate FitsHere(ms: Manifests, res: seq<Resolution>, op: SyncOp) {
    op.kind == RENAME ==>
      && op.newPath.Some? && op.target in ms && op.path in ms[op.target]
      && Fits(ms, res, op.target, op.path, op.newPath.value)
  }

  ghost predicate AllFit(ms: Manifests, res: seq<Resolution>, ops: seq<SyncOp>) {
    forall op :: op in ops ==> FitsHere(ms, res, op)
  }

  lemma CalledFits(ms: Manifests, res: seq<Resolution>, op: SyncOp)
    requires IsCalled(ms, op) && RenamesFit(ms, res)
    ensures FitsHere(ms, res, op)
  {
    hide Fits;
    CalledFacts(ms, op);
    var s :| IsRename(ms, s, op.target, op.path, op.newPath.value);
  }

  /** Part of the round: no two operations under one key, and none that is planned for a name that a rename
      takes care of. */
  ghost predicate RoundPart(ms: Manifests, res: seq<Resolution>, ops: seq<SyncOp>) {
    && DistinctKeys(ops)
    && (forall op :: op in ops ==> OfRound(ms, res, op))
    && (forall x, y | x in ops && y in ops :: x.kind == RENAME && y.kind != RENAME && y.kind != MKDIR ==> Apart(x, y))
  }

  /** The whole round: with every operation that is planned and that no rename takes care of. */
  ghost predicate WholeRound(ms: Manifests, res: seq<Resolution>, ops: seq<SyncOp>) {
    RoundPart(ms, res, ops) && forall t, p :: OpFor(ms, res, t, p).Some? ==> WrittenIn(ops, t, p)
  }

  lemma PlanIsWholeRound(ms: Manifests, res: seq<Resolution>, plan: seq<SyncOp>)
    requires IsPlanOf(ms, res, plan) && LiveTree(ms)
    ensures WholeRound(ms, res, plan)
  {
    hide *;
    var r, sorted := PlanParts(ms, res, plan);
    EmittedKeys(ms, res, r);
    PlannerGraphIsAcyclic(ms, res, r);
    FinishedPlan(ms, res, r, sorted);
    MembersAreRound(ms, res, r, sorted);
  }

  lemma MembersAreRound(ms: Manifests, res: seq<Resolution>, r: RenameMap, plan: seq<SyncOp>)
    requires Sound(ms, r) && DistinctKeys(plan)
    requires forall op :: op in plan <==> op in Emitted(ms, res, r)
    ensures WholeRound(ms, res, plan)
  {
    hide Emitted;
    hide Emission;
    hide OpFor;
    hide IsDetected;
    hide Sound;
    hide NonDirs;
    hide IsCalled;
    EmissionMembers(ms, res, r);
    EmittedFacts(ms, res, r);
    NonDirsMembers(Emitted(ms, res, r));
    forall op | op in plan
      ensures OfRound(ms, res, op)
    {
      if op.kind == RENAME {
        DetectedOpIsCalled(ms, r, op);
      }
    }
    forall t, p | OpFor(ms, res, t, p).Some?
      ensures WrittenIn(plan, t, p)
    {
      var op := EmittedWriter(ms, res, r, t, p);
    }
  }

  lemma DetectedOpIsCalled(ms: Manifests, r: RenameMap, op: SyncOp)
    requires Sound(ms, r) && IsDetected(r, op) && op.kind == RENAME
    ensures IsCalled(ms, op)
  {
    DetectedFacts(ms, r, op);
    var s :| IsRename(ms, s, op.target, op.path, r[op.target][op.path]);
  }

  /** What is planned for a drive and path is emitted, or a rename takes care of it. */
  lemma EmittedWriter(ms: Manifests, res: seq<Resolution>, r: RenameMap, t: DriveId, p: Path) returns (op: SyncOp)
    requires OpFor(ms, res, t, p).Some?
    ensures op in Emission(ms, res, r) && Writes(op, t, p)
  {
    hide OpFor;
    hide FileOps;
    hide RenameAll;
    OpForFacts(ms, res, t, p);
    var renames := RenameAll(ms, r, Sorted(r.Keys));
    var handled := HandledBy(renames);
    RenameMembers(ms, r, Sorted(r.Keys));
    FileMembers(ms, res, handled, Sorted(AllPaths(ms)));
    op := OpFor(ms, res, t, p).value;
    if (t, p) in handled {
      op := HandledBack(renames, t, p);
    }
  }

  lemma HandledBack(renames: seq<SyncOp>, t: DriveId, p: Path) returns (op: SyncOp)
    requires (t, p) in HandledBy(renames)
    ensures op in renames && Writes(op, t, p)
  {
    var i: nat :| i < |renames| && renames[i].kind == RENAME && renames[i].target == t
      && (renames[i].path == p || renames[i].newPath == Some(p));
    op := renames[i];
  }

  // ----- One operation after another --------------------------------------------------------

  /** The names that were worked on hold what the round is to give all drives, the others what they held. */
  ghost predicate PartWay(h: Bytes -> Digest, f: Fleet, res: seq<Resolution>, ops: seq<SyncOp>, g: Fleet) {
    && g.Keys == f.Keys && Sane(h, g) && AllPaths(ManifestsOf(g)) <= AllPaths(ManifestsOf(f))
    && forall t, x :: t in f ==> CellPartWay(f, res, g, t, x, WrittenIn(ops, t, x))
  }

  ghost predicate CellPartWay(f: Fleet, res: seq<Resolution>, g: Fleet, t: DriveId, x: Path, written: bool)
    requires t in f && t in g
  {
    if written then Lookup(g[t].disk, x) == Shared(f, res, x)
    else Lookup(g[t].disk, x) == Lookup(f[t].disk, x) && Lookup(g[t].manifest, x) == Lookup(f[t].manifest, x)
  }

  lemma WrittenAppend(ops: seq<SyncOp>, op: SyncOp, t: DriveId, x: Path)
    ensures WrittenIn(ops + [op], t, x) <==> WrittenIn(ops, t, x) || Writes(op, t, x)
  {
    if WrittenIn(ops, t, x) {
      var y :| y in ops && Writes(y, t, x);
      assert y in ops + [op];
    }
    if Writes(op, t, x) {
      assert op in ops + [op];
    }
  }

  /** The two names of a fitting rename, in terms of the drives' files. */
  lemma FitsOnDisk(h: Bytes -> Digest, f: Fleet, res: seq<Resolution>, t: DriveId, p: Path, q: Path)
    requires Sane(h, f) && CollisionFree(h, f) && t in f && Live(ManifestsOf(f)[t], p) && Fits(ManifestsOf(f), res, t, p, q)
    ensures p in f[t].disk && Shared(f, res, p) == None && Shared(f, res, q) == Some(f[t].disk[p])
  {
    hide Quorum;
    hide SourceOf;
    var ms := ManifestsOf(f);
    var s := SourceOf(ms, res, q).value;
    assert Matches(h, f[t]) && Matches(h, f[s]);
    assert q in f[s].disk && h(f[s].disk[q]) == h(f[t].disk[p]);
  }

  /** Before its turn, nothing has worked on an operation's path, nor on that path on its source. */
  lemma NotWrittenYet(h: Bytes -> Digest, f: Fleet, res: seq<Resolution>, ops: seq<SyncOp>, k: nat)
    requires Sane(h, f) && CollisionFree(h, f) && RoundPart(ManifestsOf(f), res, ops) && AllFit(ManifestsOf(f), res, ops)
    requires k < |ops| && ops[k].kind != MKDIR
    ensures !WrittenIn(ops[..k], ops[k].target, ops[k].path)
    ensures ops[k].kind == COPY || ops[k].kind == REPLACE ==> !WrittenIn(ops[..k], ops[k].source, ops[k].path)
  {
    hide OfRound;
    hide Writes;
    hide FitsHere;
    var ms, op := ManifestsOf(f), ops[k];
    assert op in ops;
    forall x | x in ops[..k]
      ensures !Writes(x, op.target, op.path)
      ensures op.kind == COPY || op.kind == REPLACE ==> !Writes(x, op.source, op.path)
    {
      var i :| 0 <= i < k && ops[i] == x;
      assert x in ops && x.Key() != op.Key();
      WritesElsewhere(h, f, res, x, op);
    }
  }

  lemma WritesElsewhere(h: Bytes -> Digest, f: Fleet, res: seq<Resolution>, x: SyncOp, op: SyncOp)
    requires Sane(h, f) && CollisionFree(h, f) && FitsHere(ManifestsOf(f), res, x)
    requires OfRound(ManifestsOf(f), res, x) && OfRound(ManifestsOf(f), res, op) && x.Key() != op.Key() && op.kind != MKDIR
    requires x.kind == RENAME && op.kind != RENAME ==> Apart(x, op)
    ensures !Writes(x, op.target, op.path)
    ensures op.kind == COPY || op.kind == REPLACE ==> !Writes(x, op.source, op.path)
  {
    hide OpFor;
    hide Fits;
    hide AllPaths;
    hide Shared;
    hide Sane;
    hide CollisionFree;
    hide IsCalled;
    if x.kind == RENAME {
      CalledFacts(ManifestsOf(f), x);
      FitsOnDisk(h, f, res, x.target, x.path, x.newPath.value);
    }
    if op.kind == RENAME {
      CalledFacts(ManifestsOf(f), op);
    }
    if op.kind == COPY || op.kind == REPLACE {
      CopiedIsKept(h, f, res, op);
    }
  }

  lemma CopiedIsKept(h: Bytes -> Digest, f: Fleet, res: seq<Resolution>, op: SyncOp)
    requires Sane(h, f) && CollisionFree(h, f) && op.kind != REMOVE
    requires OpFor(ManifestsOf(f), res, op.target, op.path) == Some(op)
    ensures op.target in f && op.source in f && op.kind in {COPY, REPLACE} && op.path in AllPaths(ManifestsOf(f))
    ensures Live(f[op.source].manifest, op.path) && CanCopy(h, f, op)
    ensures OpFor(ManifestsOf(f), res, op.source, op.path).None?
    ensures Shared(f, res, op.path) == Some(f[op.source].disk[op.path])
  {
    hide OpFor;
    hide Shared;
    var ms := ManifestsOf(f);
    OpForFacts(ms, res, op.target, op.path);
    SharedFile(h, f, res, op.target, op.path);
    assert Matches(h, f[op.source]);
  }

  lemma RemovedIsDoomed(h: Bytes -> Digest, f: Fleet, res: seq<Resolution>, op: SyncOp)
    requires Sane(h, f) && CollisionFree(h, f) && op.kind == REMOVE
    requires OpFor(ManifestsOf(f), res, op.target, op.path) == Some(op)
    ensures op.target in f && op.path in AllPaths(ManifestsOf(f)) && Shared(f, res, op.path) == None
  {
    hide OpFor;
    hide Shared;
    OpForFacts(ManifestsOf(f), res, op.target, op.path);
    SharedFile(h, f, res, op.target, op.path);
  }

  /** What one operation of the round makes of its target. */
  ghost predicate StepsTo(f: Fleet, res: seq<Resolution>, g: Fleet, op: SyncOp, g': Fleet)
    requires op.target in g && op.target in g'
  {
    forall x ::
      if Writes(op, op.target, x) then Lookup(g'[op.target].disk, x) == Shared(f, res, x)
      else
        && Lookup(g'[op.target].disk, x) == Lookup(g[op.target].disk, x)
        && Lookup(g'[op.target].manifest, x) == Lookup(g[op.target].manifest, x)
  }

  lemma RemoveStep(h: Bytes -> Digest, f: Fleet, res: seq<Resolution>, g: Fleet, op: SyncOp)
    requires op.kind == REMOVE && op.target in g && Shared(f, res, op.path) == None && Matches(h, g[op.target])
    ensures var g' := Applied(h, g, op);
      && g' == g[op.target := g'[op.target]] && Matches(h, g'[op.target]) && StepsTo(f, res, g, op, g')
      && g'[op.target].manifest.Keys == g[op.target].manifest.Keys + {op.path}
  {
    hide Shared;
  }

  lemma CopyStep(h: Bytes -> Digest, f: Fleet, res: seq<Resolution>, g: Fleet, op: SyncOp)
    requires op.kind in {COPY, REPLACE} && op.target in g && CanCopy(h, g, op) && !g[op.source].manifest[op.path].tombstone
    requires Shared(f, res, op.path) == Some(g[op.source].disk[op.path])
    requires Matches(h, g[op.target]) && Tmp(op.path) !in g[op.target].disk
    ensures var g' := Applied(h, g, op);
      && g' == g[op.target := g'[op.target]] && Matches(h, g'[op.target]) && StepsTo(f, res, g, op, g')
      && g'[op.target].manifest.Keys == g[op.target].manifest.Keys + {op.path}
  {
    hide Shared;
    TmpIsTmp(op.path);
  }

  lemma RenameStep(h: Bytes -> Digest, f: Fleet, res: seq<Resolution>, g: Fleet, op: SyncOp)
    requires op.kind == RENAME && op.newPath.Some? && op.newPath.value != op.path && op.target in g
    requires Matches(h, g[op.target]) && Live(g[op.target].manifest, op.path)
    requires Shared(f, res, op.path) == None && Shared(f, res, op.newPath.value) == Lookup(g[op.target].disk, op.path)
    ensures var g' := Applied(h, g, op);
      && g' == g[op.target := g'[op.target]] && Matches(h, g'[op.target]) && StepsTo(f, res, g, op, g')
      && g'[op.target].manifest.Keys <= g[op.target].manifest.Keys + {op.newPath.value}
  {
    hide Shared;
    RenamedMatches(h, g[op.target], op.path, op.newPath.value, op.vv);
  }

  /** What holds part of the way holds after one operation more. */
  lemma OneMore(
    h: Bytes -> Digest, f: Fleet, res: seq<Resolution>, g: Fleet, op: SyncOp, g': Fleet, before: seq<SyncOp>, x: Path)
    requires Sane(h, f) && PartWay(h, f, res, before, g) && op.target in f && op.kind != MKDIR
    requires op.target in g' && g' == g[op.target := g'[op.target]]
    requires Matches(h, g'[op.target]) && StepsTo(f, res, g, op, g') && x in AllPaths(ManifestsOf(f))
    requires g'[op.target].manifest.Keys <= g[op.target].manifest.Keys + {x}
    ensures PartWay(h, f, res, before + [op], g')
  {
    hide Matches;
    hide Shared;
    hide WrittenIn;
    hide IsTmp;
    hide AllPaths;
    forall t, y | t in f
      ensures CellPartWay(f, res, g', t, y, WrittenIn(before + [op], t, y))
    {
      WrittenAppend(before, op, t, y);
      assert CellPartWay(f, res, g, t, y, WrittenIn(before, t, y));
    }
    OnePathMore(f, g, g', op.target, x);
    KeptSane(h, f, g');
  }

  lemma OnePathMore(f: Fleet, g: Fleet, g': Fleet, t: DriveId, x: Path)
    requires t in g && t in g' && g' == g[t := g'[t]] && g'[t].manifest.Keys <= g[t].manifest.Keys + {x}
    requires AllPaths(ManifestsOf(g)) <= AllPaths(ManifestsOf(f)) && x in AllPaths(ManifestsOf(f))
    ensures AllPaths(ManifestsOf(g')) <= AllPaths(ManifestsOf(f))
  {
    forall d, y | d in g' && y in g'[d].manifest
      ensures y in AllPaths(ManifestsOf(f))
    {
      assert d in ManifestsOf(g) && (d != t ==> g'[d] == g[d]);
      assert y != x ==> y in AllPaths(ManifestsOf(g));
    }
  }

  /** The next operation of the round, whichever it is. */
  lemma RoundStep(
    h: Bytes -> Digest, f: Fleet, res: seq<Resolution>, g: Fleet, op: SyncOp, before: seq<SyncOp>)
    requires Sane(h, f) && CollisionFree(h, f) && FitsHere(ManifestsOf(f), res, op)
    requires PartWay(h, f, res, before, g) && OfRound(ManifestsOf(f), res, op)
    requires op.kind != MKDIR ==> !WrittenIn(before, op.target, op.path)
    requires op.kind == COPY || op.kind == REPLACE ==> !WrittenIn(before, op.source, op.path)
    ensures PartWay(h, f, res, before + [op], Applied(h, g, op))
  {
    hide OpFor;
    hide Fits;
    hide Shared;
    hide WrittenIn;
    hide AllPaths;
    hide Matches;
    hide Applied;
    hide StepsTo;
    hide CollisionFree;
    hide IsCalled;
    if op.kind == MKDIR {
      DirChangesNothing(h, g, op);
      NothingWritten(h, f, res, g, op, before);
    } else if op.kind == REMOVE {
      RemovedIsDoomed(h, f, res, op);
      RemoveStep(h, f, res, g, op);
      OneMore(h, f, res, g, op, Applied(h, g, op), before, op.path);
    } else if op.kind == RENAME {
      CalledFacts(ManifestsOf(f), op);
      FitsOnDisk(h, f, res, op.target, op.path, op.newPath.value);
      assert CellPartWay(f, res, g, op.target, op.path, false);
      RenameStep(h, f, res, g, op);
      OneMore(h, f, res, g, op, Applied(h, g, op), before, op.newPath.value);
    } else {
      CopiedIsKept(h, f, res, op);
      assert CellPartWay(f, res, g, op.source, op.path, false);
      NoTmpHere(h, g, op.target, op.path);
      CopyStep(h, f, res, g, op);
      OneMore(h, f, res, g, op, Applied(h, g, op), before, op.path);
    }
  }

  lemma NoTmpHere(h: Bytes -> Digest, g: Fleet, t: DriveId, p: Path)
    requires Sane(h, g) && t in g
    ensures Tmp(p) !in g[t].disk
  {
    TmpIsTmp(p);
    assert Matches(h, g[t]);
    assert Tmp(p) in g[t].manifest ==> Tmp(p) in AllPaths(ManifestsOf(g)) by { assert t in ManifestsOf(g); }
  }

  lemma NothingWritten(
    h: Bytes -> Digest, f: Fleet, res: seq<Resolution>, g: Fleet, op: SyncOp, before: seq<SyncOp>)
    requires PartWay(h, f, res, before, g) && op.kind == MKDIR
    ensures PartWay(h, f, res, before + [op], g)
  {
    hide Sane;
    hide WrittenIn;
    hide AllPaths;
    forall t, x | t in f
      ensures CellPartWay(f, res, g, t, x, WrittenIn(before + [op], t, x))
    {
      WrittenAppend(before, op, t, x);
      assert CellPartWay(f, res, g, t, x, WrittenIn(before, t, x));
    }
  }

  lemma {:induction false} PrefixPartWay(h: Bytes -> Digest, f: Fleet, res: seq<Resolution>, ops: seq<SyncOp>, k: nat)
    requires k <= |ops| && Sane(h, f) && CollisionFree(h, f)
    requires RoundPart(ManifestsOf(f), res, ops) && AllFit(ManifestsOf(f), res, ops)
    ensures PartWay(h, f, res, ops[..k], ApplyAll(h, f, ops[..k]))
  {
    hide OfRound;
    hide FitsHere;
    hide Sane;
    hide CollisionFree;
    hide WrittenIn;
    hide Applied;
    hide PartWay;
    if k == 0 {
      NoneWritten(h, f, res);
    } else {
      var before, op := ops[..k - 1], ops[k - 1];
      PrefixPartWay(h, f, res, ops, k - 1);
      assert ops[..k] == before + [op] && ops[..k][..|ops[..k]| - 1] == before;
      if op.kind != MKDIR {
        NotWrittenYet(h, f, res, ops, k - 1);
      }
      assert op in ops;
      RoundStep(h, f, res, ApplyAll(h, f, before), op, before);
    }
  }

  lemma NoneWritten(h: Bytes -> Digest, f: Fleet, res: seq<Resolution>)
    requires Sane(h, f)
    ensures PartWay(h, f, res, [], f)
  {
    hide Sane;
    hide AllPaths;
  }

  // ----- The drives agree -------------------------------------------------------------------

  /** The drive holds under the name what the round is to give all drives. */
  ghost predicate HoldsShared(f: Fleet, res: seq<Resolution>, t: DriveId, p: Path)
    requires t in f
  {
    Lookup(f[t].disk, p) == Shared(f, res, p)
  }

  /** After part of a round in which every rename fits, the drives agree if every name that it does not work on
      holds what the round is to give all drives. */
  lemma FittingPartConverges(h: Bytes -> Digest, f: Fleet, res: seq<Resolution>, ops: seq<SyncOp>)
    requires Sane(h, f) && CollisionFree(h, f)
    requires RoundPart(ManifestsOf(f), res, ops) && AllFit(ManifestsOf(f), res, ops)
    requires forall t, p :: t in f && !WrittenIn(ops, t, p) ==> HoldsShared(f, res, t, p)
    ensures Sane(h, ApplyAll(h, f, ops)) && Converged(ApplyAll(h, f, ops))
  {
    hide RoundPart;
    hide AllFit;
    hide Sane;
    hide CollisionFree;
    hide WrittenIn;
    hide ApplyAll;
    hide Shared;
    hide AllPaths;
    PrefixPartWay(h, f, res, ops, |ops|);
    assert ops[..|ops|] == ops;
    var g := ApplyAll(h, f, ops);
    forall t, p | t in f
      ensures Lookup(g[t].disk, p) == Shared(f, res, p)
    {
      assert CellPartWay(f, res, g, t, p, WrittenIn(ops, t, p));
      assert !WrittenIn(ops, t, p) ==> HoldsShared(f, res, t, p);
    }
    Agree(f, g, res);
  }

  /** After a whole round every drive holds, under every name, what the round is to give all drives. */
  lemma WholeRoundConverges(h: Bytes -> Digest, f: Fleet, res: seq<Resolution>, ops: seq<SyncOp>)
    requires Sane(h, f) && CollisionFree(h, f)
    requires WholeRound(ManifestsOf(f), res, ops) && RenamesFit(ManifestsOf(f), res)
    ensures Sane(h, ApplyAll(h, f, ops)) && Converged(ApplyAll(h, f, ops))
  {
    hide OpFor;
    hide IsCalled;
    hide RenamesFit;
    hide Sane;
    hide CollisionFree;
    hide WrittenIn;
    hide ApplyAll;
    hide Shared;
    hide DistinctKeys;
    hide FitsHere;
    forall op | op in ops
      ensures FitsHere(ManifestsOf(f), res, op)
    {
      if op.kind == RENAME {
        assert OfRound(ManifestsOf(f), res, op);
        CalledFits(ManifestsOf(f), res, op);
      } else {
        NoRenameFits(ManifestsOf(f), res, op);
      }
    }
    forall t, p | t in f && !WrittenIn(ops, t, p)
      ensures HoldsShared(f, res, t, p)
    {
      SharedFile(h, f, res, t, p);
      assert OpFor(ManifestsOf(f), res, t, p).None?;
    }
    FittingPartConverges(h, f, res, ops);
  }

  lemma NoRenameFits(ms: Manifests, res: seq<Resolution>, op: SyncOp)
    ensures op.kind != RENAME ==> FitsHere(ms, res, op)
  {
    hide Fits;
  }

  /** A sync in which every rename fits makes the drives agree, and leaves disks and manifests matched,
      whatever else it does and in whatever order. */
  lemma RenameRoundConverges(h: Bytes -> Digest, f: Fleet, res: seq<Resolution>, plan: seq<SyncOp>)
    requires Sane(h, f) && CollisionFree(h, f) && LiveTree(ManifestsOf(f)) && RenamesFit(ManifestsOf(f), res)
    requires IsPlanOf(ManifestsOf(f), res, plan)
    ensures Sane(h, ApplyAll(h, f, plan)) && Converged(ApplyAll(h, f, plan))
  {
    hide *;
    PlanIsWholeRound(ManifestsOf(f), res, plan);
    WholeRoundConverges(h, f, res, plan);
  }

  // ----- Renames that do not fit ------------------------------------------------------------

  /** On each drive old and new names go in pairs. */
  ghost predicate Paired(ms: Manifests) {
    forall s, t, p, q, s', p', q' :: IsRename(ms, s, t, p, q) && IsRename(ms, s', t, p', q') ==> (p == p' <==> q == q')
  }

  /** Some name is a new one on one drive and an old one on another. */
  ghost predicate Chained(ms: Manifests) {
    exists s, t, p, q, s', t', q' :: IsRename(ms, s, t, p, q) && IsRename(ms, s', t', q, q')
  }

  /** No old name is to be renamed on the drive that is its source. */
  ghost predicate SourceStays(ms: Manifests, res: seq<Resolution>) {
    forall s, t, p, q :: IsRename(ms, s, t, p, q) ==> SourceOf(ms, res, p) != Some(t)
  }

  /** What an operation does not work on it leaves alone. */
  lemma UnwrittenOnce(h: Bytes -> Digest, g: Fleet, op: SyncOp, t: DriveId, x: Path)
    requires t in g && !Writes(op, t, x) && !IsTmp(x)
    ensures t in Applied(h, g, op) && Lookup(Applied(h, g, op)[t].disk, x) == Lookup(g[t].disk, x)
    ensures Lookup(Applied(h, g, op)[t].manifest, x) == Lookup(g[t].manifest, x)
  {
    TmpIsTmp(op.path);
  }

  lemma {:induction false} UnwrittenStays(h: Bytes -> Digest, f: Fleet, ops: seq<SyncOp>, t: DriveId, x: Path)
    requires t in f && !WrittenIn(ops, t, x) && !IsTmp(x)
    ensures t in ApplyAll(h, f, ops) && Lookup(ApplyAll(h, f, ops)[t].disk, x) == Lookup(f[t].disk, x)
    ensures Lookup(ApplyAll(h, f, ops)[t].manifest, x) == Lookup(f[t].manifest, x)
  {
    hide Applied;
    hide IsTmp;
    hide Writes;
    if ops != [] {
      var front, op := ops[..|ops| - 1], ops[|ops| - 1];
      assert op in ops && forall y :: y in front ==> y in ops;
      UnwrittenStays(h, f, front, t, x);
      UnwrittenOnce(h, ApplyAll(h, f, front), op, t, x);
    }
  }

  /** Where one operation only works on a name, it finds there what was there at first and leaves there
      what is there in the end. */
  lemma OneWriter(h: Bytes -> Digest, f: Fleet, ops: seq<SyncOp>, i: nat, t: DriveId, x: Path)
    requires t in f && i < |ops| && !IsTmp(x)
    requires forall j :: 0 <= j < |ops| && j != i ==> !Writes(ops[j], t, x)
    ensures var before, g := ApplyAll(h, f, ops[..i]), ApplyAll(h, f, ops);
      && t in before && Lookup(before[t].disk, x) == Lookup(f[t].disk, x)
      && t in Applied(h, before, ops[i]) && t in g
      && Lookup(g[t].disk, x) == Lookup(Applied(h, before, ops[i])[t].disk, x)
  {
    hide Applied;
    hide IsTmp;
    hide Writes;
    hide ApplyAll;
    var front, rest := ops[..i], ops[i + 1..];
    assert ops == (front + [ops[i]]) + rest;
    ApplySplit(h, f, front + [ops[i]], rest);
    ApplyLast(h, f, front, ops[i]);
    UnwrittenStays(h, f, front, t, x);
    StillThere(h, ApplyAll(h, f, front), ops[i], t);
    forall y | y in rest
      ensures !Writes(y, t, x)
    {
      var k :| 0 <= k < |rest| && rest[k] == y;
      assert ops[i + 1 + k] == y;
    }
    UnwrittenStays(h, Applied(h, ApplyAll(h, f, front), ops[i]), rest, t, x);
  }

  lemma StillThere(h: Bytes -> Digest, g: Fleet, op: SyncOp, t: DriveId)
    requires t in g
    ensures t in Applied(h, g, op)
  {
  }

  lemma Pair(
    ms: Manifests, s: DriveId, t: DriveId, p: Path, q: Path, s': DriveId, p': Path, q': Path)
    requires Paired(ms) && IsRename(ms, s, t, p, q) && IsRename(ms, s', t, p', q')
    ensures p == p' <==> q == q'
  {
    hide IsRename;
  }

  /** Besides a rename, nothing works on either of its names on its drive. */
  lemma NothingElseThere(ms: Manifests, res: seq<Resolution>, ops: seq<SyncOp>, i: nat, j: nat)
    requires RoundPart(ms, res, ops) && Paired(ms) && i < |ops| && j < |ops| && i != j && ops[i].kind == RENAME
    ensures ops[i].newPath.Some?
    ensures !Writes(ops[j], ops[i].target, ops[i].path) && !Writes(ops[j], ops[i].target, ops[i].newPath.value)
  {
    hide OpFor;
    hide Paired;
    hide IsRename;
    var x, y := ops[i], ops[j];
    assert x in ops && y in ops && OfRound(ms, res, x) && OfRound(ms, res, y) && x.Key() != y.Key();
    var s :| IsRename(ms, s, x.target, x.path, x.newPath.value);
    if y.kind == RENAME && y.target == x.target {
      var s' :| IsRename(ms, s', y.target, y.path, y.newPath.value);
      Pair(ms, s, x.target, x.path, x.newPath.value, s', y.path, y.newPath.value);
      CalledFacts(ms, x);
      CalledFacts(ms, y);
    }
  }

  /** A called-for rename whose names nothing else works on leaves its contents under the new name and
      nothing under the old one. */
  lemma RenamedInTheEnd(h: Bytes -> Digest, f: Fleet, ops: seq<SyncOp>, i: nat)
    requires Sane(h, f) && i < |ops| && IsCalled(ManifestsOf(f), ops[i])
    requires forall j :: 0 <= j < |ops| && j != i ==>
      !Writes(ops[j], ops[i].target, ops[i].path) && !Writes(ops[j], ops[i].target, ops[i].newPath.value)
    ensures var op, g := ops[i], ApplyAll(h, f, ops);
      && op.target in f && op.newPath.Some? && op.path in f[op.target].disk && op.target in g
      && op.path !in g[op.target].disk
      && Lookup(g[op.target].disk, op.newPath.value) == Some(f[op.target].disk[op.path])
  {
    hide ApplyAll;
    hide AllPaths;
    hide Writes;
    hide IsTmp;
    var op := ops[i];
    CalledFacts(ManifestsOf(f), op);
    var t, q := op.target, op.newPath.value;
    assert Matches(h, f[t]);
    OneWriter(h, f, ops, i, t, op.path);
    OneWriter(h, f, ops, i, t, q);
    RenameOnDisk(h, ApplyAll(h, f, ops[..i]), op, q);
  }

  /** What is live and nobody's old name keeps its contents on the drive that is its source. */
  lemma SourceKeeps(h: Bytes -> Digest, f: Fleet, res: seq<Resolution>, ops: seq<SyncOp>, d: DriveId, p: Path)
    requires Sane(h, f) && RoundPart(ManifestsOf(f), res, ops)
    requires SourceOf(ManifestsOf(f), res, p) == Some(d) && !Doomed(ManifestsOf(f), res, p)
    requires forall s, q :: !IsRename(ManifestsOf(f), s, d, p, q)
    ensures d in f && d in ApplyAll(h, f, ops) && p in f[d].disk && h(f[d].disk[p]) == ManifestsOf(f)[d][p].hash
    ensures Lookup(ApplyAll(h, f, ops)[d].disk, p) == Some(f[d].disk[p])
  {
    hide Quorum;
    hide SourceOf;
    hide ApplyAll;
    hide DistinctKeys;
    var ms := ManifestsOf(f);
    assert Matches(h, f[d]) && p in AllPaths(ms);
    assert OpFor(ms, res, d, p).None?;
    forall op | op in ops
      ensures !Writes(op, d, p)
    {
      assert OfRound(ms, res, op);
      if op.kind == RENAME {
        CalledFacts(ms, op);
      }
    }
    UnwrittenStays(h, f, ops, d, p);
  }

  /** What is live, doomed and nobody's old name is gone in the end. */
  lemma DoomedGoes(h: Bytes -> Digest, f: Fleet, res: seq<Resolution>, ops: seq<SyncOp>, d: DriveId, p: Path)
    requires Sane(h, f) && RoundPart(ManifestsOf(f), res, ops) && WrittenIn(ops, d, p)
    requires d in f && Live(f[d].manifest, p) && Doomed(ManifestsOf(f), res, p)
    requires forall s, q :: !IsRename(ManifestsOf(f), s, d, p, q)
    ensures d in ApplyAll(h, f, ops) && p !in ApplyAll(h, f, ops)[d].disk
  {
    hide OpFor;
    hide ApplyAll;
    hide AllPaths;
    hide IsTmp;
    var ms := ManifestsOf(f);
    DoomedOp(ms, res, d, p);
    var op :| op in ops && Writes(op, d, p);
    OnlyFileOps(ms, res, ops, d, p, op);
    var i :| 0 <= i < |ops| && ops[i] == op;
    forall j | 0 <= j < |ops| && j != i
      ensures !Writes(ops[j], d, p)
    {
      assert ops[j] in ops && ops[j].Key() != op.Key();
      if Writes(ops[j], d, p) {
        OnlyFileOps(ms, res, ops, d, p, ops[j]);
      }
    }
    assert p in AllPaths(ms) by { assert d in ms; MemberPath(ms, d, p); }
    OneWriter(h, f, ops, i, d, p);
  }

  lemma MemberPath(ms: Manifests, d: DriveId, p: Path)
    requires d in ms && p in ms[d]
    ensures p in AllPaths(ms)
  {
  }

  lemma DoomedOp(ms: Manifests, res: seq<Resolution>, d: DriveId, p: Path)
    requires d in ms && Live(ms[d], p) && Doomed(ms, res, p)
    ensures OpFor(ms, res, d, p).Some? && OpFor(ms, res, d, p).value.kind == REMOVE
  {
    hide OpFor;
    OpForSource(ms, res, d, p);
  }

  lemma DoomedIsWritten(ms: Manifests, res: seq<Resolution>, ops: seq<SyncOp>, d: DriveId, p: Path)
    requires WholeRound(ms, res, ops) && d in ms && Live(ms[d], p) && Doomed(ms, res, p)
    ensures WrittenIn(ops, d, p) && RoundPart(ms, res, ops)
  {
    hide OpFor;
    hide RoundPart;
    hide WrittenIn;
    DoomedOp(ms, res, d, p);
  }

  lemma WholeIsPart(ms: Manifests, res: seq<Resolution>, ops: seq<SyncOp>)
    requires WholeRound(ms, res, ops)
    ensures RoundPart(ms, res, ops)
  {
    hide RoundPart;
  }

  /** On a live name that is nobody's old one, no rename works. */
  lemma OnlyFileOps(ms: Manifests, res: seq<Resolution>, ops: seq<SyncOp>, d: DriveId, p: Path, op: SyncOp)
    requires RoundPart(ms, res, ops) && op in ops && Writes(op, d, p) && d in ms && Live(ms[d], p)
    requires forall s, q :: !IsRename(ms, s, d, p, q)
    ensures op.Key() == (d, p) && OpFor(ms, res, d, p) == Some(op)
  {
    hide OpFor;
    assert OfRound(ms, res, op);
    if op.kind == RENAME {
      CalledFacts(ms, op);
    }
  }

  lemma {:induction false} RenameRowHas(ms: Manifests, t: DriveId, names: map<Path, Path>, olds: seq<Path>, p: Path)
    requires (forall x :: x in olds ==> x in names) && p in olds
    ensures forall op :: op in RenameOps(ms, t, p, names[p]) ==> op in RenameRow(ms, t, names, olds)
  {
    hide RenameOps;
    var front, last := olds[..|olds| - 1], olds[|olds| - 1];
    if p != last {
      RenameRowHas(ms, t, names, front, p);
    }
  }

  lemma {:induction false} RenameAllHas(ms: Manifests, r: RenameMap, ts: seq<DriveId>, t: DriveId, p: Path)
    requires (forall x :: x in ts ==> x in r) && t in ts && Has(r, t, p)
    ensures forall op :: op in RenameOps(ms, t, p, r[t][p]) ==> op in RenameAll(ms, r, ts)
  {
    hide RenameOps;
    hide RenameRow;
    var front, last := ts[..|ts| - 1], ts[|ts| - 1];
    if t != last {
      RenameAllHas(ms, r, front, t, p);
    } else {
      RenameRowHas(ms, t, r[t], Sorted(r[t].Keys), p);
    }
  }

  /** A detected rename is planned. */
  lemma DetectedIsEmitted(ms: Manifests, res: seq<Resolution>, r: RenameMap, t: DriveId, p: Path) returns (op: SyncOp)
    requires Sound(ms, r) && "" !in ms && Has(r, t, p)
    ensures op in Emitted(ms, res, r) && op.kind == RENAME && op.target == t && op.path == p && op.newPath == Some(r[t][p])
  {
    hide IsRename;
    hide RenameOps;
    hide RenameAll;
    hide FileOps;
    hide Emitted;
    hide NonDirs;
    var s :| IsRename(ms, s, t, p, r[t][p]);
    OneRename(ms, s, t, p, r[t][p]);
    op :| RenameOps(ms, t, p, r[t][p]) == [op] && op.kind == RENAME && op.Key() == (t, p) && op.newPath == Some(r[t][p]);
    RenameAllHas(ms, r, Sorted(r.Keys), t, p);
    assert op in RenameOps(ms, t, p, r[t][p]);
    EmittedFacts(ms, res, r);
    NonDirsMembers(Emitted(ms, res, r));
  }

  /** On a tree of live paths, the plan holds one rename for every old name that some drive calls for,
      with a new name that some drive calls for. */
  lemma CalledIsPlanned(ms: Manifests, res: seq<Resolution>, plan: seq<SyncOp>, s: DriveId, t: DriveId, p: Path, q: Path)
    returns (i: nat)
    requires IsPlanOf(ms, res, plan) && LiveTree(ms) && "" !in ms && IsRename(ms, s, t, p, q)
    ensures i < |plan| && plan[i].kind == RENAME && plan[i].target == t && plan[i].path == p && IsCalled(ms, plan[i])
  {
    hide *;
    var r, sorted := PlanParts(ms, res, plan);
    EmittedKeys(ms, res, r);
    PlannerGraphIsAcyclic(ms, res, r);
    FinishedPlan(ms, res, r, sorted);
    CoveredHas(ms, r, s, t, p, q);
    var op := DetectedIsEmitted(ms, res, r, t, p);
    IsCalledFor(ms, r, op);
    i := IndexIn(plan, op);
  }

  lemma CoveredHas(ms: Manifests, r: RenameMap, s: DriveId, t: DriveId, p: Path, q: Path)
    requires Covers(ms, r, s, t) && IsRename(ms, s, t, p, q)
    ensures Has(r, t, p)
  {
    hide IsRename;
  }

  lemma IsCalledFor(ms: Manifests, r: RenameMap, op: SyncOp)
    requires Sound(ms, r) && Has(r, op.target, op.path) && op.kind == RENAME && op.newPath == Some(r[op.target][op.path])
    ensures IsCalled(ms, op)
  {
    hide IsRename;
  }

  lemma IndexIn(plan: seq<SyncOp>, op: SyncOp) returns (i: nat)
    requires op in plan
    ensures i < |plan| && plan[i] == op
  {
    i :| i < |plan| && plan[i] == op;
  }

  /** Where old and new names go in pairs, the one that is planned under an old name is the one called for. */
  lemma TheOneCalled(ms: Manifests, s: DriveId, t: DriveId, p: Path, q: Path, op: SyncOp)
    requires Paired(ms) && IsRename(ms, s, t, p, q) && IsCalled(ms, op) && op.target == t && op.path == p
    ensures op.newPath == Some(q)
  {
    hide IsRename;
    hide Paired;
    var s' :| IsRename(ms, s', t, p, op.newPath.value);
    Pair(ms, s, t, p, q, s', p, op.newPath.value);
  }

  // ----- What becomes of a rename that is called for ----------------------------------------

  /** Where old and new names go in pairs, every plan carries every called-for rename out: in the end its
      contents are under the new name, and nothing is under the old one. */
  lemma RenameIsDone(
    h: Bytes -> Digest, f: Fleet, res: seq<Resolution>, plan: seq<SyncOp>, s: DriveId, t: DriveId, p: Path, q: Path)
    requires Sane(h, f) && LiveTree(ManifestsOf(f)) && "" !in f && Paired(ManifestsOf(f))
    requires IsPlanOf(ManifestsOf(f), res, plan) && IsRename(ManifestsOf(f), s, t, p, q)
    ensures var g := ApplyAll(h, f, plan);
      && t in f && p in f[t].disk && h(f[t].disk[p]) == ManifestsOf(f)[t][p].hash
      && t in g && p !in g[t].disk && Lookup(g[t].disk, q) == Some(f[t].disk[p])
  {
    hide *;
    var ms := ManifestsOf(f);
    SameIds(f);
    var i := CalledIsPlanned(ms, res, plan, s, t, p, q);
    TheOneCalled(ms, s, t, p, q, plan[i]);
    PlanIsWholeRound(ms, res, plan);
    WholeIsPart(ms, res, plan);
    forall j | 0 <= j < |plan| && j != i
      ensures !Writes(plan[j], t, p) && !Writes(plan[j], t, q)
    {
      NothingElseThere(ms, res, plan, i, j);
    }
    RenamedInTheEnd(h, f, plan, i);
    DiskMatches(h, f, t, p);
  }

  lemma DiskMatches(h: Bytes -> Digest, f: Fleet, t: DriveId, p: Path)
    requires Sane(h, f) && t in f && p in f[t].disk
    ensures p in ManifestsOf(f)[t] && Live(ManifestsOf(f)[t], p) && h(f[t].disk[p]) == ManifestsOf(f)[t][p].hash
  {
    hide AllPaths;
    assert Matches(h, f[t]);
  }

  lemma RenamedDrives(ms: Manifests, s: DriveId, t: DriveId, p: Path, q: Path)
    requires IsRename(ms, s, t, p, q)
    ensures s in ms && t in ms && Live(ms[s], q) && !Live(ms[t], q) && Live(ms[t], p)
    ensures ms[s][q].hash == ms[t][p].hash
  {
  }

  /** A name that is to be a new one here and is an old one there is in the end only here. */
  lemma ChainedKeepsApart(h: Bytes -> Digest, f: Fleet, res: seq<Resolution>, plan: seq<SyncOp>)
    requires Sane(h, f) && LiveTree(ManifestsOf(f)) && "" !in f && Paired(ManifestsOf(f)) && Chained(ManifestsOf(f))
    requires IsPlanOf(ManifestsOf(f), res, plan)
    ensures !Converged(ApplyAll(h, f, plan))
  {
    hide *;
    var s, t, p, q, s', t', q' := SomeChain(ManifestsOf(f));
    RenameIsDone(h, f, res, plan, s, t, p, q);
    RenameIsDone(h, f, res, plan, s', t', q, q');
    LookupGone(ApplyAll(h, f, plan)[t'].disk, q);
    Disagree(ApplyAll(h, f, plan), t, t', q);
  }

  lemma LookupGone<V>(m: map<Path, V>, p: Path)
    requires p !in m
    ensures Lookup(m, p) == None
  {
  }

  lemma SomeChain(ms: Manifests)
    returns (s: DriveId, t: DriveId, p: Path, q: Path, s': DriveId, t': DriveId, q': Path)
    requires Chained(ms)
    ensures IsRename(ms, s, t, p, q) && IsRename(ms, s', t', q, q')
  {
    hide IsRename;
    s, t, p, q, s', t', q' :| IsRename(ms, s, t, p, q) && IsRename(ms, s', t', q, q');
  }

  /** Not both of two chained renames fit: the name between them is to be gone for one, and not for the other. */
  lemma ChainedDoNotFit(ms: Manifests, res: seq<Resolution>)
    requires Chained(ms)
    ensures !RenamesFit(ms, res)
  {
    hide IsRename;
    hide Doomed;
    var s, t, p, q, s', t', q' := SomeChain(ms);
    RenamedDrives(ms, s, t, p, q);
    RenamedDrives(ms, s', t', q, q');
    if RenamesFit(ms, res) {
      FitsEnds(ms, res, s, t, p, q);
      FitsEnds(ms, res, s', t', q, q');
      assert false;
    }
  }

  lemma FitsEnds(ms: Manifests, res: seq<Resolution>, s: DriveId, t: DriveId, p: Path, q: Path)
    requires RenamesFit(ms, res) && IsRename(ms, s, t, p, q)
    ensures Doomed(ms, res, p) && !Doomed(ms, res, q)
  {
    hide IsRename;
    hide Doomed;
    RenamedDrives(ms, s, t, p, q);
    assert Fits(ms, res, t, p, q);
  }

  /** A called-for rename that does not fit keeps the drives apart, unless an old name is renamed on its own
      source. */
  lemma MisfitKeepsApart(
    h: Bytes -> Digest, f: Fleet, res: seq<Resolution>, plan: seq<SyncOp>, s: DriveId, t: DriveId, p: Path, q: Path)
    requires Sane(h, f) && LiveTree(ManifestsOf(f)) && "" !in f && IsPlanOf(ManifestsOf(f), res, plan)
    requires Paired(ManifestsOf(f)) && (Chained(ManifestsOf(f)) || SourceStays(ManifestsOf(f), res))
    requires IsRename(ManifestsOf(f), s, t, p, q)
    ensures t in f && p in ManifestsOf(f)[t]
    ensures !Fits(ManifestsOf(f), res, t, p, q) ==> !Converged(ApplyAll(h, f, plan))
  {
    hide *;
    var ms, g := ManifestsOf(f), ApplyAll(h, f, plan);
    SameIds(f);
    RenameIsDone(h, f, res, plan, s, t, p, q);
    DiskMatches(h, f, t, p);
    if Chained(ms) {
      ChainedKeepsApart(h, f, res, plan);
    } else if !Fits(ms, res, t, p, q) {
      PlanIsWholeRound(ms, res, plan);
      WholeIsPart(ms, res, plan);
      Misfit(ms, res, s, t, p, q);
      if !Doomed(ms, res, p) {
        var d := SourceOf(ms, res, p).value;
        SourceKeeps(h, f, res, plan, d, p);
        LookupGone(g[t].disk, p);
        Disagree(g, d, t, p);
      } else if Doomed(ms, res, q) {
        LiveThere(f, s, q);
        DoomedIsWritten(ms, res, plan, s, q);
        DoomedGoes(h, f, res, plan, s, q);
        LookupGone(g[s].disk, q);
        Disagree(g, t, s, q);
      } else {
        var d := SourceOf(ms, res, q).value;
        SourceKeeps(h, f, res, plan, d, q);
        Disagree(g, d, t, q);
      }
    }
  }

  /** Which of the three ways in which a rename does not fit it is, and that no other rename interferes. */
  lemma Misfit(ms: Manifests, res: seq<Resolution>, s: DriveId, t: DriveId, p: Path, q: Path)
    requires SourceStays(ms, res) && !Chained(ms) && IsRename(ms, s, t, p, q)
    ensures t in ms && p in ms[t] && s in ms && Live(ms[s], q)
    ensures !Doomed(ms, res, p) ==>
      SourceOf(ms, res, p).Some? && forall s', q' :: !IsRename(ms, s', SourceOf(ms, res, p).value, p, q')
    ensures forall s', d, q' :: !IsRename(ms, s', d, q, q')
    ensures !Fits(ms, res, t, p, q) && Doomed(ms, res, p) && !Doomed(ms, res, q) ==>
      SourceOf(ms, res, q).Some? && ms[SourceOf(ms, res, q).value][q].hash != ms[t][p].hash
  {
    hide IsRename;
    hide SourceOf;
    hide Quorum;
    RenamedDrives(ms, s, t, p, q);
  }

  lemma LiveThere(f: Fleet, d: DriveId, p: Path)
    requires d in ManifestsOf(f) && Live(ManifestsOf(f)[d], p)
    ensures d in f && Live(f[d].manifest, p)
  {
  }

  /** Where old and new names go in pairs, and some name is both or no old name is renamed on its own source, a
      sync makes the drives agree if and only if every rename that some drive calls for fits. */
  lemma RenameRoundExactly(h: Bytes -> Digest, f: Fleet, res: seq<Resolution>, plan: seq<SyncOp>)
    requires Sane(h, f) && CollisionFree(h, f) && LiveTree(ManifestsOf(f)) && "" !in f
    requires Paired(ManifestsOf(f)) && (Chained(ManifestsOf(f)) || SourceStays(ManifestsOf(f), res))
    requires IsPlanOf(ManifestsOf(f), res, plan)
    ensures Converged(ApplyAll(h, f, plan)) <==> RenamesFit(ManifestsOf(f), res)
    ensures Chained(ManifestsOf(f)) ==> !Converged(ApplyAll(h, f, plan))
  {
    hide *;
    var ms := ManifestsOf(f);
    if Chained(ms) {
      ChainedDoNotFit(ms, res);
      ChainedKeepsApart(h, f, res, plan);
    } else if RenamesFit(ms, res) {
      RenameRoundConverges(h, f, res, plan);
    } else {
      var s, t, p, q := SomeMisfit(ms, res);
      MisfitKeepsApart(h, f, res, plan, s, t, p, q);
    }
  }

  lemma SameIds(f: Fleet)
    ensures ManifestsOf(f).Keys == f.Keys
  {
  }

  lemma SomeMisfit(ms: Manifests, res: seq<Resolution>) returns (s: DriveId, t: DriveId, p: Path, q: Path)
    requires !RenamesFit(ms, res)
    ensures IsRename(ms, s, t, p, q) && !Fits(ms, res, t, p, q)
  {
    hide Fits;
    s, t, p, q :| IsRename(ms, s, t, p, q) && !Fits(ms, res, t, p, q);
  }
}
