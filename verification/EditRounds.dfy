/** What a sync makes of an edit: who ends up with the edited contents, and who with the old ones. */
module EditRounds {
  import opened Base
  import opened SyncOps
  import opened VersionVectors
  import opened Drives
  import opened CrashSafety
  import opened Executor
  import opened ConflictResolver
  import opened RenameDetection
  import opened PlanRules
  import opened PlanOrder
  import opened SyncPlanner
  import opened PlanProperties
  import opened Burial
  import opened Convergence
  import opened PlanMeaning
  import opened FileTree
  import opened TreeRounds
  import opened RenameRounds
  import opened RenameConvergence
  import opened RenameTrees
  import opened CrossedNames
  import opened LostEdits

  /** Drive `d` has other contents at the path than all the rest, which have `x`, under the same vector. */
  ghost predicate Edited(h: Bytes -> Digest, f: Fleet, d: DriveId, p: Path, x: Bytes) {
    && Sane(h, f) && CollisionFree(h, f) && InStep(ManifestsOf(f), p)
    && d in f && p in f[d].disk && f[d].disk[p] != x
    && forall e :: e in f && e != d && p in f[e].disk ==> f[e].disk[p] == x
  }

  ghost predicate AllHold(g: Fleet, p: Path, y: Bytes) {
    forall t :: t in g ==> Lookup(g[t].disk, p) == Some(y)
  }

  /** There is no conflict, and the round is to give all drives the contents of the first drive, in id order,
      that has the path. */
  lemma EditIsShared(h: Bytes -> Digest, f: Fleet, res: seq<Resolution>, d: DriveId, p: Path, x: Bytes)
    requires Edited(h, f, d, p, x)
    ensures !InConflict(Versions(ManifestsOf(f), p)) && Keepers(ManifestsOf(f), p) != {}
    ensures SourceOf(ManifestsOf(f), res, p) == Some(Least(Keepers(ManifestsOf(f), p)))
    ensures Least(Keepers(ManifestsOf(f), p)) in f && !Quorum(ManifestsOf(f), p)
    ensures Shared(f, res, p) == Some(if IsLeast(d, Keepers(ManifestsOf(f), p)) then f[d].disk[p] else x)
    ensures Lookup(f[Least(Keepers(ManifestsOf(f), p))].disk, p) == Shared(f, res, p)
  {
    hide Order;
    hide Quorum;
    hide SourceOf;
    hide InConflict;
    hide AllPaths;
    hide CollisionFree;
    var ms := ManifestsOf(f);
    InStepIsCalm(ms, p);
    assert Matches(h, f[d]);
    assert d in Keepers(ms, p);
    var first := Least(Keepers(ms, p));
    FirstKeeperWins(ms, res, p, first);
    assert Matches(h, f[first]) && Live(f[first].manifest, p);
    LeastUnique(Keepers(ms, p), first, first);
    if IsLeast(d, Keepers(ms, p)) {
      LeastUnique(Keepers(ms, p), first, d);
    }
  }

  /** Unless the edited drive comes first, its edit is to be replaced. */
  lemma EditIsReplaced(h: Bytes -> Digest, f: Fleet, res: seq<Resolution>, d: DriveId, p: Path, x: Bytes)
    requires Edited(h, f, d, p, x) && !IsLeast(d, Keepers(ManifestsOf(f), p))
    ensures OpFor(ManifestsOf(f), res, d, p).Some? && OpFor(ManifestsOf(f), res, d, p).value.kind == REPLACE
    ensures Moves(ManifestsOf(f), res, d, p)
  {
    hide OpFor;
    hide Quorum;
    hide SourceOf;
    hide AllPaths;
    hide CollisionFree;
    hide Least;
    hide InConflict;
    hide Shared;
    var ms := ManifestsOf(f);
    EditIsShared(h, f, res, d, p, x);
    OpForSource(ms, res, d, p);
    var first := Least(Keepers(ms, p));
    assert Matches(h, f[d]) && Matches(h, f[first]);
    OtherDigest(h, f, d, p, x, first);
    if OpFor(ms, res, d, p).Some? {
      ReplacesLive(ms, res, d, p);
    }
  }

  /** The edited contents have a digest of their own. */
  lemma OtherDigest(h: Bytes -> Digest, f: Fleet, d: DriveId, p: Path, x: Bytes, e: DriveId)
    requires Edited(h, f, d, p, x) && e in f && p in f[e].disk && f[e].disk[p] == x
    ensures p in ManifestsOf(f)[d] && Live(ManifestsOf(f)[d], p) && p in ManifestsOf(f)[e]
    ensures Live(ManifestsOf(f)[e], p) && ManifestsOf(f)[e][p].hash != ManifestsOf(f)[d][p].hash
  {
    hide InStep;
    hide AllPaths;
    assert Matches(h, f[d]) && Matches(h, f[e]);
    assert OnlyPreimage(h, f[d].disk[p]);
  }

  // ----- Rounds without renames -------------------------------------------------------------

  /** What part of a round makes of an edit. */
  lemma EditInPart(
    h: Bytes -> Digest, f: Fleet, res: seq<Resolution>, ops: seq<SyncOp>, d: DriveId, p: Path, x: Bytes)
    requires Edited(h, f, d, p, x) && PartOf(ops, ManifestsOf(f), res)
    ensures var ms, g := ManifestsOf(f), ApplyAll(h, f, ops);
      && (AllHold(g, p, f[d].disk[p]) <==>
            IsLeast(d, Keepers(ms, p)) && forall e :: Moves(ms, res, e, p) ==> OpFor(ms, res, e, p).value in ops)
      && (!IsLeast(d, Keepers(ms, p)) ==>
            && OpFor(ms, res, d, p).Some? && d in g
            && Lookup(g[d].disk, p) == Some(if OpFor(ms, res, d, p).value in ops then x else f[d].disk[p]))
  {
    hide OpFor;
    hide ApplyAll;
    hide Moves;
    hide Least;
    hide IsLeast;
    hide PartOf;
    hide Quorum;
    hide SourceOf;
    hide Shared;
    hide Sane;
    hide CollisionFree;
    hide InConflict;
    hide InStep;
    var ms, g := ManifestsOf(f), ApplyAll(h, f, ops);
    EditIsShared(h, f, res, d, p, x);
    var first := Least(Keepers(ms, p));
    SourceHasNoOp(ms, res, p);
    PartFile(h, f, res, ops, first, p);
    if !IsLeast(d, Keepers(ms, p)) {
      EditIsReplaced(h, f, res, d, p, x);
      PartFile(h, f, res, ops, d, p);
      assert Lookup(g[first].disk, p) == Some(x);
    } else {
      EditOfFirst(h, f, res, ops, p, f[d].disk[p]);
    }
  }

  lemma SourceHasNoOp(ms: Manifests, res: seq<Resolution>, p: Path)
    requires SourceOf(ms, res, p).Some? && !Quorum(ms, p)
    ensures var s := SourceOf(ms, res, p).value; Live(ms[s], p) ==> OpFor(ms, res, s, p).None?
  {
    hide Quorum;
    hide SourceOf;
  }

  /** What the round is to share is on every drive after part of it if and only if the part lacks no operation
      that moves bytes to the path. */
  lemma EditOfFirst(h: Bytes -> Digest, f: Fleet, res: seq<Resolution>, ops: seq<SyncOp>, p: Path, y: Bytes)
    requires Sane(h, f) && CollisionFree(h, f) && PartOf(ops, ManifestsOf(f), res) && Shared(f, res, p) == Some(y)
    ensures AllHold(ApplyAll(h, f, ops), p, y)
      <==> forall e :: Moves(ManifestsOf(f), res, e, p) ==> OpFor(ManifestsOf(f), res, e, p).value in ops
  {
    hide OpFor;
    hide ApplyAll;
    hide Moves;
    hide PartOf;
    hide Shared;
    hide Sane;
    hide CollisionFree;
    var ms, g := ManifestsOf(f), ApplyAll(h, f, ops);
    SameKeys(h, f, res, ops);
    forall t | t in f
      ensures Moves(ms, res, t, p) ==> OpFor(ms, res, t, p).Some?
      ensures Lookup(g[t].disk, p) == Some(y) <==> (Moves(ms, res, t, p) ==> OpFor(ms, res, t, p).value in ops)
    {
      PartFile(h, f, res, ops, t, p);
      if Moves(ms, res, t, p) {
        MovesOp(ms, res, t, p);
        var e := OpposedFiles(h, f, res, t, p);
        PartFile(h, f, res, ops, e, p);
      } else if OpFor(ms, res, t, p).Some? {
        NothingToMove(h, f, res, t, p);
      }
    }
    forall t
      ensures Moves(ms, res, t, p) ==> t in f
    {
      if Moves(ms, res, t, p) {
        MovesOp(ms, res, t, p);
        OpForFacts(ms, res, t, p);
      }
    }
  }

  /** On flat disks, a sync without renames gives all drives the edited contents if and only if the edited drive
      comes first in id order and no operation that would carry the edit is buried. If the drive does not come
      first, it loses the edit, unless its own operation is buried. */
  lemma EditIsKept(
    h: Bytes -> Digest, f: Fleet, res: seq<Resolution>, plan: seq<SyncOp>, d: DriveId, p: Path, x: Bytes)
    requires Edited(h, f, d, p, x) && NoRenames(ManifestsOf(f)) && IsPlanOf(ManifestsOf(f), res, plan)
    ensures var ms, g := ManifestsOf(f), ApplyAll(h, f, plan);
      && (AllHold(g, p, f[d].disk[p]) <==>
            IsLeast(d, Keepers(ms, p)) && forall e :: Moves(ms, res, e, p) ==> !Buried(ms, res, e, p))
      && (!IsLeast(d, Keepers(ms, p)) ==>
            d in g && Lookup(g[d].disk, p) == Some(if Buried(ms, res, d, p) then f[d].disk[p] else x))
  {
    hide OpFor;
    hide ApplyAll;
    hide Moves;
    hide Buried;
    hide IsLeast;
    hide PartOf;
    hide IsPlanOf;
    hide NoRenames;
    hide Fitted;
    PlanIsFitted(ManifestsOf(f), res, plan);
    EditInPart(h, f, res, plan, d, p, x);
    MovingOps(ManifestsOf(f), res, p);
  }

  lemma MovingOps(ms: Manifests, res: seq<Resolution>, p: Path)
    ensures forall e :: Moves(ms, res, e, p) ==> OpFor(ms, res, e, p).Some?
  {
    hide OpFor;
  }

  /** On a file tree: nor is a copy blocked that would carry it. */
  lemma EditIsKeptOnTree(
    h: Bytes -> Digest, t: Tree, res: seq<Resolution>, plan: seq<SyncOp>, d: DriveId, p: Path, x: Bytes)
    requires IsTree(t) && Edited(h, t.fleet, d, p, x) && NoRenames(ManifestsOf(t.fleet))
    requires IsPlanOf(ManifestsOf(t.fleet), res, plan)
    ensures WellRooted(t)
    ensures var ms, g := ManifestsOf(t.fleet), TreeRun(h, t, plan).fleet;
      && (AllHold(g, p, t.fleet[d].disk[p]) <==>
            && IsLeast(d, Keepers(ms, p))
            && forall e :: e in t.fleet && Moves(ms, res, e, p) ==>
                 !Buried(ms, res, e, p) && !(CopyCalled(ms, res, e, p) && Blocked(t, e, p)))
      && (!IsLeast(d, Keepers(ms, p)) ==>
            d in g && Lookup(g[d].disk, p) == Some(if Buried(ms, res, d, p) then t.fleet[d].disk[p] else x))
  {
    hide OpFor;
    hide ApplyAll;
    hide TreeRun;
    hide Moves;
    hide Buried;
    hide IsLeast;
    hide PartOf;
    hide IsPlanOf;
    hide NoRenames;
    hide Fitted;
    hide IsTree;
    hide InStep;
    hide Through;
    hide Blocked;
    var ms := ManifestsOf(t.fleet);
    TreeIsRooted(t);
    PlanIsFitted(ms, res, plan);
    TreeRunIsThrough(h, t, res, plan);
    AsPlannedKeys(h, t, res, plan, TreeRun(h, t, plan));
    EditInPart(h, t.fleet, res, Through(t, plan), d, p, x);
    if !IsLeast(d, Keepers(ms, p)) {
      EditIsReplaced(h, t.fleet, res, d, p, x);
    }
    MovingOps(ms, res, p);
    forall e | OpFor(ms, res, e, p).Some?
      ensures e in t.fleet
      ensures OpFor(ms, res, e, p).value in Through(t, plan)
        <==> !Buried(ms, res, e, p) && !(CopyCalled(ms, res, e, p) && Blocked(t, e, p))
    {
      ThroughHas(t, res, plan, e, p);
    }
  }

  // ----- Rounds with renames ----------------------------------------------------------------

  /** Every operation that works on the path on that drive brings `v`. */
  ghost predicate Brings(f: Fleet, res: seq<Resolution>, plan: seq<SyncOp>, t: DriveId, p: Path, v: Bytes)
    requires t in f
  {
    forall op :: op in plan && Writes(op, t, p) ==>
      if op.kind == RENAME then op.newPath == Some(p) && Lookup(f[t].disk, op.path) == Some(v)
      else op.kind != REMOVE && Shared(f, res, p) == Some(v)
  }

  /** An old name is as it was until its own rename. */
  lemma OldNameWaits(h: Bytes -> Digest, f: Fleet, res: seq<Resolution>, plan: seq<SyncOp>, k: nat)
    requires Sane(h, f) && RoundPart(ManifestsOf(f), res, plan) && k < |plan| && plan[k].kind == RENAME
    ensures plan[k].target in f && plan[k].target in ApplyAll(h, f, plan[..k])
    ensures Lookup(ApplyAll(h, f, plan[..k])[plan[k].target].disk, plan[k].path)
      == Lookup(f[plan[k].target].disk, plan[k].path)
  {
    hide OpFor;
    hide ApplyAll;
    hide AllPaths;
    hide IsTmp;
    hide IsCalled;
    var ms, op := ManifestsOf(f), plan[k];
    assert op in plan && OfRound(ms, res, op);
    CalledFacts(ms, op);
    forall x | x in plan[..k]
      ensures !Writes(x, op.target, op.path)
    {
      var i :| 0 <= i < k && plan[i] == x;
      assert x in plan && OfRound(ms, res, x) && x.Key() != op.Key();
      if x.kind == RENAME {
        CalledFacts(ms, x);
      }
    }
    UnwrittenStays(h, f, plan[..k], op.target, op.path);
  }

  /** The source of a path that no rename works on is as it was. */
  lemma SourceWaits(h: Bytes -> Digest, f: Fleet, res: seq<Resolution>, plan: seq<SyncOp>, k: nat)
    requires Sane(h, f) && CollisionFree(h, f) && RoundPart(ManifestsOf(f), res, plan) && k < |plan|
    requires plan[k].kind in {COPY, REPLACE}
    requires forall s, t, q :: !IsRename(ManifestsOf(f), s, t, plan[k].path, q)
    ensures CanCopy(h, ApplyAll(h, f, plan[..k]), plan[k]) && plan[k].target in f
    ensures Some(ApplyAll(h, f, plan[..k])[plan[k].source].disk[plan[k].path]) == Shared(f, res, plan[k].path)
  {
    hide OpFor;
    hide ApplyAll;
    hide AllPaths;
    hide IsTmp;
    hide IsRename;
    hide Shared;
    hide IsCalled;
    var ms, op := ManifestsOf(f), plan[k];
    assert op in plan && OfRound(ms, res, op);
    CopiedIsKept(h, f, res, op);
    forall x | x in plan[..k]
      ensures !Writes(x, op.source, op.path)
    {
      assert x in plan && OfRound(ms, res, x);
      if x.kind == RENAME {
        CalledFacts(ms, x);
        NotOldThere(ms, x, op.path);
      }
    }
    UnwrittenStays(h, f, plan[..k], op.source, op.path);
  }

  lemma NotOldThere(ms: Manifests, x: SyncOp, p: Path)
    requires IsCalled(ms, x) && forall s, t, q :: !IsRename(ms, s, t, p, q)
    ensures x.path != p
  {
    hide IsRename;
  }

  /** A path that is nobody's old name holds `v` as soon as something has worked on it. */
  lemma {:induction false} NameCell(
    h: Bytes -> Digest, f: Fleet, res: seq<Resolution>, plan: seq<SyncOp>, k: nat, t: DriveId, p: Path, v: Bytes)
    requires Sane(h, f) && CollisionFree(h, f) && RoundPart(ManifestsOf(f), res, plan) && k <= |plan| && t in f
    requires (forall s, d, q :: !IsRename(ManifestsOf(f), s, d, p, q)) && !IsTmp(p) && Brings(f, res, plan, t, p, v)
    ensures t in ApplyAll(h, f, plan[..k])
    ensures Lookup(ApplyAll(h, f, plan[..k])[t].disk, p)
      == if WrittenIn(plan[..k], t, p) then Some(v) else Lookup(f[t].disk, p)
  {
    hide Applied;
    hide IsTmp;
    hide IsRename;
    hide RoundPart;
    hide Sane;
    hide CollisionFree;
    hide Brings;
    hide WrittenIn;
    hide Writes;
    if k == 0 {
      NothingWrittenYet(t, p);
    } else {
      var op := plan[k - 1];
      NameCell(h, f, res, plan, k - 1, t, p, v);
      assert plan[..k] == plan[..k - 1] + [op] && plan[..k][..|plan[..k]| - 1] == plan[..k - 1];
      WrittenAppend(plan[..k - 1], op, t, p);
      if Writes(op, t, p) {
        WrittenNow(h, f, res, plan, k - 1, t, p, v);
      } else {
        UnwrittenOnce(h, ApplyAll(h, f, plan[..k - 1]), op, t, p);
      }
    }
  }

  lemma NothingWrittenYet(t: DriveId, p: Path)
    ensures !WrittenIn([], t, p)
  {
  }

  lemma WrittenNow(
    h: Bytes -> Digest, f: Fleet, res: seq<Resolution>, plan: seq<SyncOp>, k: nat, t: DriveId, p: Path, v: Bytes)
    requires Sane(h, f) && CollisionFree(h, f) && RoundPart(ManifestsOf(f), res, plan) && k < |plan| && t in f
    requires (forall s, d, q :: !IsRename(ManifestsOf(f), s, d, p, q)) && Brings(f, res, plan, t, p, v)
    requires t in ApplyAll(h, f, plan[..k]) && Writes(plan[k], t, p)
    ensures t in Applied(h, ApplyAll(h, f, plan[..k]), plan[k])
    ensures Lookup(Applied(h, ApplyAll(h, f, plan[..k]), plan[k])[t].disk, p) == Some(v)
  {
    hide ApplyAll;
    hide IsRename;
    hide RoundPart;
    hide Sane;
    hide CollisionFree;
    hide Shared;
    hide Applied;
    var op, g := plan[k], ApplyAll(h, f, plan[..k]);
    assert op in plan;
    if op.kind == RENAME {
      OldNameWaits(h, f, res, plan, k);
      RenameOnDisk(h, g, op, p);
    } else {
      SourceWaits(h, f, res, plan, k);
      CopyOnDisk(h, g, op);
    }
  }

  lemma CopyOnDisk(h: Bytes -> Digest, g: Fleet, op: SyncOp)
    requires op.kind in {COPY, REPLACE} && op.target in g && CanCopy(h, g, op)
    ensures op.target in Applied(h, g, op)
    ensures Lookup(Applied(h, g, op)[op.target].disk, op.path) == Some(g[op.source].disk[op.path])
  {
  }

  /** What a drive holds in the end under a name that is nobody's old one. */
  lemma NameInTheEnd(
    h: Bytes -> Digest, f: Fleet, res: seq<Resolution>, plan: seq<SyncOp>, t: DriveId, p: Path, v: Bytes)
    requires Sane(h, f) && CollisionFree(h, f) && RoundPart(ManifestsOf(f), res, plan) && t in f
    requires (forall s, d, q :: !IsRename(ManifestsOf(f), s, d, p, q)) && !IsTmp(p) && Brings(f, res, plan, t, p, v)
    ensures t in ApplyAll(h, f, plan)
    ensures Lookup(ApplyAll(h, f, plan)[t].disk, p)
      == if WrittenIn(plan, t, p) then Some(v) else Lookup(f[t].disk, p)
  {
    hide *;
    NameCell(h, f, res, plan, |plan|, t, p, v);
    assert plan[..|plan|] == plan;
  }

  /** Where every drive that has the path has it live, it is nobody's old name. */
  lemma InStepIsNotOld(h: Bytes -> Digest, f: Fleet, d: DriveId, p: Path, x: Bytes)
    requires Edited(h, f, d, p, x)
    ensures (forall s, t, q :: !IsRename(ManifestsOf(f), s, t, p, q)) && !IsTmp(p)
  {
    hide CollisionFree;
    hide IsTmp;
    var ms := ManifestsOf(f);
    assert Matches(h, f[d]);
    assert p in AllPaths(ms) by { assert d in ms && p in ms[d]; }
    forall s | s in ms && p in ms[s]
      ensures !ms[s][p].tombstone
    {
      assert s in Keepers(ms, p);
    }
  }

  /** A rename to the path on the drive moves these contents. */
  ghost predicate AllMove(f: Fleet, t: DriveId, p: Path, v: Bytes) {
    forall s, o :: IsRename(ManifestsOf(f), s, t, o, p) ==> Lookup(f[t].disk, o) == Some(v)
  }

  /** The drive has the contents that are to be shared, if nothing works on the path there. */
  ghost predicate Provided(f: Fleet, res: seq<Resolution>, ops: seq<SyncOp>, t: DriveId, p: Path)
    requires t in f
  {
    !WrittenIn(ops, t, p) ==> HoldsShared(f, res, t, p)
  }

  /** What is to be shared comes to every drive on which only renames of the same contents take the name. */
  lemma SharedArrives(
    h: Bytes -> Digest, f: Fleet, res: seq<Resolution>, plan: seq<SyncOp>, t: DriveId, p: Path, v: Bytes)
    requires Sane(h, f) && CollisionFree(h, f) && RoundPart(ManifestsOf(f), res, plan) && t in f
    requires (forall s, d, q :: !IsRename(ManifestsOf(f), s, d, p, q)) && !IsTmp(p)
    requires Shared(f, res, p) == Some(v) && AllMove(f, t, p, v) && Provided(f, res, plan, t, p)
    ensures t in ApplyAll(h, f, plan) && Lookup(ApplyAll(h, f, plan)[t].disk, p) == Some(v)
  {
    hide ApplyAll;
    hide Shared;
    hide IsRename;
    hide WrittenIn;
    forall op | op in plan && Writes(op, t, p)
      ensures if op.kind == RENAME then op.newPath == Some(p) && Lookup(f[t].disk, op.path) == Some(v)
              else op.kind != REMOVE
    {
      WriterBrings(h, f, res, plan, op, t, p, v);
    }
    NameInTheEnd(h, f, res, plan, t, p, v);
  }

  lemma WriterBrings(
    h: Bytes -> Digest, f: Fleet, res: seq<Resolution>, plan: seq<SyncOp>, op: SyncOp, t: DriveId, p: Path, v: Bytes)
    requires Sane(h, f) && CollisionFree(h, f) && RoundPart(ManifestsOf(f), res, plan) && t in f
    requires (forall s, d, q :: !IsRename(ManifestsOf(f), s, d, p, q)) && op in plan && Writes(op, t, p)
    requires Shared(f, res, p) == Some(v) && AllMove(f, t, p, v)
    ensures if op.kind == RENAME then op.newPath == Some(p) && Lookup(f[t].disk, op.path) == Some(v)
            else op.kind != REMOVE
  {
    hide OpFor;
    hide Shared;
    hide IsRename;
    hide Sane;
    hide CollisionFree;
    hide DistinctKeys;
    assert OfRound(ManifestsOf(f), res, op);
    if op.kind == RENAME {
      NotOldThere(ManifestsOf(f), op, p);
      var s :| IsRename(ManifestsOf(f), s, op.target, op.path, op.newPath.value);
      assert IsRename(ManifestsOf(f), s, t, op.path, p);
    } else if op.kind == REMOVE {
      RemovedIsDoomed(h, f, res, op);
    }
  }

  /** On each drive, an old name goes to the path if and only if it is the one that does. */
  ghost predicate PairedAt(ms: Manifests, p: Path) {
    forall s, t, o, s', o', q :: IsRename(ms, s, t, o, p) && IsRename(ms, s', t, o', q) ==> (o == o' <==> q == p)
  }

  /** A called-for rename to the path that is carried out brings its contents there, whatever is to be shared. */
  lemma RenameArrives(
    h: Bytes -> Digest, f: Fleet, res: seq<Resolution>, ops: seq<SyncOp>, r: SyncOp,
    s: DriveId, t: DriveId, o: Path, p: Path)
    requires Sane(h, f) && CollisionFree(h, f) && RoundPart(ManifestsOf(f), res, ops) && PairedAt(ManifestsOf(f), p)
    requires (forall s', d, q :: !IsRename(ManifestsOf(f), s', d, p, q)) && !IsTmp(p)
    requires IsRename(ManifestsOf(f), s, t, o, p)
    requires r in ops && IsCalled(ManifestsOf(f), r) && r.target == t && r.path == o
    ensures t in f && o in f[t].disk && h(f[t].disk[o]) == ManifestsOf(f)[t][o].hash
    ensures t in ApplyAll(h, f, ops) && Lookup(ApplyAll(h, f, ops)[t].disk, p) == Some(f[t].disk[o])
  {
    hide *;
    SameIds(f);
    RenamedDrives(ManifestsOf(f), s, t, o, p);
    OnDisk(h, f, t, o);
    DiskMatches(h, f, t, o);
    RenameBrings(f, res, ops, r, s, t, o, p);
    NameInTheEnd(h, f, res, ops, t, p, f[t].disk[o]);
  }

  lemma OnDisk(h: Bytes -> Digest, f: Fleet, t: DriveId, p: Path)
    requires Sane(h, f) && t in f && Live(ManifestsOf(f)[t], p)
    ensures p in f[t].disk
  {
    hide AllPaths;
    assert Matches(h, f[t]);
  }

  /** Where a rename takes the name, nothing else does. */
  lemma RenameBrings(
    f: Fleet, res: seq<Resolution>, plan: seq<SyncOp>, x: SyncOp, s: DriveId, t: DriveId, o: Path, p: Path)
    requires RoundPart(ManifestsOf(f), res, plan) && PairedAt(ManifestsOf(f), p) && t in f && o in f[t].disk
    requires (forall s', d, q :: !IsRename(ManifestsOf(f), s', d, p, q)) && IsRename(ManifestsOf(f), s, t, o, p)
    requires x in plan && IsCalled(ManifestsOf(f), x) && x.target == t && x.path == o
    ensures Brings(f, res, plan, t, p, f[t].disk[o]) && WrittenIn(plan, t, p) && x.newPath == Some(p)
  {
    hide OpFor;
    hide Shared;
    hide IsRename;
    hide DistinctKeys;
    var ms := ManifestsOf(f);
    var s0 :| IsRename(ms, s0, t, o, x.newPath.value);
    assert x.newPath == Some(p);
    assert Writes(x, t, p);
    forall op | op in plan && op.kind != RENAME
      ensures !Writes(op, t, p)
    {
      assert op.kind != MKDIR ==> Apart(x, op);
    }
    forall op | op in plan && op.kind == RENAME && Writes(op, t, p)
      ensures op.newPath == Some(p) && Lookup(f[t].disk, op.path) == Some(f[t].disk[o])
    {
      assert OfRound(ms, res, op);
      NotOldThere(ms, op, p);
      var s' :| IsRename(ms, s', t, op.path, p);
    }
  }

  /** All called-for renames to the path move contents with the digest of the edited ones. */
  ghost predicate SameEdit(ms: Manifests, d: DriveId, p: Path)
    requires d in ms && p in ms[d]
  {
    forall s, t, o :: IsRename(ms, s, t, o, p) ==> ms[t][o].hash == ms[d][p].hash
  }

  lemma EditIsThere(h: Bytes -> Digest, f: Fleet, d: DriveId, p: Path, x: Bytes)
    requires Edited(h, f, d, p, x)
    ensures d in f && p in f[d].disk && f[d].disk[p] != x && Sane(h, f) && CollisionFree(h, f)
    ensures d in ManifestsOf(f) && p in ManifestsOf(f)[d] && Live(ManifestsOf(f)[d], p)
    ensures h(f[d].disk[p]) == ManifestsOf(f)[d][p].hash && OnlyPreimage(h, f[d].disk[p])
  {
    hide InStep;
    hide AllPaths;
    hide IsTmp;
    assert Matches(h, f[d]);
  }

  /** The edit comes to all drives, if the edited one comes first and all renames to the path move it. */
  lemma EditArrives(
    h: Bytes -> Digest, f: Fleet, res: seq<Resolution>, ops: seq<SyncOp>, d: DriveId, p: Path, x: Bytes)
    requires Edited(h, f, d, p, x) && RoundPart(ManifestsOf(f), res, ops)
    requires d in ManifestsOf(f) && p in ManifestsOf(f)[d] && SameEdit(ManifestsOf(f), d, p)
    requires IsLeast(d, Keepers(ManifestsOf(f), p)) && forall t :: t in f ==> Provided(f, res, ops, t, p)
    ensures d in f && p in f[d].disk && AllHold(ApplyAll(h, f, ops), p, f[d].disk[p])
  {
    hide *;
    var g := ApplyAll(h, f, ops);
    EditIsThere(h, f, d, p, x);
    EditIsShared(h, f, res, d, p, x);
    InStepIsNotOld(h, f, d, p, x);
    KeptDrives(h, f, ops);
    forall t | t in g
      ensures Lookup(g[t].disk, p) == Some(f[d].disk[p])
    {
      MovesTheEdit(h, f, d, p, x, t);
      SharedArrives(h, f, res, ops, t, p, f[d].disk[p]);
    }
    EveryDrive(g, p, f[d].disk[p]);
  }

  /** A drive that does not come first loses its edit. */
  lemma EditIsLost(
    h: Bytes -> Digest, f: Fleet, res: seq<Resolution>, ops: seq<SyncOp>, d: DriveId, p: Path, x: Bytes)
    requires Edited(h, f, d, p, x) && RoundPart(ManifestsOf(f), res, ops)
    requires !IsLeast(d, Keepers(ManifestsOf(f), p)) && d in f && Provided(f, res, ops, d, p)
    ensures d in ApplyAll(h, f, ops) && Lookup(ApplyAll(h, f, ops)[d].disk, p) == Some(x)
  {
    hide *;
    EditIsThere(h, f, d, p, x);
    EditIsShared(h, f, res, d, p, x);
    InStepIsNotOld(h, f, d, p, x);
    NoneToLive(f, d, p, x);
    SharedArrives(h, f, res, ops, d, p, x);
  }

  /** Where no live path is above another, a sync with renames gives all drives the edited contents if the edited
      drive comes first in id order and every rename that some drive calls for to that path moves the same
      contents; if it does not come first, it loses the edit. */
  lemma EditSurvives(
    h: Bytes -> Digest, f: Fleet, res: seq<Resolution>, plan: seq<SyncOp>, d: DriveId, p: Path, x: Bytes)
    requires Edited(h, f, d, p, x) && LiveTree(ManifestsOf(f)) && IsPlanOf(ManifestsOf(f), res, plan)
    ensures d in ManifestsOf(f) && p in ManifestsOf(f)[d] && d in ApplyAll(h, f, plan)
    ensures IsLeast(d, Keepers(ManifestsOf(f), p)) && SameEdit(ManifestsOf(f), d, p) ==>
      AllHold(ApplyAll(h, f, plan), p, f[d].disk[p])
    ensures !IsLeast(d, Keepers(ManifestsOf(f), p)) ==> Lookup(ApplyAll(h, f, plan)[d].disk, p) == Some(x)
  {
    hide *;
    var ms := ManifestsOf(f);
    EditIsThere(h, f, d, p, x);
    PlanIsWholeRound(ms, res, plan);
    WholeIsPart(ms, res, plan);
    KeptDrives(h, f, plan);
    forall t | t in f
      ensures Provided(f, res, plan, t, p)
    {
      WholeProvides(h, f, res, plan, t, p);
    }
    if !IsLeast(d, Keepers(ms, p)) {
      EditIsLost(h, f, res, plan, d, p, x);
    } else if SameEdit(ms, d, p) {
      EditArrives(h, f, res, plan, d, p, x);
    }
  }

  lemma WholeProvides(h: Bytes -> Digest, f: Fleet, res: seq<Resolution>, plan: seq<SyncOp>, t: DriveId, p: Path)
    requires Sane(h, f) && CollisionFree(h, f) && WholeRound(ManifestsOf(f), res, plan) && t in f
    ensures Provided(f, res, plan, t, p)
  {
    hide OpFor;
    hide RoundPart;
    hide Sane;
    hide CollisionFree;
    hide Shared;
    hide WrittenIn;
    if !WrittenIn(plan, t, p) {
      SharedFile(h, f, res, t, p);
      assert OpFor(ManifestsOf(f), res, t, p).None?;
    }
  }

  lemma EveryDrive(g: Fleet, p: Path, y: Bytes)
    requires forall t | t in g :: Lookup(g[t].disk, p) == Some(y)
    ensures AllHold(g, p, y)
  {
  }

  lemma {:induction false} KeptDrives(h: Bytes -> Digest, f: Fleet, ops: seq<SyncOp>)
    ensures ApplyAll(h, f, ops).Keys == f.Keys
  {
    hide OutcomeOf;
    if ops != [] {
      KeptDrives(h, f, ops[..|ops| - 1]);
    }
  }

  lemma MovesTheEdit(h: Bytes -> Digest, f: Fleet, d: DriveId, p: Path, x: Bytes, t: DriveId)
    requires Edited(h, f, d, p, x) && d in ManifestsOf(f) && p in ManifestsOf(f)[d] && SameEdit(ManifestsOf(f), d, p)
    requires t in f
    ensures AllMove(f, t, p, f[d].disk[p])
  {
    hide InStep;
    hide Sane;
    hide CollisionFree;
    hide IsRename;
    hide OnlyPreimage;
    EditIsThere(h, f, d, p, x);
    forall s, o | IsRename(ManifestsOf(f), s, t, o, p)
      ensures Lookup(f[t].disk, o) == Some(f[d].disk[p])
    {
      RenamedDrives(ManifestsOf(f), s, t, o, p);
      OnDisk(h, f, t, o);
      DiskMatches(h, f, t, o);
      SameBytes(h, f[t].disk[o], f[d].disk[p]);
    }
  }

  lemma SameBytes(h: Bytes -> Digest, a: Bytes, b: Bytes)
    requires OnlyPreimage(h, b) && h(a) == h(b)
    ensures a == b
  {
  }

  lemma NoneToLive(f: Fleet, d: DriveId, p: Path, v: Bytes)
    requires d in ManifestsOf(f) && d in f && p in ManifestsOf(f)[d] && Live(ManifestsOf(f)[d], p)
    ensures AllMove(f, d, p, v)
  {
  }

  /** And where old and new names go in pairs there, only then. */
  lemma EditSurvivesExactly(
    h: Bytes -> Digest, f: Fleet, res: seq<Resolution>, plan: seq<SyncOp>, d: DriveId, p: Path, x: Bytes)
    requires Edited(h, f, d, p, x) && LiveTree(ManifestsOf(f)) && "" !in f && PairedAt(ManifestsOf(f), p)
    requires IsPlanOf(ManifestsOf(f), res, plan)
    ensures d in ManifestsOf(f) && p in ManifestsOf(f)[d]
    ensures AllHold(ApplyAll(h, f, plan), p, f[d].disk[p])
      <==> IsLeast(d, Keepers(ManifestsOf(f), p)) && SameEdit(ManifestsOf(f), d, p)
  {
    hide *;
    var ms, g := ManifestsOf(f), ApplyAll(h, f, plan);
    EditIsThere(h, f, d, p, x);
    EditSurvives(h, f, res, plan, d, p, x);
    if !IsLeast(d, Keepers(ms, p)) {
      HeldBy(g, d, p, f[d].disk[p]);
    } else if !SameEdit(ms, d, p) {
      var s, t, o := OtherMoved(ms, d, p);
      InStepIsNotOld(h, f, d, p, x);
      PlannedRenameArrives(h, f, res, plan, s, t, o, p);
      HeldBy(g, t, p, f[d].disk[p]);
    }
  }

  lemma PlannedRenameArrives(
    h: Bytes -> Digest, f: Fleet, res: seq<Resolution>, plan: seq<SyncOp>, s: DriveId, t: DriveId, o: Path, p: Path)
    requires Sane(h, f) && CollisionFree(h, f) && LiveTree(ManifestsOf(f)) && "" !in f
    requires IsPlanOf(ManifestsOf(f), res, plan) && PairedAt(ManifestsOf(f), p)
    requires (forall s', d, q :: !IsRename(ManifestsOf(f), s', d, p, q)) && !IsTmp(p)
    requires IsRename(ManifestsOf(f), s, t, o, p)
    ensures t in f && o in f[t].disk && h(f[t].disk[o]) == ManifestsOf(f)[t][o].hash
    ensures t in ApplyAll(h, f, plan) && Lookup(ApplyAll(h, f, plan)[t].disk, p) == Some(f[t].disk[o])
  {
    hide *;
    SameIds(f);
    PlanIsWholeRound(ManifestsOf(f), res, plan);
    WholeIsPart(ManifestsOf(f), res, plan);
    var i := CalledIsPlanned(ManifestsOf(f), res, plan, s, t, o, p);
    assert plan[i] in plan;
    RenameArrives(h, f, res, plan, plan[i], s, t, o, p);
  }

  lemma HeldBy(g: Fleet, t: DriveId, p: Path, y: Bytes)
    requires t in g
    ensures AllHold(g, p, y) ==> Lookup(g[t].disk, p) == Some(y)
  {
  }

  lemma OtherMoved(ms: Manifests, d: DriveId, p: Path) returns (s: DriveId, t: DriveId, o: Path)
    requires d in ms && p in ms[d] && !SameEdit(ms, d, p)
    ensures IsRename(ms, s, t, o, p) && t in ms && o in ms[t] && ms[t][o].hash != ms[d][p].hash
  {
    s, t, o :| IsRename(ms, s, t, o, p) && ms[t][o].hash != ms[d][p].hash;
  }

  /** No copy is blocked that is called for to bring the path to a drive. */
  ghost predicate WayIsFree(t: Tree, res: seq<Resolution>, p: Path)
    requires WellRooted(t)
  {
    forall e :: e in t.fleet && CopyCalled(ManifestsOf(t.fleet), res, e, p) ==> !Blocked(t, e, p)
  }

  /** On a file tree: and the way is free for the edit to every drive that does not have the path. */
  lemma EditSurvivesOnTree(
    h: Bytes -> Digest, t: Tree, res: seq<Resolution>, plan: seq<SyncOp>, d: DriveId, p: Path, x: Bytes)
    requires IsTree(t) && Edited(h, t.fleet, d, p, x) && LiveTree(ManifestsOf(t.fleet))
    requires "" !in t.fleet && PairedAt(ManifestsOf(t.fleet), p) && IsPlanOf(ManifestsOf(t.fleet), res, plan)
    ensures WellRooted(t) && d in ManifestsOf(t.fleet) && p in ManifestsOf(t.fleet)[d]
    ensures d in t.fleet && p in t.fleet[d].disk && d in TreeRun(h, t, plan).fleet
    ensures AllHold(TreeRun(h, t, plan).fleet, p, t.fleet[d].disk[p])
      <==> IsLeast(d, Keepers(ManifestsOf(t.fleet), p)) && SameEdit(ManifestsOf(t.fleet), d, p) && WayIsFree(t, res, p)
    ensures !IsLeast(d, Keepers(ManifestsOf(t.fleet), p)) ==>
      Lookup(TreeRun(h, t, plan).fleet[d].disk, p) == Some(x)
  {
    hide *;
    TreeIsRooted(t);
    var f, ms, kept := t.fleet, ManifestsOf(t.fleet), Through(t, plan);
    var g := ApplyAll(h, f, kept);
    EditIsThere(h, f, d, p, x);
    EditIsShared(h, f, res, d, p, x);
    InStepIsNotOld(h, f, d, p, x);
    LiveTreeRun(h, t, res, plan);
    PlanIsWholeRound(ms, res, plan);
    ThroughIsRound(t, ms, res, plan);
    KeptDrives(h, f, kept);
    if !WayIsFree(t, res, p) {
      var e := SomeBlockedDrive(t, res, p);
      BlockedLacks(h, t, res, plan, e, p, x);
      HeldBy(g, e, p, f[d].disk[p]);
    }
    if !IsLeast(d, Keepers(ms, p)) {
      LiveIsNotCopied(ms, res, d, p);
      KeptProvides(h, t, res, plan, d, p);
      EditIsLost(h, f, res, kept, d, p, x);
      HeldBy(g, d, p, f[d].disk[p]);
    } else if WayIsFree(t, res, p) {
      if SameEdit(ms, d, p) {
        forall e | e in f
          ensures Provided(f, res, kept, e, p)
        {
          FreeFor(t, res, e, p);
          KeptProvides(h, t, res, plan, e, p);
        }
        EditArrives(h, f, res, kept, d, p, x);
      } else {
        var s, e, o := OtherMoved(ms, d, p);
        SharedIsSpared(f, res, p);
        KeptRenameArrives(h, t, res, plan, s, e, o, p);
        HeldBy(g, e, p, f[d].disk[p]);
      }
    }
  }

  lemma SomeBlockedDrive(t: Tree, res: seq<Resolution>, p: Path) returns (e: DriveId)
    requires WellRooted(t) && !WayIsFree(t, res, p)
    ensures e in t.fleet && CopyCalled(ManifestsOf(t.fleet), res, e, p) && Blocked(t, e, p)
  {
    hide Blocked;
    hide CopyCalled;
    e :| e in t.fleet && CopyCalled(ManifestsOf(t.fleet), res, e, p) && Blocked(t, e, p);
  }

  lemma FreeFor(t: Tree, res: seq<Resolution>, e: DriveId, p: Path)
    requires WellRooted(t) && WayIsFree(t, res, p) && e in t.fleet
    ensures CopyCalled(ManifestsOf(t.fleet), res, e, p) ==> !Blocked(t, e, p)
  {
    hide Blocked;
    hide CopyCalled;
  }

  lemma LiveIsNotCopied(ms: Manifests, res: seq<Resolution>, d: DriveId, p: Path)
    requires d in ms && Live(ms[d], p)
    ensures !CopyCalled(ms, res, d, p)
  {
    hide OpFor;
    if OpFor(ms, res, d, p).Some? {
      ReplacesLive(ms, res, d, p);
    }
  }

  /** A drive to which the copy is blocked lacks the path in the end. */
  lemma BlockedLacks(
    h: Bytes -> Digest, t: Tree, res: seq<Resolution>, plan: seq<SyncOp>, e: DriveId, p: Path, x: Bytes)
    requires WellRooted(t) && Sane(h, t.fleet) && WholeRound(ManifestsOf(t.fleet), res, plan) && !IsTmp(p)
    requires e in t.fleet && CopyCalled(ManifestsOf(t.fleet), res, e, p) && Blocked(t, e, p)
    ensures e in ApplyAll(h, t.fleet, Through(t, plan))
    ensures Lookup(ApplyAll(h, t.fleet, Through(t, plan))[e].disk, p) == None
  {
    hide *;
    var f, ms, kept := t.fleet, ManifestsOf(t.fleet), Through(t, plan);
    SameIds(f);
    if Live(ms[e], p) {
      LiveIsNotCopied(ms, res, e, p);
    }
    CopyLeftOut(t, res, plan, e, p);
    UnwrittenStays(h, f, kept, e, p);
    LiveIsThere(h, f, e, p);
    LookupGone(f[e].disk, p);
  }

  /** What gets through leaves the path to what is to be shared, unless it is a blocked copy. */
  lemma KeptProvides(h: Bytes -> Digest, t: Tree, res: seq<Resolution>, plan: seq<SyncOp>, e: DriveId, p: Path)
    requires WellRooted(t) && Sane(h, t.fleet) && CollisionFree(h, t.fleet) && e in t.fleet
    requires WholeRound(ManifestsOf(t.fleet), res, plan)
    requires forall s, d, q :: !IsRename(ManifestsOf(t.fleet), s, d, p, q)
    requires CopyCalled(ManifestsOf(t.fleet), res, e, p) ==> !Blocked(t, e, p)
    ensures Provided(t.fleet, res, Through(t, plan), e, p)
  {
    hide OpFor;
    hide Sane;
    hide CollisionFree;
    hide Through;
    hide Shared;
    hide Blocked;
    hide IsRename;
    hide WholeRound;
    hide WrittenIn;
    hide IsCalled;
    var ms := ManifestsOf(t.fleet);
    if !WrittenIn(Through(t, plan), e, p) {
      if OpFor(ms, res, e, p).None? {
        SharedFile(h, t.fleet, res, e, p);
      } else {
        var op := LeftOut(t, res, plan, e, p);
        if op.kind == RENAME {
          CalledFacts(ms, op);
          NotOldThere(ms, op, p);
          LackingIsCopied(ms, res, e, p);
        }
      }
    }
  }

  lemma SharedIsSpared(f: Fleet, res: seq<Resolution>, p: Path)
    requires Shared(f, res, p).Some?
    ensures !Doomed(ManifestsOf(f), res, p)
  {
    hide Quorum;
    hide SourceOf;
  }

  /** Where the path is not live, only a copy is called for. */
  lemma LackingIsCopied(ms: Manifests, res: seq<Resolution>, e: DriveId, p: Path)
    requires OpFor(ms, res, e, p).Some? && e in ms && !Live(ms[e], p)
    ensures CopyCalled(ms, res, e, p)
  {
    hide OpFor;
    OpForFacts(ms, res, e, p);
    ReplacesLive(ms, res, e, p);
  }

  lemma KeptRenameArrives(
    h: Bytes -> Digest, t: Tree, res: seq<Resolution>, plan: seq<SyncOp>, s: DriveId, e: DriveId, o: Path, p: Path)
    requires WellRooted(t) && Sane(h, t.fleet) && CollisionFree(h, t.fleet) && LiveTree(ManifestsOf(t.fleet))
    requires "" !in t.fleet && IsPlanOf(ManifestsOf(t.fleet), res, plan) && PairedAt(ManifestsOf(t.fleet), p)
    requires (forall s', d, q :: !IsRename(ManifestsOf(t.fleet), s', d, p, q)) && !IsTmp(p)
    requires IsRename(ManifestsOf(t.fleet), s, e, o, p) && WayIsFree(t, res, p)
    requires !Doomed(ManifestsOf(t.fleet), res, p)
    ensures e in t.fleet && o in t.fleet[e].disk && h(t.fleet[e].disk[o]) == ManifestsOf(t.fleet)[e][o].hash
    ensures e in ApplyAll(h, t.fleet, Through(t, plan))
    ensures Lookup(ApplyAll(h, t.fleet, Through(t, plan))[e].disk, p) == Some(t.fleet[e].disk[o])
  {
    hide *;
    var f, ms, kept := t.fleet, ManifestsOf(t.fleet), Through(t, plan);
    SameIds(f);
    RenamedDrives(ms, s, e, o, p);
    PlanIsWholeRound(ms, res, plan);
    WholeIsPart(ms, res, plan);
    ThroughIsRound(t, ms, res, plan);
    var i := CalledIsPlanned(ms, res, plan, s, e, o, p);
    OnDisk(h, f, e, o);
    assert plan[i] in plan;
    RenameBrings(f, res, plan, plan[i], s, e, o, p);
    RenameGoesTo(t, plan[i], e, p);
    LackedIsCopied(ms, res, e, p);
    FreeFor(t, res, e, p);
    ThroughMembers(t, plan);
    RenameArrives(h, f, res, kept, plan[i], s, e, o, p);
  }

  lemma LackedIsCopied(ms: Manifests, res: seq<Resolution>, e: DriveId, p: Path)
    requires e in ms && !Live(ms[e], p) && !Doomed(ms, res, p)
    ensures CopyCalled(ms, res, e, p)
  {
    hide OpFor;
    hide SourceOf;
    hide Quorum;
    OpForSource(ms, res, e, p);
    if OpFor(ms, res, e, p).Some? {
      LackingIsCopied(ms, res, e, p);
    }
  }

  // ----- An edit that a rename overrides ----------------------------------------------------

  /** "A" has edited "p"; "B" has the old contents, and has renamed "o" to "p"; "C" has not. */
  function EditedAndRenamed(h: Bytes -> Digest, x: Bytes, y: Bytes): Fleet {
    map["A" := Replica(map["p" := y], map["p" := Entry(h(y), false)]),
        "B" := Replica(map["p" := x], map["p" := Entry(h(x), false), "o" := Entry("", true)]),
        "C" := Replica(map["o" := x], map["o" := Entry(h(x), false)])]
  }

  lemma OverrideManifests(h: Bytes -> Digest, x: Bytes, y: Bytes)
    ensures var ms := ManifestsOf(EditedAndRenamed(h, x, y));
      && ms.Keys == {"A", "B", "C"} && ms["A"].Keys == {"p"} && ms["B"].Keys == {"p", "o"} && ms["C"].Keys == {"o"}
      && ms["A"]["p"] == Entry(h(y), false) && ms["B"]["p"] == Entry(h(x), false) && ms["B"]["o"] == Entry("", true)
      && ms["C"]["o"] == Entry(h(x), false) && AllPaths(ms) == {"o", "p"}
  {
    var f := EditedAndRenamed(h, x, y);
    assert "A" in f && "B" in f && "C" in f;
    var ms := ManifestsOf(f);
    assert ms["A"] == f["A"].manifest && ms["B"] == f["B"].manifest && ms["C"] == f["C"].manifest;
  }

  lemma OverrideCalls(h: Bytes -> Digest, x: Bytes, y: Bytes, s: DriveId, t: DriveId, o: Path, q: Path)
    ensures IsRename(ManifestsOf(EditedAndRenamed(h, x, y)), s, t, o, q) <==> (s, t, o, q) == ("B", "C", "o", "p")
  {
    hide EditedAndRenamed;
    hide ManifestsOf;
    hide AllPaths;
    OverrideManifests(h, x, y);
  }

  lemma OverrideIsEdited(h: Bytes -> Digest, x: Bytes, y: Bytes)
    requires x != y && OnlyPreimage(h, x) && OnlyPreimage(h, y)
    ensures Edited(h, EditedAndRenamed(h, x, y), "A", "p", x)
  {
    hide OnlyPreimage;
    hide Sane;
    hide InStep;
    hide ManifestsOf;
    var f := EditedAndRenamed(h, x, y);
    assert f.Keys == {"A", "B", "C"};
    OverrideIsSane(h, x, y);
    OverrideInStep(h, x, y);
  }

  lemma OverrideIsSane(h: Bytes -> Digest, x: Bytes, y: Bytes)
    ensures Sane(h, EditedAndRenamed(h, x, y))
  {
    hide ManifestsOf;
    hide AllPaths;
    hide Matches;
    OverrideManifests(h, x, y);
    var f := EditedAndRenamed(h, x, y);
    assert f.Keys == {"A", "B", "C"};
    OneFile(h, f["A"], "p");
    OneFile(h, f["B"], "p");
    OneFile(h, f["C"], "o");
  }

  lemma OneFile(h: Bytes -> Digest, r: Replica, p: Path)
    requires r.disk.Keys == {p} && Live(r.manifest, p) && r.manifest[p].hash == h(r.disk[p])
    requires forall q :: q in r.manifest && q != p ==> r.manifest[q].tombstone
    ensures Matches(h, r)
  {
  }

  lemma OverrideInStep(h: Bytes -> Digest, x: Bytes, y: Bytes)
    ensures InStep(ManifestsOf(EditedAndRenamed(h, x, y)), "p")
  {
    hide EditedAndRenamed;
    hide ManifestsOf;
    hide AllPaths;
    hide Order;
    OverrideManifests(h, x, y);
    OrderDecidesLeq(map[], map[]);
    LeqReflexive(map[]);
    assert Keepers(ManifestsOf(EditedAndRenamed(h, x, y)), "p") <= {"A", "B"};
  }

  /** The edited drive comes first, and nothing is in conflict at the path; but every plan leaves the old contents
      on the drive on which the file is still to be renamed. */
  lemma RenameOverridesEdit(h: Bytes -> Digest, x: Bytes, y: Bytes, res: seq<Resolution>, plan: seq<SyncOp>)
    requires x != y && OnlyPreimage(h, x) && OnlyPreimage(h, y)
    requires IsPlanOf(ManifestsOf(EditedAndRenamed(h, x, y)), res, plan)
    ensures Edited(h, EditedAndRenamed(h, x, y), "A", "p", x)
    ensures IsLeast("A", Keepers(ManifestsOf(EditedAndRenamed(h, x, y)), "p"))
    ensures Shared(EditedAndRenamed(h, x, y), res, "p") == Some(y)
    ensures var g := ApplyAll(h, EditedAndRenamed(h, x, y), plan);
      "C" in g && Lookup(g["C"].disk, "p") == Some(x)
  {
    hide *;
    var f := EditedAndRenamed(h, x, y);
    OverrideIsEdited(h, x, y);
    OverrideFacts(h, x, y);
    EditIsShared(h, f, res, "A", "p", x);
    EditIsThere(h, f, "A", "p", x);
    InStepIsNotOld(h, f, "A", "p", x);
    OverrideCalls(h, x, y, "B", "C", "o", "p");
    PlannedRenameArrives(h, f, res, plan, "B", "C", "o", "p");
  }

  lemma OverrideFacts(h: Bytes -> Digest, x: Bytes, y: Bytes)
    ensures var f := EditedAndRenamed(h, x, y);
      && LiveTree(ManifestsOf(f)) && "" !in f && PairedAt(ManifestsOf(f), "p")
      && IsLeast("A", Keepers(ManifestsOf(f), "p"))
      && "A" in f && f["A"].disk == map["p" := y] && "C" in f && f["C"].disk == map["o" := x]
  {
    hide ManifestsOf;
    hide AllPaths;
    hide IsRename;
    hide LiveTree;
    OverrideManifests(h, x, y);
    var ms := ManifestsOf(EditedAndRenamed(h, x, y));
    FlatTree(ms);
    forall s, t, o, q
      ensures IsRename(ms, s, t, o, q) <==> (s, t, o, q) == ("B", "C", "o", "p")
    {
      OverrideCalls(h, x, y, s, t, o, q);
    }
    assert Keepers(ms, "p") == {"A", "B"};
  }
}
