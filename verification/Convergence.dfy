/** One sync round as a whole: whatever the order of its operations, it ends in one state, and in
    that state the drives agree. */
module Convergence {
  import opened Base
  import opened SyncOps
  import opened VersionVectors
  import opened Drives
  import opened CrashSafety
  import opened Executor
  import opened ConflictResolver
  import opened PlanRules

  function ManifestsOf(f: Fleet): Manifests {
    map d | d in f :: f[d].manifest
  }

  lemma SameManifests(drives: map<DriveId, Drive>, ms: Manifests)
    requires ms.Keys == drives.Keys && forall d :: d in drives ==> ms[d] == drives[d].manifest
    ensures ms == ManifestsOf(FleetOf(drives))
  {
  }

  /** The disk holds exactly the live entries of the manifest, with the bytes it names. */
  ghost predicate Matches(h: Bytes -> Digest, r: Replica) {
    && (forall p :: p in r.disk <==> Live(r.manifest, p))
    && (forall p :: p in r.disk ==> h(r.disk[p]) == r.manifest[p].hash)
  }

  /** Every drive's disk matches its manifest, and nothing tracked looks like a tmp file. */
  ghost predicate Sane(h: Bytes -> Digest, f: Fleet) {
    && (forall d :: d in f ==> Matches(h, f[d]))
    && (forall p :: p in AllPaths(ManifestsOf(f)) ==> !IsTmp(p))
  }

  /** Every path is on all drives with the same bytes, or on none. */
  ghost predicate Converged(f: Fleet) {
    forall p, d, e :: d in f && e in f && p in f[d].disk ==> p in f[e].disk && f[e].disk[p] == f[d].disk[p]
  }

  /** No two contents on the drives can be confused through their digests. */
  ghost predicate CollisionFree(h: Bytes -> Digest, f: Fleet) {
    forall d, p :: d in f && p in f[d].disk ==> OnlyPreimage(h, f[d].disk[p])
  }

  function ApplyAll(h: Bytes -> Digest, f: Fleet, ops: seq<SyncOp>): Fleet {
    if ops == [] then f else Applied(h, ApplyAll(h, f, ops[..|ops| - 1]), ops[|ops| - 1])
  }

  /** One operation after another, from the first to the last. */
  lemma {:induction false} AppliedInOrder(h: Bytes -> Digest, f: Fleet, ops: seq<SyncOp>)
    requires ops != []
    ensures ApplyAll(h, f, ops) == ApplyAll(h, Applied(h, f, ops[0]), ops[1..])
    decreases |ops|
  {
    hide Applied;
    if |ops| > 1 {
      var front := ops[..|ops| - 1];
      AppliedInOrder(h, f, front);
      assert ops[1..][..|ops| - 2] == front[1..];
    }
  }

  lemma ApplyLast(h: Bytes -> Digest, f: Fleet, front: seq<SyncOp>, op: SyncOp)
    ensures ApplyAll(h, f, front + [op]) == Applied(h, ApplyAll(h, f, front), op)
  {
    hide Applied;
    assert (front + [op])[..|front|] == front;
  }

  lemma {:induction false} ApplySplit(h: Bytes -> Digest, f: Fleet, a: seq<SyncOp>, b: seq<SyncOp>)
    ensures ApplyAll(h, f, a + b) == ApplyAll(h, ApplyAll(h, f, a), b)
    decreases |b|
  {
    hide Applied;
    if b == [] {
      assert a + b == a;
    } else {
      ApplySplit(h, f, a, b[..|b| - 1]);
      assert (a + b)[..|a + b| - 1] == a + b[..|b| - 1];
    }
  }

  /** `ops` is part of the round planned for `ms`, in some order and with some directories. */
  ghost predicate PartOf(ops: seq<SyncOp>, ms: Manifests, res: seq<Resolution>) {
    && (forall i :: 0 <= i < |ops| ==> ops[i].kind == MKDIR || OpFor(ms, res, ops[i].target, ops[i].path) == Some(ops[i]))
    && (forall i, j :: 0 <= i < j < |ops| && ops[i].kind != MKDIR && ops[j].kind != MKDIR ==> ops[i].Key() != ops[j].Key())
  }

  /** `ops` is the whole of it. */
  ghost predicate CarriesOut(ops: seq<SyncOp>, ms: Manifests, res: seq<Resolution>) {
    && PartOf(ops, ms, res)
    && (forall t, p :: OpFor(ms, res, t, p).Some? ==> OpFor(ms, res, t, p).value in ops)
  }

  // ----- The state a round leads to, cell by cell -------------------------------------------

  lemma OpForFacts(ms: Manifests, res: seq<Resolution>, t: DriveId, p: Path)
    requires OpFor(ms, res, t, p).Some?
    ensures var op := OpFor(ms, res, t, p).value;
      && op.target == t && op.path == p && t in ms && p in AllPaths(ms)
      && (op.kind == REMOVE || op.kind == COPY || op.kind == REPLACE)
      && (op.kind == REMOVE ==> Live(ms[t], p))
      && (op.kind != REMOVE ==> op.source != t && op.source in ms && Live(ms[op.source], p))
      && (op.kind != REMOVE ==> OpFor(ms, res, op.source, p).None?)
  {
    hide Quorum;
    hide Tombstones;
    hide JoinAt;
    hide Order;
    hide Resolved;
    hide Dominant;
  }

  function EntryAfter(ms: Manifests, res: seq<Resolution>, t: DriveId, p: Path): Option<Meta>
    requires t in ms
  {
    match OpFor(ms, res, t, p)
    case None => Lookup(ms[t], p)
    case Some(op) =>
      OpForFacts(ms, res, t, p);
      if op.kind == REMOVE then Some(ms[t][p].(tombstone := true, vv := op.vv))
      else Some(ms[op.source][p].(vv := op.vv))
  }

  function FileAfter(f: Fleet, res: seq<Resolution>, t: DriveId, p: Path): Option<Bytes>
    requires t in f
  {
    match OpFor(ManifestsOf(f), res, t, p)
    case None => Lookup(f[t].disk, p)
    case Some(op) =>
      if op.kind == REMOVE || op.source !in f then None else Lookup(f[op.source].disk, p)
  }

  ghost predicate DoneIn(ops: seq<SyncOp>, t: DriveId, p: Path) {
    exists i :: 0 <= i < |ops| && ops[i].kind != MKDIR && ops[i].Key() == (t, p)
  }

  /** The cells that `ops` has reached are final, the others are as they were. */
  ghost predicate CellAt(f: Fleet, res: seq<Resolution>, g: Fleet, t: DriveId, p: Path, done: bool)
    requires t in f && t in g
  {
    && Lookup(g[t].manifest, p) == (if done then EntryAfter(ManifestsOf(f), res, t, p) else Lookup(f[t].manifest, p))
    && Lookup(g[t].disk, p) == (if done then FileAfter(f, res, t, p) else Lookup(f[t].disk, p))
  }

  ghost predicate Partly(f: Fleet, res: seq<Resolution>, ops: seq<SyncOp>, g: Fleet) {
    g.Keys == f.Keys && forall t, p :: t in f ==> CellAt(f, res, g, t, p, DoneIn(ops, t, p))
  }

  ghost predicate Reached(f: Fleet, res: seq<Resolution>, g: Fleet) {
    g.Keys == f.Keys && forall t, p :: t in f ==> CellAt(f, res, g, t, p, true)
  }

  lemma DoneAppend(ops: seq<SyncOp>, op: SyncOp, t: DriveId, p: Path)
    ensures DoneIn(ops + [op], t, p) <==> DoneIn(ops, t, p) || (op.kind != MKDIR && op.Key() == (t, p))
  {
    var more := ops + [op];
    if DoneIn(ops, t, p) {
      var i :| 0 <= i < |ops| && ops[i].kind != MKDIR && ops[i].Key() == (t, p);
      assert more[i] == ops[i];
    }
    if op.kind != MKDIR && op.Key() == (t, p) {
      assert more[|ops|] == op;
    }
  }

  /** Applying one more operation makes its own cell final and leaves every other one alone. */
  lemma OneOperation(
    h: Bytes -> Digest, f: Fleet, res: seq<Resolution>, g: Fleet, op: SyncOp, before: seq<SyncOp>)
    requires Sane(h, f) && Partly(f, res, before, g)
    requires OpFor(ManifestsOf(f), res, op.target, op.path) == Some(op)
    requires !DoneIn(before, op.target, op.path)
    requires op.kind != REMOVE ==> !DoneIn(before, op.source, op.path)
    ensures Applied(h, g, op).Keys == f.Keys
    ensures CellAt(f, res, Applied(h, g, op), op.target, op.path, true)
    ensures forall t, p :: t in f && (t, p) != op.Key() ==>
      CellAt(f, res, Applied(h, g, op), t, p, DoneIn(before, t, p))
  {
    hide OpFor;
    hide DoneIn;
    hide EntryAfter;
    hide FileAfter;
    var ms, t, p := ManifestsOf(f), op.target, op.path;
    OpForFacts(ms, res, t, p);
    assert CellAt(f, res, g, t, p, false);
    NoTmpFile(h, f, res, before, g, t, p);
    if op.kind != REMOVE {
      assert CellAt(f, res, g, op.source, p, false);
      assert Matches(h, f[op.source]);
    }
    OwnCell(h, f, res, g, op);
    OtherCells(h, g, op);
    forall u, q | u in f && (u, q) != op.Key()
      ensures CellAt(f, res, Applied(h, g, op), u, q, DoneIn(before, u, q))
    {
      assert CellAt(f, res, g, u, q, DoneIn(before, u, q));
    }
  }

  lemma OwnCell(h: Bytes -> Digest, f: Fleet, res: seq<Resolution>, g: Fleet, op: SyncOp)
    requires g.Keys == f.Keys && OpFor(ManifestsOf(f), res, op.target, op.path) == Some(op)
    requires op.target in f && op.kind in {REMOVE, COPY, REPLACE}
    requires CellAt(f, res, g, op.target, op.path, false)
    requires op.kind == REMOVE ==> op.path in f[op.target].manifest
    requires op.kind != REMOVE ==> CanCopy(h, f, op) && CellAt(f, res, g, op.source, op.path, false)
    ensures Succeeds(h, g, op) && CellAt(f, res, Applied(h, g, op), op.target, op.path, true)
  {
    hide OpFor;
    assert ManifestsOf(f)[op.target] == f[op.target].manifest;
    assert op.kind != REMOVE ==> CanCopy(h, g, op);
  }

  /** An operation touches nothing but its path and that path's tmp file on its target. */
  lemma OtherCells(h: Bytes -> Digest, g: Fleet, op: SyncOp)
    requires op.kind in {REMOVE, COPY, REPLACE} && Succeeds(h, g, op) && Tmp(op.path) !in g[op.target].disk
    ensures Applied(h, g, op).Keys == g.Keys
    ensures forall t, p :: t in g && (t, p) != op.Key() ==>
      && Lookup(Applied(h, g, op)[t].manifest, p) == Lookup(g[t].manifest, p)
      && Lookup(Applied(h, g, op)[t].disk, p) == Lookup(g[t].disk, p)
  {
  }

  lemma NoTmpFile(
    h: Bytes -> Digest, f: Fleet, res: seq<Resolution>, before: seq<SyncOp>, g: Fleet, t: DriveId, p: Path)
    requires Sane(h, f) && Partly(f, res, before, g) && t in f
    ensures Tmp(p) !in g[t].disk
  {
    hide OpFor;
    var ms := ManifestsOf(f);
    TmpIsTmp(p);
    assert CellAt(f, res, g, t, Tmp(p), DoneIn(before, t, Tmp(p)));
    assert Tmp(p) !in AllPaths(ms);
    if OpFor(ms, res, t, Tmp(p)).Some? {
      OpForFacts(ms, res, t, Tmp(p));
    }
    assert Matches(h, f[t]);
    assert Tmp(p) in f[t].disk <==> Live(ms[t], Tmp(p));
  }

  /** In a round, no operation finds its own cell or its source's already overwritten. */
  lemma NotYet(ops: seq<SyncOp>, ms: Manifests, res: seq<Resolution>, k: nat)
    requires PartOf(ops, ms, res) && k < |ops| && ops[k].kind != MKDIR
    ensures !DoneIn(ops[..k], ops[k].target, ops[k].path)
    ensures ops[k].kind != REMOVE ==> !DoneIn(ops[..k], ops[k].source, ops[k].path)
  {
    hide OpFor;
    var op := ops[k];
    OpForFacts(ms, res, op.target, op.path);
    forall i | 0 <= i < k && ops[i].kind != MKDIR
      ensures ops[i].Key() != op.Key()
      ensures op.kind != REMOVE ==> ops[i].Key() != (op.source, op.path)
    {
      assert OpFor(ms, res, ops[i].target, ops[i].path) == Some(ops[i]);
    }
  }

  lemma PartlyStep(h: Bytes -> Digest, f: Fleet, res: seq<Resolution>, g: Fleet, op: SyncOp, before: seq<SyncOp>)
    requires Sane(h, f) && Partly(f, res, before, g)
    requires op.kind != MKDIR ==> OpFor(ManifestsOf(f), res, op.target, op.path) == Some(op)
    requires op.kind != MKDIR ==> !DoneIn(before, op.target, op.path)
    requires op.kind == COPY || op.kind == REPLACE ==> !DoneIn(before, op.source, op.path)
    ensures Partly(f, res, before + [op], Applied(h, g, op))
  {
    hide OpFor;
    hide DoneIn;
    hide Applied;
    hide CellAt;
    if op.kind == MKDIR {
      DirChangesNothing(h, g, op);
    } else {
      OpForFacts(ManifestsOf(f), res, op.target, op.path);
      OneOperation(h, f, res, g, op, before);
    }
    forall t, p | t in f
      ensures CellAt(f, res, Applied(h, g, op), t, p, DoneIn(before + [op], t, p))
    {
      DoneAppend(before, op, t, p);
      assert op.kind == MKDIR ==> CellAt(f, res, g, t, p, DoneIn(before, t, p));
    }
  }

  lemma DirChangesNothing(h: Bytes -> Digest, g: Fleet, op: SyncOp)
    requires op.kind == MKDIR
    ensures Applied(h, g, op) == g
  {
  }

  ghost predicate OnlyDirectories(plan: seq<SyncOp>) {
    forall i :: 0 <= i < |plan| ==> plan[i].kind == MKDIR
  }

  lemma {:induction false} DirectoriesOnly(h: Bytes -> Digest, f: Fleet, plan: seq<SyncOp>)
    requires OnlyDirectories(plan)
    ensures ApplyAll(h, f, plan) == f
  {
    if plan != [] {
      DirectoriesOnly(h, f, plan[..|plan| - 1]);
      DirChangesNothing(h, f, plan[|plan| - 1]);
    }
  }

  /** Every prefix of a round has brought its own cells to their end, and no others. */
  lemma {:induction false} PrefixReached(h: Bytes -> Digest, f: Fleet, res: seq<Resolution>, ops: seq<SyncOp>, k: nat)
    requires k <= |ops| && Sane(h, f) && PartOf(ops, ManifestsOf(f), res)
    ensures Partly(f, res, ops[..k], ApplyAll(h, f, ops[..k]))
  {
    hide OpFor;
    hide DoneIn;
    hide Applied;
    if k == 0 {
      NothingDone(f, res);
    } else {
      var before, op := ops[..k - 1], ops[k - 1];
      PrefixReached(h, f, res, ops, k - 1);
      assert ops[..k] == before + [op] && ops[..k][..|ops[..k]| - 1] == before;
      if op.kind != MKDIR {
        NotYet(ops, ManifestsOf(f), res, k - 1);
      }
      PartlyStep(h, f, res, ApplyAll(h, f, before), op, before);
    }
  }

  lemma NothingDone(f: Fleet, res: seq<Resolution>)
    ensures Partly(f, res, [], f)
  {
    hide OpFor;
  }

  /** Where a round leads depends on the manifests and disks it starts from and on the resolutions,
      not on the order of its operations. */
  lemma RoundOutcome(h: Bytes -> Digest, f: Fleet, res: seq<Resolution>, ops: seq<SyncOp>)
    requires Sane(h, f) && CarriesOut(ops, ManifestsOf(f), res)
    ensures Reached(f, res, ApplyAll(h, f, ops))
  {
    hide OpFor;
    hide ApplyAll;
    PrefixReached(h, f, res, ops, |ops|);
    assert ops[..|ops|] == ops;
    forall t, p | t in f
      ensures CellAt(f, res, ApplyAll(h, f, ops), t, p, true)
    {
      assert CellAt(f, res, ApplyAll(h, f, ops), t, p, DoneIn(ops, t, p));
      var op := OpFor(ManifestsOf(f), res, t, p);
      if op.Some? {
        OpForFacts(ManifestsOf(f), res, t, p);
        var i :| 0 <= i < |ops| && ops[i] == op.value;
        assert DoneIn(ops, t, p);
      } else {
        assert Lookup(ManifestsOf(f)[t], p) == Lookup(f[t].manifest, p);
      }
    }
  }

  lemma ReachedUnique(f: Fleet, res: seq<Resolution>, g: Fleet, g': Fleet)
    requires Reached(f, res, g) && Reached(f, res, g')
    ensures g == g'
  {
    hide EntryAfter;
    hide FileAfter;
    forall t | t in g
      ensures g[t] == g'[t]
    {
      forall p
        ensures Lookup(g[t].manifest, p) == Lookup(g'[t].manifest, p) && Lookup(g[t].disk, p) == Lookup(g'[t].disk, p)
      {
        assert CellAt(f, res, g, t, p, true) && CellAt(f, res, g', t, p, true);
      }
      SameMap(g[t].manifest, g'[t].manifest);
      SameMap(g[t].disk, g'[t].disk);
    }
  }

  /** Any two ways of carrying out one round end in the same manifests and the same disks. */
  lemma OrderDoesNotMatter(h: Bytes -> Digest, f: Fleet, res: seq<Resolution>, a: seq<SyncOp>, b: seq<SyncOp>)
    requires Sane(h, f) && CarriesOut(a, ManifestsOf(f), res) && CarriesOut(b, ManifestsOf(f), res)
    ensures ApplyAll(h, f, a) == ApplyAll(h, f, b)
  {
    hide CarriesOut;
    hide Reached;
    hide Sane;
    RoundOutcome(h, f, res, a);
    RoundOutcome(h, f, res, b);
    ReachedUnique(f, res, ApplyAll(h, f, a), ApplyAll(h, f, b));
  }

  // ----- The state a round leads to is one in which the drives agree -------------------------

  /** What every drive holds for `p` after the round: the source's file, or none. */
  function Shared(f: Fleet, res: seq<Resolution>, p: Path): Option<Bytes> {
    var ms := ManifestsOf(f);
    var s := SourceOf(ms, res, p);
    if Quorum(ms, p) || s.None? || ms[s.value][p].tombstone then None
    else Lookup(f[s.value].disk, p)
  }

  lemma SharedFile(h: Bytes -> Digest, f: Fleet, res: seq<Resolution>, t: DriveId, p: Path)
    requires Sane(h, f) && CollisionFree(h, f) && t in f
    ensures FileAfter(f, res, t, p) == Shared(f, res, p)
  {
    hide OpFor;
    var ms, s := ManifestsOf(f), SourceOf(ManifestsOf(f), res, p);
    assert Matches(h, f[t]);
    OpForSource(ms, res, t, p);
    if s.Some? {
      assert Matches(h, f[s.value]);
    }
  }

  /** The planned operation, in terms of the source: remove, copy from it, or nothing to do. */
  lemma OpForSource(ms: Manifests, res: seq<Resolution>, t: DriveId, p: Path)
    requires t in ms
    ensures var op, s := OpFor(ms, res, t, p), SourceOf(ms, res, p);
      if Quorum(ms, p) || s.None? || ms[s.value][p].tombstone then
        if op.None? then !Live(ms[t], p) else op.value.kind == REMOVE
      else if op.None? then
        t == s.value || (Live(ms[t], p) && ms[t][p].hash == ms[s.value][p].hash)
      else op.value.kind != REMOVE && op.value.source == s.value
  {
    hide Quorum;
    hide Tombstones;
    hide JoinAt;
    hide Order;
    hide SourceOf;
    SourceExists(ms, res, p);
  }

  /** A tracked entry after the round is live exactly if its file is there, with the bytes it names. */
  lemma EntryMatchesFile(h: Bytes -> Digest, f: Fleet, res: seq<Resolution>, t: DriveId, p: Path)
    requires Sane(h, f) && t in f
    ensures var e, x := EntryAfter(ManifestsOf(f), res, t, p), FileAfter(f, res, t, p);
      && (e.Some? && !e.value.tombstone <==> x.Some?)
      && (x.Some? ==> h(x.value) == e.value.hash)
      && (e.Some? ==> p in AllPaths(ManifestsOf(f)))
  {
    hide OpFor;
    var ms := ManifestsOf(f);
    var op := OpFor(ms, res, t, p);
    assert Matches(h, f[t]);
    if op.Some? {
      OpForFacts(ms, res, t, p);
      if op.value.kind != REMOVE {
        assert Matches(h, f[op.value.source]);
      }
    } else {
      assert p in ms[t] ==> p in AllPaths(ms);
    }
  }

  lemma ReachedConverges(h: Bytes -> Digest, f: Fleet, res: seq<Resolution>, g: Fleet)
    requires Sane(h, f) && CollisionFree(h, f) && Reached(f, res, g)
    ensures Converged(g) && Sane(h, g)
  {
    hide EntryAfter;
    hide FileAfter;
    hide Shared;
    hide CollisionFree;
    hide Sane;
    forall t | t in f
      ensures Matches(h, g[t]) && forall p :: Lookup(g[t].disk, p) == Shared(f, res, p)
    {
      forall p
        ensures Lookup(g[t].disk, p) == Shared(f, res, p)
        ensures p in g[t].disk <==> Live(g[t].manifest, p)
        ensures p in g[t].disk ==> h(g[t].disk[p]) == g[t].manifest[p].hash
      {
        assert CellAt(f, res, g, t, p, true);
        SharedFile(h, f, res, t, p);
        EntryMatchesFile(h, f, res, t, p);
      }
    }
    NoNewPaths(h, f, res, g);
    forall p, d, e | d in g && e in g && p in g[d].disk
      ensures p in g[e].disk && g[e].disk[p] == g[d].disk[p]
    {
      assert Lookup(g[d].disk, p) == Shared(f, res, p) == Lookup(g[e].disk, p);
    }
    KeptSane(h, f, g);
  }

  lemma KeptSane(h: Bytes -> Digest, f: Fleet, g: Fleet)
    requires Sane(h, f) && (forall d :: d in g ==> Matches(h, g[d]))
    requires AllPaths(ManifestsOf(g)) <= AllPaths(ManifestsOf(f))
    ensures Sane(h, g)
  {
    hide Matches;
    hide AllPaths;
  }

  lemma NoNewPaths(h: Bytes -> Digest, f: Fleet, res: seq<Resolution>, g: Fleet)
    requires Sane(h, f) && Reached(f, res, g)
    ensures AllPaths(ManifestsOf(g)) <= AllPaths(ManifestsOf(f))
  {
    hide EntryAfter;
    hide FileAfter;
    hide Sane;
    forall t, p | t in g && p in g[t].manifest
      ensures p in AllPaths(ManifestsOf(f))
    {
      assert CellAt(f, res, g, t, p, true);
      EntryMatchesFile(h, f, res, t, p);
    }
  }

  /** One round without renames is enough: whatever the resolutions were, afterwards every path is on
      all drives with the same bytes or on none, and every disk still matches its manifest. */
  lemma OneRoundConverges(h: Bytes -> Digest, f: Fleet, res: seq<Resolution>, ops: seq<SyncOp>)
    requires Sane(h, f) && CollisionFree(h, f) && CarriesOut(ops, ManifestsOf(f), res)
    ensures Converged(ApplyAll(h, f, ops)) && Sane(h, ApplyAll(h, f, ops))
  {
    hide CarriesOut;
    hide Reached;
    hide Sane;
    hide CollisionFree;
    hide Converged;
    RoundOutcome(h, f, res, ops);
    ReachedConverges(h, f, res, ApplyAll(h, f, ops));
  }

  /** In a round without renames, every file operation succeeds where the device does. */
  lemma FileOpSucceeds(h: Bytes -> Digest, f: Fleet, res: seq<Resolution>, ops: seq<SyncOp>, k: nat)
    requires Sane(h, f) && PartOf(ops, ManifestsOf(f), res) && k < |ops| && ops[k].kind != MKDIR
    ensures Succeeds(h, ApplyAll(h, f, ops[..k]), ops[k])
  {
    hide OpFor;
    hide ApplyAll;
    hide DoneIn;
    hide EntryAfter;
    hide FileAfter;
    var op, g := ops[k], ApplyAll(h, f, ops[..k]);
    PrefixReached(h, f, res, ops, k);
    NotYet(ops, ManifestsOf(f), res, k);
    OpForFacts(ManifestsOf(f), res, op.target, op.path);
    assert CellAt(f, res, g, op.target, op.path, false);
    if op.kind != REMOVE {
      assert CellAt(f, res, g, op.source, op.path, false);
      assert Matches(h, f[op.source]);
    }
    OwnCell(h, f, res, g, op);
  }
}
