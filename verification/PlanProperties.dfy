/** What holds of every plan: one operation per drive and path, no cycle, directories first. */
module PlanProperties {
  import opened Base
  import opened SyncOps
  import opened VersionVectors
  import opened Drives
  import opened ConflictResolver
  import opened RenameDetection
  import opened PlanRules
  import opened PlanOrder
  import opened SyncPlanner
  import opened Directories

  /** The paths that are live on some drive. */
  function LivePaths(ms: Manifests): set<Path> {
    set d, p | d in ms && p in ms[d] && !ms[d][p].tombstone :: p
  }

  /** No live path is a directory above another live path. Deleted paths do not matter. */
  ghost predicate LiveTree(ms: Manifests) {
    forall p, q :: p in LivePaths(ms) && q in LivePaths(ms) ==> p !in AncestorDirs(q)
  }

  // ----- The emitted operations and their keys ----------------------------------------------

  lemma KeysTogether(a: seq<SyncOp>, b: seq<SyncOp>)
    requires DistinctKeys(a) && DistinctKeys(b)
    requires forall x, y :: x in a && y in b ==> x.Key() != y.Key()
    ensures DistinctKeys(a + b)
  {
    var c := a + b;
    forall i, j | 0 <= i < j < |c|
      ensures c[i].Key() != c[j].Key()
    {
      if i < |a| <= j {
        assert c[i] in a && c[j] in b;
      }
    }
  }

  /** The row of a path holds exactly the operations planned for it on unhandled drives. */
  lemma {:induction false} RowMembers(
    ms: Manifests, res: seq<Resolution>, handled: Handled, ids: seq<DriveId>, p: Path)
    requires forall i, j :: 0 <= i < j < |ids| ==> ids[i] != ids[j]
    ensures DistinctKeys(RowOps(ms, res, handled, ids, p))
    ensures forall op :: op in RowOps(ms, res, handled, ids, p) <==>
      op.target in ids && op.Key() !in handled && OpFor(ms, res, op.target, p) == Some(op)
  {
    hide OpFor;
    if ids != [] {
      var front, t := ids[..|ids| - 1], ids[|ids| - 1];
      RowMembers(ms, res, handled, front, p);
      OpForShape(ms, res, t, p);
      assert forall d :: d in ids <==> d in front || d == t;
      KeysTogether(RowOps(ms, res, handled, front, p), OneOp(ms, res, handled, t, p));
    }
  }

  lemma OpForShape(ms: Manifests, res: seq<Resolution>, t: DriveId, p: Path)
    ensures OpFor(ms, res, t, p).Some? ==>
      var op := OpFor(ms, res, t, p).value;
      op.target == t && op.path == p && t in ms && op.kind != MKDIR && op.kind != RENAME
  {
    hide Quorum;
    hide Tombstones;
    hide SourceOf;
    hide JoinAt;
    hide Order;
  }

  lemma RowPath(ms: Manifests, res: seq<Resolution>, handled: Handled, p: Path)
    ensures forall op :: op in RowOps(ms, res, handled, Ids(ms), p) ==> op.path == p
    ensures forall op: SyncOp :: OpFor(ms, res, op.target, p) == Some(op) ==> op.target in Ids(ms)
  {
    hide OpFor;
    hide RowOps;
    RowMembers(ms, res, handled, Ids(ms), p);
    forall op: SyncOp | OpFor(ms, res, op.target, p) == Some(op)
      ensures op.path == p && op.target in ms
    {
      OpForShape(ms, res, op.target, p);
    }
  }

  lemma {:induction false} FileMembers(ms: Manifests, res: seq<Resolution>, handled: Handled, paths: seq<Path>)
    requires forall i, j :: 0 <= i < j < |paths| ==> paths[i] != paths[j]
    ensures DistinctKeys(FileOps(ms, res, handled, paths))
    ensures forall op :: op in FileOps(ms, res, handled, paths) <==>
      op.path in paths && op.Key() !in handled && OpFor(ms, res, op.target, op.path) == Some(op)
  {
    hide OpFor;
    hide RowOps;
    if paths != [] {
      var front, p := paths[..|paths| - 1], paths[|paths| - 1];
      FileMembers(ms, res, handled, front);
      RowMembers(ms, res, handled, Ids(ms), p);
      RowPath(ms, res, handled, p);
      assert forall q :: q in paths <==> q in front || q == p;
      KeysTogether(FileOps(ms, res, handled, front), RowOps(ms, res, handled, Ids(ms), p));
    }
  }

  lemma {:induction false} RenameRowMembers(ms: Manifests, t: DriveId, names: map<Path, Path>, olds: seq<Path>)
    requires forall p :: p in olds ==> p in names
    requires forall i, j :: 0 <= i < j < |olds| ==> olds[i] != olds[j]
    ensures DistinctKeys(RenameRow(ms, t, names, olds))
    ensures forall op :: op in RenameRow(ms, t, names, olds) ==>
      op.kind == RENAME && op.target == t && op.path in olds && op.newPath == Some(names[op.path])
  {
    if olds != [] {
      var front, p := olds[..|olds| - 1], olds[|olds| - 1];
      RenameRowMembers(ms, t, names, front);
      assert forall q :: q in olds <==> q in front || q == p;
      KeysTogether(RenameRow(ms, t, names, front), RenameOps(ms, t, p, names[p]));
    }
  }

  lemma {:induction false} RenameMembers(ms: Manifests, r: RenameMap, ts: seq<DriveId>)
    requires forall t :: t in ts ==> t in r
    requires forall i, j :: 0 <= i < j < |ts| ==> ts[i] != ts[j]
    ensures DistinctKeys(RenameAll(ms, r, ts))
    ensures forall op :: op in RenameAll(ms, r, ts) ==>
      op.kind == RENAME && op.target in ts && Has(r, op.target, op.path) && op.newPath == Some(r[op.target][op.path])
  {
    hide RenameRow;
    if ts != [] {
      var front, t := ts[..|ts| - 1], ts[|ts| - 1];
      RenameMembers(ms, r, front);
      RenameRowMembers(ms, t, r[t], Sorted(r[t].Keys));
      assert forall d :: d in ts <==> d in front || d == t;
      KeysTogether(RenameAll(ms, r, front), RenameRow(ms, t, r[t], Sorted(r[t].Keys)));
    }
  }

  lemma {:induction false} NothingToRename(ms: Manifests, r: RenameMap, ts: seq<DriveId>)
    requires forall t :: t in ts ==> t in r
    requires forall t, p :: !Has(r, t, p)
    ensures RenameAll(ms, r, ts) == []
  {
    if ts != [] {
      var t := ts[|ts| - 1];
      assert t in r && forall p :: p in r[t] ==> Has(r, t, p);
      assert r[t].Keys == {};
      NothingToRename(ms, r, ts[..|ts| - 1]);
    }
  }

  /** Without detected renames, a round emits exactly the operations planned path by path. */
  lemma RenameFreeMembers(ms: Manifests, res: seq<Resolution>, r: RenameMap)
    requires forall t, p :: !Has(r, t, p)
    ensures forall op :: op in Emission(ms, res, r) <==>
      op.path in AllPaths(ms) && OpFor(ms, res, op.target, op.path) == Some(op)
    ensures DistinctKeys(Emission(ms, res, r))
  {
    hide OpFor;
    hide FileOps;
    NothingToRename(ms, r, Sorted(r.Keys));
    assert HandledBy([]) == {};
    var files := FileOps(ms, res, {}, Sorted(AllPaths(ms)));
    assert Emission(ms, res, r) == files;
    FileMembers(ms, res, {}, Sorted(AllPaths(ms)));
  }

  ghost predicate IsDetected(r: RenameMap, x: SyncOp) {
    Has(r, x.target, x.path) && x.newPath == Some(r[x.target][x.path])
  }

  ghost predicate IsPlanned(ms: Manifests, res: seq<Resolution>, x: SyncOp) {
    OpFor(ms, res, x.target, x.path) == Some(x) && x.kind != MKDIR && x.path in AllPaths(ms)
  }

  /** `y` works on neither name of the rename `x`. */
  ghost predicate Apart(x: SyncOp, y: SyncOp) {
    y.Key() != x.Key() && (x.newPath.Some? ==> y.Key() != (x.target, x.newPath.value))
  }

  /** On its target, a detected rename's old name is live and its new one is not. */
  lemma DetectedFacts(ms: Manifests, r: RenameMap, x: SyncOp)
    requires Sound(ms, r) && IsDetected(r, x)
    ensures x.newPath.Some? && x.target in ms && Live(ms[x.target], x.path) && !Live(ms[x.target], x.newPath.value)
    ensures x.path in AllPaths(ms) && x.newPath.value in AllPaths(ms)
  {
    var s :| IsRename(ms, s, x.target, x.path, r[x.target][x.path]);
  }

  /** Every emitted operation is a detected rename or an operation planned for a drive and path that
      no rename handles. */
  lemma EmissionMembers(ms: Manifests, res: seq<Resolution>, r: RenameMap)
    ensures DistinctKeys(Emission(ms, res, r))
    ensures forall x :: x in Emission(ms, res, r) ==>
      if x.kind == RENAME then IsDetected(r, x) else IsPlanned(ms, res, x)
    ensures forall x, y | x in Emission(ms, res, r) && y in Emission(ms, res, r) ::
      x.kind == RENAME && y.kind != RENAME ==> Apart(x, y)
  {
    hide OpFor;
    hide RenameAll;
    hide FileOps;
    var renames := RenameAll(ms, r, Sorted(r.Keys));
    var handled := HandledBy(renames);
    var files := FileOps(ms, res, handled, Sorted(AllPaths(ms)));
    RenameMembers(ms, r, Sorted(r.Keys));
    FileMembers(ms, res, handled, Sorted(AllPaths(ms)));
    forall op | op in files
      ensures op.kind != MKDIR && op.kind != RENAME
    {
      OpForShape(ms, res, op.target, op.path);
    }
    forall x, y | x in renames && y in files
      ensures Apart(x, y)
    {
      HandledMember(renames, x);
    }
    KeysTogether(renames, files);
  }

  lemma HandledMember(ops: seq<SyncOp>, x: SyncOp)
    requires x in ops && x.kind == RENAME && x.newPath.Some?
    ensures (x.target, x.path) in HandledBy(ops) && (x.target, x.newPath.value) in HandledBy(ops)
  {
    var i :| 0 <= i < |ops| && ops[i] == x;
  }

  // ----- Keys and cycles --------------------------------------------------------------------

  lemma NonDirsKeys(ops: seq<SyncOp>, i: nat, j: nat)
    requires DistinctKeys(NonDirs(ops)) && i < j < |ops| && ops[i].kind != MKDIR && ops[j].kind != MKDIR
    ensures ops[i].Key() != ops[j].Key()
  {
    var a, b := NonDirsPlaces(ops, i, j);
  }

  lemma EmissionFilesOnly(ms: Manifests, res: seq<Resolution>, r: RenameMap)
    ensures FilesOnly(Emission(ms, res, r))
  {
    hide Emission;
    hide IsDetected;
    hide OpFor;
    EmissionMembers(ms, res, r);
    forall i | 0 <= i < |Emission(ms, res, r)|
      ensures Emission(ms, res, r)[i].kind != MKDIR
    {
      assert Emission(ms, res, r)[i] in Emission(ms, res, r);
    }
  }

  /** What is emitted: the operations, with the directories they need before them. */
  lemma EmittedFacts(ms: Manifests, res: seq<Resolution>, r: RenameMap)
    ensures var ops := Emitted(ms, res, r);
      NonDirs(ops) == Emission(ms, res, r) && DirsNeeded(ops) && DirsServed(ops)
  {
    hide Emission;
    hide DirsNeeded;
    hide DirsServed;
    hide NonDirs;
    EmissionFilesOnly(ms, res, r);
    WithDirsFacts(Emission(ms, res, r));
  }

  lemma EmittedOp(ms: Manifests, res: seq<Resolution>, r: RenameMap, i: nat)
    requires i < |Emitted(ms, res, r)| && Emitted(ms, res, r)[i].kind != MKDIR
    ensures var op := Emitted(ms, res, r)[i];
      && op in Emission(ms, res, r)
      && (if op.kind == RENAME then IsDetected(r, op) else IsPlanned(ms, res, op))
      && (op.kind == RENAME ==> op.newPath.Some?)
  {
    hide Emission;
    hide Emitted;
    hide NonDirs;
    EmittedFacts(ms, res, r);
    EmissionMembers(ms, res, r);
    NonDirsMembers(Emitted(ms, res, r));
    assert Emitted(ms, res, r)[i] in NonDirs(Emitted(ms, res, r));
  }

  /** A file operation works on a path that is live somewhere, and makes only such paths live. */
  lemma WorksOnLive(ms: Manifests, res: seq<Resolution>, r: RenameMap, i: nat)
    requires Sound(ms, r) && i < |Emitted(ms, res, r)| && Emitted(ms, res, r)[i].kind != MKDIR
    ensures var op := Emitted(ms, res, r)[i];
      op.path in LivePaths(ms) && (Destination(op).Some? ==> Destination(op).value in LivePaths(ms))
  {
    hide Emission;
    hide Emitted;
    EmittedOp(ms, res, r, i);
    var op := Emitted(ms, res, r)[i];
    if op.kind == RENAME {
      DetectedFacts(ms, r, op);
      var s :| IsRename(ms, s, op.target, op.path, op.newPath.value);
    } else {
      PlannedLive(ms, res, op.target, op.path);
    }
  }

  lemma PlannedLive(ms: Manifests, res: seq<Resolution>, t: DriveId, p: Path)
    requires OpFor(ms, res, t, p).Some?
    ensures p in LivePaths(ms)
  {
    hide Quorum;
    hide Tombstones;
    hide SourceOf;
    hide JoinAt;
    hide Order;
  }

  /** A directory is emitted for a live path below it. */
  lemma DirIsAboveLive(ms: Manifests, res: seq<Resolution>, r: RenameMap, i: nat)
    requires Sound(ms, r) && i < |Emitted(ms, res, r)| && Emitted(ms, res, r)[i].kind == MKDIR
    ensures exists q :: q in LivePaths(ms) && Emitted(ms, res, r)[i].path in AncestorDirs(q)
  {
    hide Emission;
    hide Emitted;
    hide LivePaths;
    EmittedFacts(ms, res, r);
    var ops := Emitted(ms, res, r);
    var j :| Needs(ops, i, j);
    WorksOnLive(ms, res, r, j);
  }

  lemma EmittedFileKeys(ms: Manifests, res: seq<Resolution>, r: RenameMap, i: nat, j: nat)
    requires i < j < |Emitted(ms, res, r)|
    requires Emitted(ms, res, r)[i].kind != MKDIR && Emitted(ms, res, r)[j].kind != MKDIR
    ensures Emitted(ms, res, r)[i].Key() != Emitted(ms, res, r)[j].Key()
  {
    hide Emission;
    hide Emitted;
    hide NonDirs;
    EmittedFacts(ms, res, r);
    EmissionMembers(ms, res, r);
    NonDirsKeys(Emitted(ms, res, r), i, j);
  }

  lemma EmittedDirKeys(ms: Manifests, res: seq<Resolution>, r: RenameMap, i: nat, j: nat)
    requires i < j < |Emitted(ms, res, r)|
    requires Emitted(ms, res, r)[i].kind == MKDIR && Emitted(ms, res, r)[j].kind == MKDIR
    ensures Emitted(ms, res, r)[i].Key() != Emitted(ms, res, r)[j].Key()
  {
    hide Emitted;
    EmittedFacts(ms, res, r);
    var ops := Emitted(ms, res, r);
    assert ops[j] !in ops[..j] && ops[..j][i] == ops[i];
  }

  /** Where no live path is above another, no drive and path gets two operations, directories and
      renames included. */
  lemma EmittedKeys(ms: Manifests, res: seq<Resolution>, r: RenameMap)
    requires LiveTree(ms) && Sound(ms, r)
    ensures DistinctKeys(Emitted(ms, res, r))
  {
    hide Emitted;
    hide Sound;
    hide LivePaths;
    var ops := Emitted(ms, res, r);
    forall i, j | 0 <= i < j < |ops|
      ensures ops[i].Key() != ops[j].Key()
    {
      if ops[i].kind == MKDIR && ops[j].kind == MKDIR {
        EmittedDirKeys(ms, res, r, i, j);
      } else if ops[i].kind != MKDIR && ops[j].kind != MKDIR {
        EmittedFileKeys(ms, res, r, i, j);
      } else {
        var d, f := if ops[i].kind == MKDIR then i else j, if ops[i].kind == MKDIR then j else i;
        DirIsAboveLive(ms, res, r, d);
        WorksOnLive(ms, res, r, f);
      }
    }
  }

  /** No rename of the plan has to wait for, or be waited for by, anything at its new path: the old
      name is live on the target and the new one is not, so renames do not chain on one drive. */
  lemma RenamesLeadNowhere(ms: Manifests, res: seq<Resolution>, r: RenameMap, i: nat, j: nat)
    requires LiveTree(ms) && Sound(ms, r)
    requires i < |Emitted(ms, res, r)| && j < |Emitted(ms, res, r)| && Emitted(ms, res, r)[i].kind == RENAME
    ensures !Edge(Emitted(ms, res, r), i, j)
  {
    hide *;
    var ops := Emitted(ms, res, r);
    RenameEdge(ops, i, j);
    var x, y := ops[i], ops[j];
    EmittedOp(ms, res, r, i);
    DetectedFacts(ms, r, x);
    if y.kind == MKDIR {
      NewNameIsNoDir(ms, res, r, i, j);
    } else {
      EmittedOp(ms, res, r, j);
      if y.kind == RENAME {
        DetectedFacts(ms, r, y);
      } else {
        EmittedPair(ms, res, r, i, j);
      }
    }
  }

  lemma RenameEdge(ops: seq<SyncOp>, i: nat, j: nat)
    requires i < |ops| && j < |ops| && ops[i].kind == RENAME
    ensures Edge(ops, i, j) ==> ops[i].newPath == Some(ops[j].path) && ops[i].target == ops[j].target
  {
  }

  lemma NewNameIsNoDir(ms: Manifests, res: seq<Resolution>, r: RenameMap, i: nat, j: nat)
    requires LiveTree(ms) && Sound(ms, r)
    requires i < |Emitted(ms, res, r)| && j < |Emitted(ms, res, r)|
    requires Emitted(ms, res, r)[i].kind == RENAME && Emitted(ms, res, r)[j].kind == MKDIR
    ensures Emitted(ms, res, r)[i].newPath != Some(Emitted(ms, res, r)[j].path)
  {
    hide Emitted;
    hide Sound;
    hide LivePaths;
    WorksOnLive(ms, res, r, i);
    DirIsAboveLive(ms, res, r, j);
  }

  lemma EmittedPair(ms: Manifests, res: seq<Resolution>, r: RenameMap, i: nat, j: nat)
    requires i < |Emitted(ms, res, r)| && j < |Emitted(ms, res, r)|
    requires Emitted(ms, res, r)[i].kind == RENAME && Emitted(ms, res, r)[i].newPath.Some?
    requires Emitted(ms, res, r)[j].kind != RENAME && Emitted(ms, res, r)[j].kind != MKDIR
    ensures var x, y := Emitted(ms, res, r)[i], Emitted(ms, res, r)[j];
      y.target != x.target || y.path != x.newPath.value
  {
    hide Emission;
    hide Emitted;
    EmissionMembers(ms, res, r);
    EmittedOp(ms, res, r, i);
    EmittedOp(ms, res, r, j);
    assert Apart(Emitted(ms, res, r)[i], Emitted(ms, res, r)[j]);
  }

  /** The planner's own graph: no cycle, renames included, so the guard never fires. */
  lemma PlannerGraphIsAcyclic(ms: Manifests, res: seq<Resolution>, r: RenameMap)
    requires LiveTree(ms) && Sound(ms, r)
    ensures Acyclic(Emitted(ms, res, r))
  {
    hide Acyclic;
    hide Edge;
    hide Emitted;
    hide LiveTree;
    hide Sound;
    var ops := Emitted(ms, res, r);
    forall i, j | 0 <= i < |ops| && 0 <= j < |ops| && ops[i].kind == RENAME
      ensures !Edge(ops, i, j)
    {
      RenamesLeadNowhere(ms, res, r, i, j);
    }
    AcyclicWithoutRenameEdges(ops);
  }

  /** Without renames there is no cycle whatever the tracked paths are. */
  lemma RenameFreeGraphIsAcyclic(ms: Manifests, res: seq<Resolution>, r: RenameMap)
    requires forall t, p :: !Has(r, t, p)
    ensures Acyclic(Emitted(ms, res, r))
  {
    hide Emission;
    hide Emitted;
    hide Acyclic;
    hide Edge;
    var ops := Emitted(ms, res, r);
    forall i | 0 <= i < |ops| && ops[i].kind == RENAME
      ensures false
    {
      EmittedOp(ms, res, r, i);
    }
    AcyclicWithoutRenameEdges(ops);
  }

  // ----- The finished plan ------------------------------------------------------------------

  lemma SortedKeys(sorted: seq<SyncOp>, ops: seq<SyncOp>, order: seq<nat>)
    requires Rearranges(sorted, ops, order) && DistinctKeys(ops)
    ensures DistinctKeys(sorted) && forall op :: op in sorted <==> op in ops
  {
    forall i, j | 0 <= i < j < |sorted|
      ensures sorted[i].Key() != sorted[j].Key()
    {
      assert order[i] != order[j];
    }
    DistinctBelow(order, |ops|);
    forall op | op in ops
      ensures op in sorted
    {
      var i: nat :| i < |ops| && ops[i] == op;
      assert i in order;
      var k :| 0 <= k < |order| && order[k] == i;
      assert sorted[k] == op;
    }
  }

  /** Before every copy to a path that does not end in a slash, a directory is made for each beginning of the path
      before a slash. */
  ghost predicate DirectoriesFirst(plan: seq<SyncOp>) {
    forall b, n :: 0 <= b < |plan| && 0 < n < |plan[b].path| && NeedsDir(plan[b], n) ==>
      MkDir(plan[b].target, plan[b].path[..n]) in plan[..b]
  }

  predicate NeedsDir(op: SyncOp, n: nat)
    requires n < |op.path|
  {
    op.kind == COPY && op.path[n] == '/' && op.path[|op.path| - 1] != '/'
  }

  /** Where no drive and path gets two operations and there is no cycle, coalescing drops nothing and
      every copy comes after a directory for each of its ancestors. */
  lemma FinishedPlan(ms: Manifests, res: seq<Resolution>, r: RenameMap, sorted: seq<SyncOp>)
    requires KahnOrdered(Emitted(ms, res, r), sorted)
    requires DistinctKeys(Emitted(ms, res, r)) && Acyclic(Emitted(ms, res, r))
    ensures KeepLast(sorted) == sorted && DistinctKeys(sorted) && DirectoriesFirst(sorted)
    ensures forall op :: op in sorted <==> op in Emitted(ms, res, r)
  {
    hide Emitted;
    hide Acyclic;
    hide Rearranges;
    hide KahnOrdered;
    hide DistinctKeys;
    hide EdgesLeadForward;
    hide FirstInFirstOut;
    hide DirectoriesFirst;
    hide DirsServed;
    hide DirsNeeded;
    EmittedFacts(ms, res, r);
    var ops := Emitted(ms, res, r);
    var order := AcyclicOrder(ops, sorted);
    SortedKeys(sorted, ops, order);
    KeepLastIdentity(sorted);
    AllDirectoriesFirst(ops, sorted, order);
  }

  lemma AllDirectoriesFirst(ops: seq<SyncOp>, sorted: seq<SyncOp>, order: seq<nat>)
    requires DirsServed(ops) && Rearranges(sorted, ops, order) && EdgesLeadForward(ops, order)
    ensures DirectoriesFirst(sorted)
  {
    hide DirsServed;
    hide Rearranges;
    hide EdgesLeadForward;
    hide AncestorDirs;
    forall b, n | 0 <= b < |sorted| && 0 < n < |sorted[b].path| && NeedsDir(sorted[b], n)
      ensures MkDir(sorted[b].target, sorted[b].path[..n]) in sorted[..b]
    {
      AncestorsExactly(sorted[b].path, sorted[b].path[..n]);
      DirectoryFirst(ops, sorted, order, b, sorted[b].path[..n]);
    }
  }

  lemma DirectoryFirst(ops: seq<SyncOp>, sorted: seq<SyncOp>, order: seq<nat>, b: nat, d: Path)
    requires DirsServed(ops) && Rearranges(sorted, ops, order) && EdgesLeadForward(ops, order)
    requires b < |sorted| && sorted[b].kind == COPY && !EndsInSlash(sorted[b].path) && d in AncestorDirs(sorted[b].path)
    ensures MkDir(sorted[b].target, d) in sorted[..b]
  {
    var j := order[b];
    assert d in DestinationDirs(ops[j]);
    assert MkDir(ops[j].target, d) in ops[..j];
    var i: nat :| i < |ops| && ops[i] == MkDir(ops[j].target, d);
    AncestorsAreAbove(ops[j].path, d);
    assert Edge(ops, i, order[b]);
    var a :| 0 <= a < b && order[..b][a] == i;
    assert sorted[..b][a] == ops[order[a]];
  }
}
