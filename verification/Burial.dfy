/** Coalescing keeps the last operation for a drive and path, and a directory counts as one: exactly
    which operations it drops from a plan without renames. */
module Burial {
  import opened Base
  import opened SyncOps
  import opened Drives
  import opened ConflictResolver
  import opened RenameDetection
  import opened PlanRules
  import opened PlanOrder
  import opened SyncPlanner
  import opened Directories
  import opened PlanProperties

  /** The operation for `d` on drive `t` has the key of a directory that a copy of `p` needs there. */
  ghost predicate Buries(ms: Manifests, res: seq<Resolution>, t: DriveId, d: Path, p: Path) {
    && d in AncestorDirs(p) && OpFor(ms, res, t, d).Some?
    && OpFor(ms, res, t, p).Some? && OpFor(ms, res, t, p).value.kind == COPY
  }

  ghost predicate Buried(ms: Manifests, res: seq<Resolution>, t: DriveId, d: Path) {
    exists p :: Buries(ms, res, t, d, p)
  }

  /** No operation's path is a directory above a path that is to be copied to the same drive. */
  ghost predicate NothingBuried(ms: Manifests, res: seq<Resolution>) {
    forall t, d :: !Buried(ms, res, t, d)
  }

  ghost predicate NoneRenamed(r: RenameMap) {
    forall t, p :: !Has(r, t, p)
  }

  // ----- Where nothing is buried ------------------------------------------------------------

  lemma PlainOp(ms: Manifests, res: seq<Resolution>, r: RenameMap, i: nat)
    requires NoneRenamed(r) && i < |Emitted(ms, res, r)| && Emitted(ms, res, r)[i].kind != MKDIR
    ensures var op := Emitted(ms, res, r)[i];
      op.kind != RENAME && OpFor(ms, res, op.target, op.path) == Some(op) && op.path in AllPaths(ms)
  {
    hide Emission;
    hide Emitted;
    hide OpFor;
    EmittedOp(ms, res, r, i);
  }

  lemma NeededBy(ops: seq<SyncOp>, i: nat) returns (j: nat)
    requires DirsNeeded(ops) && i < |ops| && ops[i].kind == MKDIR
    ensures Needs(ops, i, j)
  {
    hide Needs;
    j :| Needs(ops, i, j);
  }

  /** Without renames, a directory is emitted for the copy that comes next. */
  lemma CopyBelow(ms: Manifests, res: seq<Resolution>, r: RenameMap, i: nat) returns (j: nat)
    requires NoneRenamed(r) && i < |Emitted(ms, res, r)| && Emitted(ms, res, r)[i].kind == MKDIR
    ensures var ops := Emitted(ms, res, r);
      && Needs(ops, i, j) && ops[i].path in AncestorDirs(ops[j].path) && ops[j].kind == COPY
      && OpFor(ms, res, ops[i].target, ops[j].path) == Some(ops[j])
  {
    hide Emitted;
    hide OpFor;
    hide DirsServed;
    hide DirsNeeded;
    hide NonDirs;
    hide AncestorDirs;
    hide NoneRenamed;
    EmittedFacts(ms, res, r);
    j := NeededBy(Emitted(ms, res, r), i);
    PlainOp(ms, res, r, j);
  }

  lemma DirHasCopy(ms: Manifests, res: seq<Resolution>, r: RenameMap, i: nat)
    requires NoneRenamed(r) && i < |Emitted(ms, res, r)| && Emitted(ms, res, r)[i].kind == MKDIR
    ensures var m := Emitted(ms, res, r)[i];
      OpFor(ms, res, m.target, m.path).Some? ==> Buried(ms, res, m.target, m.path)
  {
    hide Emitted;
    hide OpFor;
    hide AncestorDirs;
    hide NoneRenamed;
    var ops := Emitted(ms, res, r);
    var j := CopyBelow(ms, res, r, i);
    if OpFor(ms, res, ops[i].target, ops[i].path).Some? {
      assert Buries(ms, res, ops[i].target, ops[i].path, ops[j].path);
    }
  }

  lemma UnburiedKeys(ms: Manifests, res: seq<Resolution>, r: RenameMap)
    requires NoneRenamed(r) && NothingBuried(ms, res)
    ensures DistinctKeys(Emitted(ms, res, r))
  {
    hide Emitted;
    hide OpFor;
    hide Buried;
    hide NoneRenamed;
    var ops := Emitted(ms, res, r);
    forall i, j | 0 <= i < j < |ops|
      ensures ops[i].Key() != ops[j].Key()
    {
      if ops[i].kind == MKDIR && ops[j].kind == MKDIR {
        EmittedDirKeys(ms, res, r, i, j);
      } else if ops[i].kind != MKDIR && ops[j].kind != MKDIR {
        EmittedFileKeys(ms, res, r, i, j);
      } else {
        var d, f := if ops[i].kind == MKDIR then i else j, if ops[i].kind == MKDIR then j else i;
        DirHasCopy(ms, res, r, d);
        PlainOp(ms, res, r, f);
      }
    }
  }

  // ----- Where something is -----------------------------------------------------------------

  /** The rows of a round come in path order. */
  ghost predicate PathsAscend(files: seq<SyncOp>) {
    forall a, b :: 0 <= a < b < |files| ==> files[a].path == files[b].path || Less(files[a].path, files[b].path)
  }

  lemma {:induction false} FileOpsAscend(ms: Manifests, res: seq<Resolution>, handled: Handled, paths: seq<Path>)
    requires StrictlySorted(paths)
    ensures PathsAscend(FileOps(ms, res, handled, paths))
    ensures forall op :: op in FileOps(ms, res, handled, paths) ==> op.path in paths
  {
    hide OpFor;
    hide RowOps;
    if paths != [] {
      var front, p := paths[..|paths| - 1], paths[|paths| - 1];
      FileOpsAscend(ms, res, handled, front);
      RowPath(ms, res, handled, p);
      assert forall q :: q in paths <==> q in front || q == p;
      Joined(FileOps(ms, res, handled, front), RowOps(ms, res, handled, Ids(ms), p), front, p);
    }
  }

  lemma Joined(a: seq<SyncOp>, b: seq<SyncOp>, front: seq<Path>, p: Path)
    requires PathsAscend(a) && (forall op :: op in a ==> op.path in front) && (forall op :: op in b ==> op.path == p)
    requires StrictlySorted(front + [p])
    ensures PathsAscend(a + b)
  {
    forall q | q in front
      ensures Less(q, p)
    {
      var k :| 0 <= k < |front| && front[k] == q;
      assert (front + [p])[k] == q && (front + [p])[|front|] == p;
    }
    forall i, j | 0 <= i < j < |a + b|
      ensures (a + b)[i].path == (a + b)[j].path || Less((a + b)[i].path, (a + b)[j].path)
    {
      assert (a + b)[i] in a || (a + b)[i] in b;
      assert j >= |a| ==> (a + b)[j] in b;
    }
  }

  lemma {:induction false} PrefixIsLess(d: Path, p: Path)
    requires |d| < |p| && p[..|d|] == d
    ensures Less(d, p)
  {
    if d != "" {
      assert p[0] == p[..|d|][0] == d[0];
      assert p[1..][..|d[1..]|] == p[..|d|][1..] == d[1..];
      PrefixIsLess(d[1..], p[1..]);
    }
  }

  /** An operation that shares its key with a directory is emitted before it. */
  lemma OperationFirst(ms: Manifests, res: seq<Resolution>, r: RenameMap, k: nat, i: nat)
    requires NoneRenamed(r) && k < |Emitted(ms, res, r)| && i < |Emitted(ms, res, r)|
    requires Emitted(ms, res, r)[k].kind != MKDIR && Emitted(ms, res, r)[i].kind == MKDIR
    requires Emitted(ms, res, r)[k].Key() == Emitted(ms, res, r)[i].Key()
    ensures k < i
  {
    hide Emitted;
    hide OpFor;
    hide Less;
    hide AncestorDirs;
    hide NoneRenamed;
    var ops := Emitted(ms, res, r);
    var j := CopyBelow(ms, res, r, i);
    AncestorsAreAbove(ops[j].path, ops[i].path);
    PrefixIsLess(ops[i].path, ops[j].path);
    LessTotal(ops[i].path, ops[j].path);
    if j < k {
      LaterPath(ms, res, r, j, k);
    }
  }

  lemma EmissionAscends(ms: Manifests, res: seq<Resolution>, r: RenameMap)
    requires NoneRenamed(r)
    ensures PathsAscend(Emission(ms, res, r))
  {
    hide FileOps;
    hide PathsAscend;
    NothingToRename(ms, r, Sorted(r.Keys));
    FileOpsAscend(ms, res, HandledBy([]), Sorted(AllPaths(ms)));
    assert Emission(ms, res, r) == FileOps(ms, res, HandledBy([]), Sorted(AllPaths(ms)));
  }

  lemma LaterPath(ms: Manifests, res: seq<Resolution>, r: RenameMap, j: nat, k: nat)
    requires NoneRenamed(r) && j < k < |Emitted(ms, res, r)|
    requires Emitted(ms, res, r)[j].kind != MKDIR && Emitted(ms, res, r)[k].kind != MKDIR
    ensures var p, q := Emitted(ms, res, r)[j].path, Emitted(ms, res, r)[k].path; p == q || Less(p, q)
  {
    hide Emitted;
    hide Emission;
    hide Less;
    hide NonDirs;
    hide DirsNeeded;
    hide DirsServed;
    EmittedFacts(ms, res, r);
    var a, b := NonDirsPlaces(Emitted(ms, res, r), j, k);
    EmissionAscends(ms, res, r);
  }

  /** An operation and a directory with one key wait for the same directories. */
  lemma SamePreds(ms: Manifests, res: seq<Resolution>, r: RenameMap, k: nat, i: nat)
    requires NoneRenamed(r) && k < |Emitted(ms, res, r)| && i < |Emitted(ms, res, r)|
    requires Emitted(ms, res, r)[k].kind != MKDIR && Emitted(ms, res, r)[i].kind == MKDIR
    requires Emitted(ms, res, r)[k].Key() == Emitted(ms, res, r)[i].Key()
    ensures Preds(Emitted(ms, res, r), k) == Preds(Emitted(ms, res, r), i)
  {
    hide Emitted;
    hide OpFor;
    var ops := Emitted(ms, res, r);
    forall x: nat | x < |ops|
      ensures Edge(ops, x, k) <==> Edge(ops, x, i)
    {
      if ops[x].kind != MKDIR {
        PlainOp(ms, res, r, x);
        if x < k {
          EmittedFileKeys(ms, res, r, x, k);
        } else if k < x {
          EmittedFileKeys(ms, res, r, k, x);
        }
      }
    }
  }

  /** A buried operation is emitted, and so is the directory that buries it, later. */
  lemma BuriedPlaces(ms: Manifests, res: seq<Resolution>, r: RenameMap, t: DriveId, d: Path) returns (k: nat, i: nat)
    requires NoneRenamed(r) && Buried(ms, res, t, d)
    ensures k < i < |Emitted(ms, res, r)|
    ensures Some(Emitted(ms, res, r)[k]) == OpFor(ms, res, t, d) && Emitted(ms, res, r)[k].kind != MKDIR
    ensures Emitted(ms, res, r)[k].Key() == (t, d) && Emitted(ms, res, r)[i] == MkDir(t, d)
  {
    hide Emitted;
    hide OpFor;
    hide NoneRenamed;
    hide AncestorDirs;
    hide DirsNeeded;
    hide DirsServed;
    hide NonDirs;
    var ops := Emitted(ms, res, r);
    var p :| Buries(ms, res, t, d, p);
    k := PlannedPlace(ms, res, r, t, d);
    var c := PlannedPlace(ms, res, r, t, p);
    EmittedFacts(ms, res, r);
    i := ServedAt(ops, c, t, d);
    OperationFirst(ms, res, r, k, i);
  }

  lemma ServedAt(ops: seq<SyncOp>, c: nat, t: DriveId, d: Path) returns (i: nat)
    requires DirsServed(ops) && c < |ops| && ops[c].kind == COPY && ops[c].target == t && d in AncestorDirs(ops[c].path)
    ensures i < c && ops[i] == MkDir(t, d)
  {
    hide AncestorDirs;
    assert d in DestinationDirs(ops[c]);
    i :| 0 <= i < c && ops[..c][i] == MkDir(t, d);
  }

  lemma PlannedPlace(ms: Manifests, res: seq<Resolution>, r: RenameMap, t: DriveId, p: Path) returns (k: nat)
    requires NoneRenamed(r) && OpFor(ms, res, t, p).Some?
    ensures k < |Emitted(ms, res, r)| && Some(Emitted(ms, res, r)[k]) == OpFor(ms, res, t, p)
    ensures Emitted(ms, res, r)[k].kind != MKDIR && Emitted(ms, res, r)[k].Key() == (t, p)
  {
    hide Emitted;
    hide Emission;
    hide NonDirs;
    EmittedFacts(ms, res, r);
    RenameFreeMembers(ms, res, r);
    NonDirsMembers(Emitted(ms, res, r));
    PlannedPath(ms, res, t, p);
    hide OpFor;
    var op := OpFor(ms, res, t, p).value;
    assert op in NonDirs(Emitted(ms, res, r));
    k :| 0 <= k < |Emitted(ms, res, r)| && Emitted(ms, res, r)[k] == op;
  }

  lemma PlannedPath(ms: Manifests, res: seq<Resolution>, t: DriveId, p: Path)
    requires OpFor(ms, res, t, p).Some?
    ensures var op := OpFor(ms, res, t, p).value;
      op.target == t && op.path == p && op.kind != MKDIR && p in AllPaths(ms)
  {
    hide OpFor;
    OpForShape(ms, res, t, p);
    PlannedLive(ms, res, t, p);
    assert LivePaths(ms) <= AllPaths(ms);
  }

  /** Kahn's order keeps a buried operation before its directory, so coalescing drops it. */
  lemma BuriedIsDropped(
    ms: Manifests, res: seq<Resolution>, r: RenameMap, sorted: seq<SyncOp>, t: DriveId, d: Path)
    requires NoneRenamed(r) && KahnOrdered(Emitted(ms, res, r), sorted) && Buried(ms, res, t, d)
    ensures forall op :: op in KeepLast(sorted) && op.kind != MKDIR ==> op.Key() != (t, d)
  {
    hide Emitted;
    hide OpFor;
    hide Buried;
    hide Acyclic;
    hide KahnOrdered;
    hide EdgesLeadForward;
    hide FirstInFirstOut;
    var ops := Emitted(ms, res, r);
    var k, i := BuriedPlaces(ms, res, r, t, d);
    RenameFreeGraphIsAcyclic(ms, res, r);
    var order := AcyclicOrder(ops, sorted);
    SamePreds(ms, res, r, k, i);
    var a, b := OrderPlaces(ops, order, k, i);
    EqualPredsKeepOrder(ops, order, a, b);
    assert sorted[a + 1..][b - a - 1] == sorted[b];
    assert HasKey(sorted[a + 1..], (t, d));
    forall op | op in KeepLast(sorted) && op.kind != MKDIR
      ensures op.Key() != (t, d)
    {
      KeepLastIsLast(sorted, op);
      var c: nat :| c < |sorted| && sorted[c] == op && !HasKey(sorted[c + 1..], op.Key());
      if op.Key() == (t, d) {
        OnlyFile(ms, res, r, order[c], k);
        OnePlace(order, c, a);
      }
    }
  }

  lemma OnePlace(order: seq<nat>, a: nat, b: nat)
    requires Distinct(order) && a < |order| && b < |order| && order[a] == order[b]
    ensures a == b
  {
  }

  lemma OrderPlaces(ops: seq<SyncOp>, order: seq<nat>, k: nat, i: nat) returns (a: nat, b: nat)
    requires IsPermutation(order, |ops|) && k < |ops| && i < |ops|
    ensures a < |order| && b < |order| && order[a] == k && order[b] == i && Distinct(order)
  {
    DistinctBelow(order, |ops|);
    assert k in order && i in order;
    a :| 0 <= a < |order| && order[a] == k;
    b :| 0 <= b < |order| && order[b] == i;
  }

  lemma OnlyFile(ms: Manifests, res: seq<Resolution>, r: RenameMap, x: nat, k: nat)
    requires x < |Emitted(ms, res, r)| && k < |Emitted(ms, res, r)|
    requires Emitted(ms, res, r)[x].kind != MKDIR && Emitted(ms, res, r)[k].kind != MKDIR
    requires Emitted(ms, res, r)[x].Key() == Emitted(ms, res, r)[k].Key()
    ensures x == k
  {
    hide Emitted;
    if x < k {
      EmittedFileKeys(ms, res, r, x, k);
    } else if k < x {
      EmittedFileKeys(ms, res, r, k, x);
    }
  }
}
