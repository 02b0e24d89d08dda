/** What stands in an operation's way on a file tree, and what it leaves there. */
module TreeSteps {
  import opened Base
  import opened SyncOps
  import opened Executor
  import opened FileTree

  /** A file stands at a beginning of the path before a slash. */
  ghost predicate FileOnTheWay(t: Tree, d: DriveId, p: Path)
    requires d in t.fleet
  {
    exists n :: 0 < n < |p| && p[n] == '/' && p[..n] in t.fleet[d].disk
  }

  lemma WayIsReach(t: Tree, d: DriveId, p: Path)
    requires d in t.fleet
    ensures CanReach(t, d, p) <==> !FileOnTheWay(t, d, p)
  {
    if a :| a in AncestorDirs(p) && a in t.fleet[d].disk {
      AncestorsExactly(p, a);
      assert p[..|a|] in t.fleet[d].disk;
    }
    if n :| 0 < n < |p| && p[n] == '/' && p[..n] in t.fleet[d].disk {
      AncestorsExactly(p, p[..n]);
    }
  }

  /** No file can be put where a directory has the name, or below a file. */
  lemma BlockedMeans(t: Tree, d: DriveId, p: Path)
    requires WellRooted(t) && d in t.fleet
    ensures Blocked(t, d, p) <==> p in t.dirs[d] || FileOnTheWay(t, d, p)
  {
    WayIsReach(t, d, p);
  }

  /** Where an operation puts something: a directory, a copied file, a renamed one. */
  function Place(op: SyncOp): Option<Path> {
    match op.kind
    case REMOVE => None
    case RENAME => op.newPath
    case _ => Some(op.path)
  }

  /** A file above the place makes the directories fail, and so does a file of the name of a directory that is to be
      made; a directory of a file's name makes the renaming fail. Nothing else is in the way. */
  lemma FaultMeans(t: Tree, op: SyncOp)
    requires WellRooted(t) && op.target in t.fleet
    ensures TreeFault(t, op) in {NoFault, DirFails, RenameFails}
    ensures TreeFault(t, op) == DirFails <==>
      Place(op).Some? && (FileOnTheWay(t, op.target, Place(op).value)
                          || (op.kind == MKDIR && op.path in t.fleet[op.target].disk))
    ensures TreeFault(t, op) == RenameFails <==>
      && Place(op).Some? && op.kind != MKDIR && !FileOnTheWay(t, op.target, Place(op).value)
      && Place(op).value in t.dirs[op.target]
  {
    hide CanReach;
    hide FileOnTheWay;
    if Place(op).Some? {
      WayIsReach(t, op.target, Place(op).value);
    }
  }

  /** Nothing on the drive lies below the directory. */
  ghost predicate NothingBelow(t: Tree, d: DriveId, p: Path)
    requires d in t.fleet && d in t.dirs
  {
    forall q :: q in t.fleet[d].disk || q in t.dirs[d] ==> p == "" || !(|p| < |q| && q[..|p|] == p && q[|p|] == '/')
  }

  lemma EmptyIs(t: Tree, d: DriveId, p: Path)
    requires d in t.fleet && d in t.dirs
    ensures IsEmpty(t, d, p) <==> NothingBelow(t, d, p)
  {
    forall q
      ensures p in AncestorDirs(q) <==> p != "" && |p| < |q| && q[..|p|] == p && q[|p|] == '/'
    {
      AncestorsExactly(q, p);
    }
  }

  /** The directories on the target change in two ways only. Putting something at a place makes those above it, where
      no file is in the way and, for a copy, the source's bytes are what its manifest names; a directory made is
      there too. A removal takes away a directory of the name if nothing lies below it. */
  lemma DirectoriesAfter(h: Bytes -> Digest, t: Tree, op: SyncOp, m: Path)
    requires WellRooted(t) && op.target in t.fleet
    ensures forall d :: d != op.target ==> Lookup(TreeStep(h, t, op).dirs, d) == Lookup(t.dirs, d)
    ensures m in TreeStep(h, t, op).dirs[op.target] <==>
      if op.kind == REMOVE then m in t.dirs[op.target] && !(m == op.path && NothingBelow(t, op.target, m))
      else
        || m in t.dirs[op.target]
        || (&& Place(op).Some? && !FileOnTheWay(t, op.target, Place(op).value)
            && (op.kind == COPY || op.kind == REPLACE ==>
                  && op.source in t.fleet && op.path in t.fleet[op.source].manifest && op.path in t.fleet[op.source].disk
                  && h(t.fleet[op.source].disk[op.path]) == t.fleet[op.source].manifest[op.path].hash)
            && (op.kind == MKDIR ==> op.path !in t.fleet[op.target].disk)
            && (|| (op.kind == MKDIR && m == op.path)
                || exists n :: 0 < n < |Place(op).value| && Place(op).value[n] == '/' && Place(op).value[..n] == m))
  {
    hide CanReach;
    hide IsEmpty;
    hide FileOnTheWay;
    hide NothingBelow;
    hide Suffered;
    EmptyIs(t, op.target, op.path);
    FaultMeans(t, op);
    if Place(op).Some? {
      var p := Place(op).value;
      WayIsReach(t, op.target, p);
      AncestorsExactly(p, m);
      if m in AncestorDirs(p) {
        assert p[..|m|] == m;
      }
    }
  }

  /** A run is one step after another, from the first operation to the last. */
  lemma {:induction false} StepByStep(h: Bytes -> Digest, t: Tree, ops: seq<SyncOp>)
    requires WellRooted(t) && ops != []
    ensures TreeRun(h, t, ops) == TreeRun(h, TreeStep(h, t, ops[0]), ops[1..])
    decreases |ops|
  {
    hide TreeStep;
    if |ops| > 1 {
      var front := ops[..|ops| - 1];
      StepByStep(h, t, front);
      assert ops[1..][..|ops| - 2] == front[1..];
    }
  }
}
