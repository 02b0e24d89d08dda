/** The directories of a plan: which ones are emitted, how often, and where. */
module Directories {
  import opened SyncOps
  import opened Drives
  import opened SyncPlanner

  ghost predicate FilesOnly(files: seq<SyncOp>) {
    forall i :: 0 <= i < |files| ==> files[i].kind != MKDIR
  }

  /** `ops[j]` needs the directory `ops[i]`, and nothing but directories stands between them. */
  ghost predicate Needs(ops: seq<SyncOp>, i: nat, j: nat) {
    && i < j < |ops| && ops[j].kind != MKDIR && ops[j].target == ops[i].target
    && ops[i].path in DestinationDirs(ops[j])
    && forall k :: i <= k < j ==> ops[k].kind == MKDIR
  }

  /** Each directory is made once, for the operation that follows it, which needs it. */
  ghost predicate DirsNeeded(ops: seq<SyncOp>) {
    forall i :: 0 <= i < |ops| && ops[i].kind == MKDIR ==>
      && ops[i] == MkDir(ops[i].target, ops[i].path) && ops[i] !in ops[..i]
      && exists j :: Needs(ops, i, j)
  }

  /** Every operation comes after all the directories it needs. */
  ghost predicate DirsServed(ops: seq<SyncOp>) {
    forall j, d :: 0 <= j < |ops| && d in DestinationDirs(ops[j]) ==> MkDir(ops[j].target, d) in ops[..j]
  }

  ghost predicate NewDir(longer: seq<SyncOp>, i: nat, t: DriveId, dirs: seq<Path>)
    requires i < |longer|
  {
    longer[i] == MkDir(t, longer[i].path) && longer[i].path in dirs && longer[i] !in longer[..i]
  }

  ghost predicate AllThere(longer: seq<SyncOp>, t: DriveId, dirs: seq<Path>) {
    forall d :: d in dirs ==> MkDir(t, d) in longer
  }

  /** What `AddDirs` appends. */
  ghost predicate Extends(ops: seq<SyncOp>, t: DriveId, dirs: seq<Path>, longer: seq<SyncOp>) {
    && |ops| <= |longer| && longer[..|ops|] == ops
    && (forall i :: |ops| <= i < |longer| ==> NewDir(longer, i, t, dirs))
    && AllThere(longer, t, dirs)
  }

  lemma {:induction false} AddDirsExtends(ops: seq<SyncOp>, t: DriveId, dirs: seq<Path>)
    ensures Extends(ops, t, dirs, AddDirs(ops, t, dirs))
    ensures NonDirs(AddDirs(ops, t, dirs)) == NonDirs(ops)
  {
    hide NonDirs;
    hide Extends;
    if dirs == [] {
      ExtendsNone(ops, t);
    } else {
      var front, d := dirs[..|dirs| - 1], dirs[|dirs| - 1];
      AddDirsExtends(ops, t, front);
      var before := AddDirs(ops, t, front);
      NonDirsAppend(before, MkDir(t, d));
      assert dirs == front + [d];
      if MkDir(t, d) in before {
        ExtendsHere(ops, t, front, before, d);
      } else {
        ExtendsOne(ops, t, front, before, d);
      }
    }
  }

  lemma ExtendsNone(ops: seq<SyncOp>, t: DriveId)
    ensures Extends(ops, t, [], ops)
  {
  }

  lemma ExtendsHere(ops: seq<SyncOp>, t: DriveId, dirs: seq<Path>, longer: seq<SyncOp>, d: Path)
    requires Extends(ops, t, dirs, longer) && MkDir(t, d) in longer
    ensures Extends(ops, t, dirs + [d], longer)
  {
    forall i | |ops| <= i < |longer|
      ensures NewDir(longer, i, t, dirs + [d])
    {
      assert NewDir(longer, i, t, dirs);
    }
  }

  lemma ExtendsOne(ops: seq<SyncOp>, t: DriveId, dirs: seq<Path>, longer: seq<SyncOp>, d: Path)
    requires Extends(ops, t, dirs, longer) && MkDir(t, d) !in longer
    ensures Extends(ops, t, dirs + [d], longer + [MkDir(t, d)])
  {
    hide NewDir;
    hide AllThere;
    var all := longer + [MkDir(t, d)];
    forall i | |ops| <= i < |all|
      ensures NewDir(all, i, t, dirs + [d])
    {
      if i < |longer| {
        NewDirStays(longer, i, t, dirs, d);
      } else {
        NewDirLast(longer, t, dirs, d);
      }
    }
    ThereToo(longer, t, dirs, d);
  }

  lemma NewDirStays(longer: seq<SyncOp>, i: nat, t: DriveId, dirs: seq<Path>, d: Path)
    requires i < |longer| && NewDir(longer, i, t, dirs)
    ensures NewDir(longer + [MkDir(t, d)], i, t, dirs + [d])
  {
    assert (longer + [MkDir(t, d)])[..i] == longer[..i];
  }

  lemma NewDirLast(longer: seq<SyncOp>, t: DriveId, dirs: seq<Path>, d: Path)
    requires MkDir(t, d) !in longer
    ensures NewDir(longer + [MkDir(t, d)], |longer|, t, dirs + [d])
  {
    assert (longer + [MkDir(t, d)])[..|longer|] == longer;
  }

  lemma ThereToo(longer: seq<SyncOp>, t: DriveId, dirs: seq<Path>, d: Path)
    requires AllThere(longer, t, dirs)
    ensures AllThere(longer + [MkDir(t, d)], t, dirs + [d])
  {
    assert (longer + [MkDir(t, d)])[|longer|] == MkDir(t, d);
  }

  lemma {:induction false} WithDirsFacts(files: seq<SyncOp>)
    requires FilesOnly(files)
    ensures var ops := WithDirs(files); NonDirs(ops) == files && DirsNeeded(ops) && DirsServed(ops)
  {
    hide NonDirs;
    hide DirsNeeded;
    hide DirsServed;
    hide AddDirs;
    if files == [] {
      NothingNeeded();
    } else {
      var front, op := files[..|files| - 1], files[|files| - 1];
      WithDirsFacts(front);
      var ops := WithDirs(front);
      var longer := AddDirs(ops, op.target, DestinationDirs(op));
      AddDirsExtends(ops, op.target, DestinationDirs(op));
      NonDirsAppend(longer, op);
      NeededOne(ops, longer, op);
      ServedOne(ops, longer, op);
      assert files == front + [op];
    }
  }

  lemma NothingNeeded()
    ensures NonDirs([]) == [] && DirsNeeded([]) && DirsServed([])
  {
  }

  lemma NeededOne(ops: seq<SyncOp>, longer: seq<SyncOp>, op: SyncOp)
    requires DirsNeeded(ops) && Extends(ops, op.target, DestinationDirs(op), longer) && op.kind != MKDIR
    ensures DirsNeeded(longer + [op])
  {
    hide DestinationDirs;
    var all := longer + [op];
    forall i | 0 <= i < |all| && all[i].kind == MKDIR
      ensures all[i] == MkDir(all[i].target, all[i].path) && all[i] !in all[..i]
      ensures exists j :: Needs(all, i, j)
    {
      assert all[..i] == longer[..i] && all[i] == longer[i];
      if i < |ops| {
        assert longer[..i] == longer[..|ops|][..i] == ops[..i] && longer[i] == longer[..|ops|][i] == ops[i];
        var j :| Needs(ops, i, j);
        assert forall k :: 0 <= k < |ops| ==> all[k] == longer[..|ops|][k] == ops[k];
        assert Needs(all, i, j);
      } else {
        assert NewDir(longer, i, op.target, DestinationDirs(op));
        forall k | i <= k < |longer|
          ensures all[k].kind == MKDIR
        {
          assert NewDir(longer, k, op.target, DestinationDirs(op));
        }
        assert all[|longer|] == op && all[i].target == op.target;
        assert Needs(all, i, |longer|);
      }
    }
  }

  lemma ServedOne(ops: seq<SyncOp>, longer: seq<SyncOp>, op: SyncOp)
    requires DirsServed(ops) && Extends(ops, op.target, DestinationDirs(op), longer)
    ensures DirsServed(longer + [op])
  {
    hide DestinationDirs;
    var all := longer + [op];
    forall j, d | 0 <= j < |all| && d in DestinationDirs(all[j])
      ensures MkDir(all[j].target, d) in all[..j]
    {
      if j < |ops| {
        assert all[..j] == longer[..|ops|][..j] == ops[..j] && all[j] == longer[..|ops|][j] == ops[j];
      } else if j < |longer| {
        assert NewDir(longer, j, op.target, DestinationDirs(op));
        MkDirNeedsNothing(all[j]);
      } else {
        assert all[..j] == longer;
      }
    }
  }

  lemma MkDirNeedsNothing(op: SyncOp)
    ensures op.kind == MKDIR ==> DestinationDirs(op) == []
  {
  }

  lemma {:induction false} NonDirsMembers(ops: seq<SyncOp>)
    ensures forall op :: op in NonDirs(ops) <==> op in ops && op.kind != MKDIR
  {
    if ops != [] {
      var front, last := ops[..|ops| - 1], ops[|ops| - 1];
      NonDirsMembers(front);
      assert forall op :: op in ops <==> op in front || op == last;
    }
  }

  /** Dropping the directories keeps the order of the rest. */
  lemma {:induction false} NonDirsPlaces(ops: seq<SyncOp>, i: nat, j: nat) returns (a: nat, b: nat)
    requires i < j < |ops| && ops[i].kind != MKDIR && ops[j].kind != MKDIR
    ensures a < b < |NonDirs(ops)| && NonDirs(ops)[a] == ops[i] && NonDirs(ops)[b] == ops[j]
  {
    var front, last := ops[..|ops| - 1], ops[|ops| - 1];
    if j < |ops| - 1 {
      a, b := NonDirsPlaces(front, i, j);
    } else {
      NonDirsMembers(front);
      assert front[i] in NonDirs(front);
      a :| 0 <= a < |NonDirs(front)| && NonDirs(front)[a] == ops[i];
      b := |NonDirs(front)|;
    }
  }
}
