/** The plan of one round: renames, then one row of operations per path, then ordering. */
module SyncPlanner {
  import opened Base
  import opened SyncOps
  import opened VersionVectors
  import opened Drives
  import opened ConflictResolver
  import opened RenameDetection
  import opened PlanRules
  import opened PlanOrder

  // ----- What is emitted, directories aside -------------------------------------------------

  type Handled = set<(DriveId, Path)>

  function OneOp(ms: Manifests, res: seq<Resolution>, handled: Handled, t: DriveId, p: Path): seq<SyncOp> {
    if (t, p) in handled then []
    else match OpFor(ms, res, t, p)
      case None => []
      case Some(op) => [op]
  }

  function RowOps(ms: Manifests, res: seq<Resolution>, handled: Handled, ids: seq<DriveId>, p: Path): seq<SyncOp> {
    if ids == [] then []
    else RowOps(ms, res, handled, ids[..|ids| - 1], p) + OneOp(ms, res, handled, ids[|ids| - 1], p)
  }

  function FileOps(ms: Manifests, res: seq<Resolution>, handled: Handled, paths: seq<Path>): seq<SyncOp> {
    if paths == [] then []
    else FileOps(ms, res, handled, paths[..|paths| - 1]) + RowOps(ms, res, handled, Ids(ms), paths[|paths| - 1])
  }

  /** The first other drive that has the new name, and the merge of all vectors under both names. */
  function RenameSource(ms: Manifests, ids: seq<DriveId>, t: DriveId, new_: Path): DriveId {
    if ids == [] then ""
    else if ids[0] != t && ids[0] in ms && Live(ms[ids[0]], new_) then ids[0]
    else RenameSource(ms, ids[1..], t, new_)
  }

  function MergedTwo(ms: Manifests, ids: seq<DriveId>, p: Path, q: Path, start: Clocks): Clocks {
    if ids == [] then start
    else
      var d, before := ids[|ids| - 1], MergedTwo(ms, ids[..|ids| - 1], p, q, start);
      var one := if d in ms && p in ms[d] then Join(before, ms[d][p].vv) else before;
      if d in ms && q in ms[d] then Join(one, ms[d][q].vv) else one
  }

  function RenameOps(ms: Manifests, t: DriveId, old_: Path, new_: Path): seq<SyncOp> {
    var s := RenameSource(ms, Ids(ms), t, new_);
    if s == "" then []
    else
      var start := if s in ms && new_ in ms[s] then ms[s][new_].vv else map[];
      [SyncOp(RENAME, s, t, old_, Some(new_), MergedTwo(ms, Ids(ms), old_, new_, start))]
  }

  function RenameRow(ms: Manifests, t: DriveId, names: map<Path, Path>, olds: seq<Path>): seq<SyncOp>
    requires forall p :: p in olds ==> p in names
  {
    if olds == [] then []
    else
      var last := olds[|olds| - 1];
      RenameRow(ms, t, names, olds[..|olds| - 1]) + RenameOps(ms, t, last, names[last])
  }

  function RenameAll(ms: Manifests, r: RenameMap, ts: seq<DriveId>): seq<SyncOp>
    requires forall t :: t in ts ==> t in r
  {
    if ts == [] then []
    else
      var last := ts[|ts| - 1];
      RenameAll(ms, r, ts[..|ts| - 1]) + RenameRow(ms, last, r[last], Sorted(r[last].Keys))
  }

  // One more element of each of these lists.

  lemma RowOpsStep(ms: Manifests, res: seq<Resolution>, handled: Handled, ids: seq<DriveId>, i: nat, p: Path)
    requires i < |ids|
    ensures RowOps(ms, res, handled, ids[..i + 1], p)
         == RowOps(ms, res, handled, ids[..i], p) + OneOp(ms, res, handled, ids[i], p)
  {
    assert ids[..i + 1][..i] == ids[..i];
  }

  lemma FileOpsStep(ms: Manifests, res: seq<Resolution>, handled: Handled, paths: seq<Path>, i: nat)
    requires i < |paths|
    ensures FileOps(ms, res, handled, paths[..i + 1])
         == FileOps(ms, res, handled, paths[..i]) + RowOps(ms, res, handled, Ids(ms), paths[i])
  {
    assert paths[..i + 1][..i] == paths[..i];
  }

  lemma RenameRowStep(ms: Manifests, t: DriveId, names: map<Path, Path>, olds: seq<Path>, j: nat)
    requires j < |olds| && forall p :: p in olds ==> p in names
    ensures RenameRow(ms, t, names, olds[..j + 1])
         == RenameRow(ms, t, names, olds[..j]) + RenameOps(ms, t, olds[j], names[olds[j]])
  {
    assert olds[..j + 1][..j] == olds[..j];
  }

  lemma RenameAllStep(ms: Manifests, r: RenameMap, ts: seq<DriveId>, i: nat)
    requires i < |ts| && forall t :: t in ts ==> t in r
    ensures RenameAll(ms, r, ts[..i + 1])
         == RenameAll(ms, r, ts[..i]) + RenameRow(ms, ts[i], r[ts[i]], Sorted(r[ts[i]].Keys))
  {
    assert ts[..i + 1][..i] == ts[..i];
  }

  lemma NoRenameRow(ms: Manifests, t: DriveId, names: map<Path, Path>, olds: seq<Path>)
    requires forall p :: p in olds ==> p in names
    ensures RenameRow(ms, t, names, olds[..0]) == []
  {
  }

  /** The drive and path pairs that a list of renames takes care of. */
  function HandledBy(ops: seq<SyncOp>): Handled {
    (set i | 0 <= i < |ops| && ops[i].kind == RENAME :: (ops[i].target, ops[i].path))
    + (set i | 0 <= i < |ops| && ops[i].kind == RENAME && ops[i].newPath.Some? :: (ops[i].target, ops[i].newPath.value))
  }

  /** Everything a round emits but the directories. */
  function Emission(ms: Manifests, res: seq<Resolution>, r: RenameMap): seq<SyncOp> {
    var renames := RenameAll(ms, r, Sorted(r.Keys));
    renames + FileOps(ms, res, HandledBy(renames), Sorted(AllPaths(ms)))
  }

  // ----- Directories ------------------------------------------------------------------------

  function NonDirs(ops: seq<SyncOp>): seq<SyncOp> {
    if ops == [] then []
    else NonDirs(ops[..|ops| - 1]) + (if ops[|ops| - 1].kind == MKDIR then [] else [ops[|ops| - 1]])
  }

  /** The directory that an operation needs on its target, if it is emitted with its directories. */
  function Destination(op: SyncOp): Option<Path> {
    if op.kind == COPY then Some(op.path) else if op.kind == RENAME then op.newPath else None
  }

  function DestinationDirs(op: SyncOp): seq<Path> {
    if Destination(op).Some? then AncestorDirs(Destination(op).value) else []
  }

  /** The directories `dirs` appended for drive `t`, those left out that are there already. */
  function AddDirs(ops: seq<SyncOp>, t: DriveId, dirs: seq<Path>): seq<SyncOp> {
    if dirs == [] then ops
    else
      var before := AddDirs(ops, t, dirs[..|dirs| - 1]);
      var dir := MkDir(t, dirs[|dirs| - 1]);
      if dir in before then before else before + [dir]
  }

  /** A list of operations with their directories: each one directly after those it needs that no
      earlier one needed. */
  function WithDirs(files: seq<SyncOp>): seq<SyncOp> {
    if files == [] then []
    else
      var op := files[|files| - 1];
      AddDirs(WithDirs(files[..|files| - 1]), op.target, DestinationDirs(op)) + [op]
  }

  /** `made` is what the source's set of directories made so far holds. */
  ghost predicate Records(made: set<(DriveId, Path)>, ops: seq<SyncOp>) {
    forall key :: key in made <==> MkDir(key.0, key.1) in ops
  }

  ghost predicate Dressed(ops: seq<SyncOp>, made: set<(DriveId, Path)>) {
    ops == WithDirs(NonDirs(ops)) && Records(made, ops)
  }

  lemma NonDirsAppend(ops: seq<SyncOp>, op: SyncOp)
    ensures NonDirs(ops + [op]) == if op.kind == MKDIR then NonDirs(ops) else NonDirs(ops) + [op]
  {
    assert (ops + [op])[..|ops|] == ops;
  }

  method EmitMkdirs(p: Path, t: DriveId, ops: seq<SyncOp>, made: set<(DriveId, Path)>)
    returns (ops': seq<SyncOp>, made': set<(DriveId, Path)>)
    requires Records(made, ops)
    ensures ops' == AddDirs(ops, t, AncestorDirs(p)) && Records(made', ops') && NonDirs(ops') == NonDirs(ops)
  {
    hide Records;
    hide NonDirs;
    hide AncestorDirs;
    hide AddDirs;
    ops', made' := ops, made;
    var dirs := CollectAncestorDirs(p);
    AddNone(ops, t, dirs);
    for i := 0 to |dirs|
      invariant ops' == AddDirs(ops, t, dirs[..i]) && Records(made', ops') && NonDirs(ops') == NonDirs(ops)
    {
      AddOne(ops, t, dirs, i);
      RecordsAt(made', ops', t, dirs[i]);
      if (t, dirs[i]) !in made' {
        NonDirsAppend(ops', MkDir(t, dirs[i]));
        ops', made' := ops' + [MkDir(t, dirs[i])], made' + {(t, dirs[i])};
      }
    }
    assert dirs[..|dirs|] == dirs;
  }

  lemma AddNone(ops: seq<SyncOp>, t: DriveId, dirs: seq<Path>)
    ensures AddDirs(ops, t, dirs[..0]) == ops
  {
  }

  lemma AddOne(ops: seq<SyncOp>, t: DriveId, dirs: seq<Path>, i: nat)
    requires i < |dirs|
    ensures var before := AddDirs(ops, t, dirs[..i]);
      AddDirs(ops, t, dirs[..i + 1])
      == if MkDir(t, dirs[i]) in before then before else before + [MkDir(t, dirs[i])]
  {
    assert dirs[..i + 1][..i] == dirs[..i];
  }

  lemma RecordsAt(made: set<(DriveId, Path)>, ops: seq<SyncOp>, t: DriveId, d: Path)
    requires Records(made, ops)
    ensures (t, d) in made <==> MkDir(t, d) in ops
    ensures Records(made + {(t, d)}, ops + [MkDir(t, d)])
  {
    var ops', made' := ops + [MkDir(t, d)], made + {(t, d)};
    assert ops'[|ops|] == MkDir(t, d);
    forall key: (DriveId, Path)
      ensures key in made' <==> MkDir(key.0, key.1) in ops'
    {
      assert MkDir(key.0, key.1) in ops' <==> MkDir(key.0, key.1) in ops || MkDir(key.0, key.1) == MkDir(t, d);
    }
  }

  lemma DressedRecords(ops: seq<SyncOp>, made: set<(DriveId, Path)>)
    requires Dressed(ops, made)
    ensures Records(made, ops)
  {
  }

  lemma NoDirs(ops: seq<SyncOp>, op: SyncOp)
    ensures Destination(op).None? ==> AddDirs(ops, op.target, DestinationDirs(op)) == ops
  {
  }

  /** Appends an operation whose directories have been added. */
  lemma Placed(
    ops: seq<SyncOp>, made: set<(DriveId, Path)>, longer: seq<SyncOp>, made': set<(DriveId, Path)>, op: SyncOp)
    requires Dressed(ops, made) && op.kind != MKDIR && NonDirs(longer) == NonDirs(ops)
    requires longer == AddDirs(ops, op.target, DestinationDirs(op)) && Records(made', longer)
    ensures Dressed(longer + [op], made') && NonDirs(longer + [op]) == NonDirs(ops) + [op]
  {
    hide NonDirs;
    hide AddDirs;
    NonDirsAppend(longer, op);
    var files := NonDirs(ops) + [op];
    assert files[..|files| - 1] == NonDirs(ops);
    forall key: (DriveId, Path)
      ensures MkDir(key.0, key.1) in longer + [op] <==> MkDir(key.0, key.1) in longer
    {
      assert MkDir(key.0, key.1) != op;
    }
  }

  // ----- Emitting the renames ---------------------------------------------------------------

  method FindRenameSource(ms: Manifests, ids: seq<DriveId>, t: DriveId, new_: Path) returns (s: DriveId)
    ensures s == RenameSource(ms, ids, t, new_)
  {
    var i := 0;
    assert ids[0..] == ids;
    while i < |ids|
      invariant 0 <= i <= |ids| && RenameSource(ms, ids, t, new_) == RenameSource(ms, ids[i..], t, new_)
    {
      assert ids[i..][1..] == ids[i + 1..];
      if ids[i] != t && ids[i] in ms && Live(ms[ids[i]], new_) {
        return ids[i];
      }
      i := i + 1;
    }
    return "";
  }

  method MergeTwo(ms: Manifests, ids: seq<DriveId>, p: Path, q: Path, start: Clocks) returns (merged: Clocks)
    ensures merged == MergedTwo(ms, ids, p, q, start)
  {
    hide Join;
    merged := start;
    for i := 0 to |ids|
      invariant merged == MergedTwo(ms, ids[..i], p, q, start)
    {
      assert ids[..i + 1][..i] == ids[..i];
      var d := ids[i];
      if d in ms && p in ms[d] {
        merged := Join(merged, ms[d][p].vv);
      }
      if d in ms && q in ms[d] {
        merged := Join(merged, ms[d][q].vv);
      }
    }
    assert ids[..|ids|] == ids;
  }

  lemma HandledAppend(ops: seq<SyncOp>, op: SyncOp)
    requires op.kind == RENAME && op.newPath.Some?
    ensures HandledBy(ops + [op]) == HandledBy(ops) + {(op.target, op.path), (op.target, op.newPath.value)}
  {
    var more := ops + [op];
    assert more[|ops|] == op;
    forall k | k in HandledBy(ops)
      ensures k in HandledBy(more)
    {
      var i :| 0 <= i < |ops| && ops[i].kind == RENAME
        && (k == (ops[i].target, ops[i].path) || (ops[i].newPath.Some? && k == (ops[i].target, ops[i].newPath.value)));
      assert more[i] == ops[i];
    }
  }

  lemma SourceHasPath(ms: Manifests, ids: seq<DriveId>, t: DriveId, new_: Path)
    ensures var s := RenameSource(ms, ids, t, new_); s != "" ==> s in ms && Live(ms[s], new_) && s != t
  {
  }

  method EmitRename(
    ms: Manifests, t: DriveId, old_: Path, new_: Path, ops: seq<SyncOp>, made: set<(DriveId, Path)>, handled: Handled)
    returns (ops': seq<SyncOp>, made': set<(DriveId, Path)>, handled': Handled)
    requires Dressed(ops, made) && handled == HandledBy(NonDirs(ops))
    ensures Dressed(ops', made') && handled' == HandledBy(NonDirs(ops'))
    ensures NonDirs(ops') == NonDirs(ops) + RenameOps(ms, t, old_, new_)
  {
    hide Dressed;
    hide HandledBy;
    hide NonDirs;
    ops', made', handled' := ops, made, handled;
    var source := FindRenameSource(ms, Ids(ms), t, new_);
    SourceHasPath(ms, Ids(ms), t, new_);
    if source != "" {
      var vv := MergeTwo(ms, Ids(ms), old_, new_, ms[source][new_].vv);
      DressedRecords(ops, made);
      ops', made' := EmitMkdirs(new_, t, ops, made);
      var op := SyncOp(RENAME, source, t, old_, Some(new_), vv);
      Placed(ops, made, ops', made', op);
      HandledAppend(NonDirs(ops'), op);
      ops' := ops' + [op];
      handled' := handled + {(t, old_)} + {(t, new_)};
    }
  }

  method EmitRenamesOn(
    ms: Manifests, t: DriveId, names: map<Path, Path>, ops: seq<SyncOp>, made: set<(DriveId, Path)>, handled: Handled)
    returns (ops': seq<SyncOp>, made': set<(DriveId, Path)>, handled': Handled)
    requires Dressed(ops, made) && handled == HandledBy(NonDirs(ops))
    ensures Dressed(ops', made') && handled' == HandledBy(NonDirs(ops'))
    ensures NonDirs(ops') == NonDirs(ops) + RenameRow(ms, t, names, Sorted(names.Keys))
  {
    hide Dressed;
    hide HandledBy;
    hide NonDirs;
    hide RenameOps;
    hide RenameRow;
    ops', made', handled' := ops, made, handled;
    var olds := Sorted(names.Keys);
    NoRenameRow(ms, t, names, olds);
    ghost var front := NonDirs(ops);
    Regroup(front, [], []);
    for j := 0 to |olds|
      invariant Dressed(ops', made') && handled' == HandledBy(NonDirs(ops'))
      invariant NonDirs(ops') == front + RenameRow(ms, t, names, olds[..j])
    {
      RenameRowStep(ms, t, names, olds, j);
      Regroup(front, RenameRow(ms, t, names, olds[..j]), RenameOps(ms, t, olds[j], names[olds[j]]));
      assert olds[j] in olds;
      ops', made', handled' := EmitRename(ms, t, olds[j], names[olds[j]], ops', made', handled');
    }
    assert olds[..|olds|] == olds;
  }

  method EmitRenames(ms: Manifests, r: RenameMap)
    returns (ops: seq<SyncOp>, made: set<(DriveId, Path)>, handled: Handled)
    ensures Dressed(ops, made) && handled == HandledBy(NonDirs(ops))
    ensures NonDirs(ops) == RenameAll(ms, r, Sorted(r.Keys))
  {
    hide Dressed;
    hide HandledBy;
    hide NonDirs;
    hide RenameRow;
    ops, made, handled := [], {}, {};
    Nothing();
    var ts := Sorted(r.Keys);
    for i := 0 to |ts|
      invariant Dressed(ops, made) && handled == HandledBy(NonDirs(ops))
      invariant NonDirs(ops) == RenameAll(ms, r, ts[..i])
    {
      RenameAllStep(ms, r, ts, i);
      assert ts[i] in ts;
      ops, made, handled := EmitRenamesOn(ms, ts[i], r[ts[i]], ops, made, handled);
    }
    assert ts[..|ts|] == ts;
  }

  lemma Nothing()
    ensures Dressed([], {}) && NonDirs([]) == [] && HandledBy(NonDirs([])) == {}
  {
  }

  // ----- Emitting the operations of one path ------------------------------------------------

  method CountTombstones(ms: Manifests, ids: seq<DriveId>, p: Path) returns (tombs: Tombs)
    ensures tombs == Tombstones(ms, ids, p)
  {
    var count, source, vv: Clocks := 0, "", map[];
    for i := 0 to |ids|
      invariant Tombs(count, source, vv) == Tombstones(ms, ids[..i], p)
    {
      assert ids[..i + 1][..i] == ids[..i];
      var d := ids[i];
      if d in ms && p in ms[d] && ms[d][p].tombstone {
        count := count + 1;
        if source == "" {
          source, vv := d, ms[d][p].vv;
        } else {
          vv := Join(vv, ms[d][p].vv);
        }
      }
    }
    assert ids[..|ids|] == ids;
    return Tombs(count, source, vv);
  }

  method ChooseSource(ms: Manifests, res: seq<Resolution>, p: Path) returns (source: Option<DriveId>)
    ensures source == SourceOf(ms, res, p)
  {
    hide Applies;
    source := FirstResolved(ms, res, p);
    if source.None? {
      source := LastDominant(ms, Ids(ms), p);
    }
  }

  method FirstResolved(ms: Manifests, res: seq<Resolution>, p: Path) returns (source: Option<DriveId>)
    ensures source == Resolved(ms, res, p)
  {
    hide Applies;
    var k := 0;
    assert res[0..] == res;
    while k < |res|
      invariant 0 <= k <= |res| && Resolved(ms, res, p) == Resolved(ms, res[k..], p)
    {
      assert res[k..][1..] == res[k + 1..];
      var clash := ConcurrentWithAny(ms, res[k].winner, p);
      if clash {
        return Some(res[k].winner);
      }
      k := k + 1;
    }
    return None;
  }

  method LastDominant(ms: Manifests, ids: seq<DriveId>, p: Path) returns (source: Option<DriveId>)
    ensures source == Dominant(ms, ids, p)
  {
    hide Order;
    source := None;
    for i := 0 to |ids|
      invariant source == Dominant(ms, ids[..i], p)
    {
      assert ids[..i + 1][..i] == ids[..i];
      var d := ids[i];
      if d in ms && p in ms[d] {
        if source.None? {
          source := Some(d);
        } else if Order(ms[d][p].vv, ms[source.value][p].vv) == Dominates {
          source := Some(d);
        }
      }
    }
    assert ids[..|ids|] == ids;
  }

  method ConcurrentWithAny(ms: Manifests, w: DriveId, p: Path) returns (found: bool)
    ensures found == Applies(ms, w, p)
  {
    hide Rivals;
    if w == "" || w !in ms || p !in ms[w] {
      return false;
    }
    var ids := Ids(ms);
    for i := 0 to |ids|
      invariant forall k :: 0 <= k < i ==> !Rivals(ms, w, ids[k], p)
    {
      if Rivals(ms, w, ids[i], p) {
        return true;
      }
    }
    forall d | d in ms
      ensures !Rivals(ms, w, d, p)
    {
      assert d in ids;
    }
    return false;
  }

  method MergeAll(ms: Manifests, ids: seq<DriveId>, p: Path, start: Clocks) returns (merged: Clocks)
    ensures merged == Merged(ms, ids, p, start)
  {
    merged := start;
    for i := 0 to |ids|
      invariant merged == Merged(ms, ids[..i], p, start)
    {
      assert ids[..i + 1][..i] == ids[..i];
      if ids[i] in ms && p in ms[ids[i]] {
        merged := Join(merged, ms[ids[i]][p].vv);
      }
    }
    assert ids[..|ids|] == ids;
  }

  /** The body of the loop over the target drives, outside the quorum. */
  method PlanFor(ms: Manifests, s: DriveId, joined: Clocks, t: DriveId, p: Path) returns (op: Option<SyncOp>)
    requires s in ms && p in ms[s] && t in ms && t != s
    ensures forall res :: !Quorum(ms, p) && SourceOf(ms, res, p) == Some(s) && joined == JoinAt(ms, p, s) ==>
      op == OpFor(ms, res, t, p)
  {
    var src := ms[s][p];
    if src.tombstone {
      if p in ms[t] && !ms[t][p].tombstone {
        return Some(SyncOp(REMOVE, s, t, p, None, joined));
      }
      return None;
    }
    if p !in ms[t] || ms[t][p].tombstone {
      return Some(SyncOp(COPY, s, t, p, None, joined));
    }
    var ord := Order(src.vv, ms[t][p].vv);
    if ord == Dominates || src.hash != ms[t][p].hash {
      return Some(SyncOp(REPLACE, s, t, p, None, joined));
    }
    return None;
  }

  method EmitRow(
    ms: Manifests, res: seq<Resolution>, handled: Handled, p: Path, ops: seq<SyncOp>, made: set<(DriveId, Path)>)
    returns (ops': seq<SyncOp>, made': set<(DriveId, Path)>)
    requires Dressed(ops, made) && p in AllPaths(ms)
    ensures Dressed(ops', made')
    ensures NonDirs(ops') == NonDirs(ops) + RowOps(ms, res, handled, Ids(ms), p)
  {
    hide Dressed;
    hide NonDirs;
    hide OpFor;
    hide RowOps;
    hide Quorum;
    hide Tombstones;
    hide SourceOf;
    hide JoinAt;
    NoRow(ms, res, handled, p);
    ops', made' := ops, made;
    var ids := Ids(ms);
    var quorum, tombs, source, joined := Decide(ms, res, p);
    ghost var front := NonDirs(ops);
    Regroup(front, [], []);
    for i := 0 to |ids|
      invariant Dressed(ops', made')
      invariant NonDirs(ops') == front + RowOps(ms, res, handled, ids[..i], p)
    {
      RowOpsStep(ms, res, handled, ids, i, p);
      Regroup(front, RowOps(ms, res, handled, ids[..i], p), OneOp(ms, res, handled, ids[i], p));
      assert ids[i] in ids;
      var t := ids[i];
      var op: Option<SyncOp> := None;
      if quorum {
        op := if Live(ms[t], p) then Some(SyncOp(REMOVE, tombs.source, t, p, None, tombs.vv)) else None;
      } else if t != source.value {
        op := PlanFor(ms, source.value, joined, t, p);
      }
      PlannedOp(ms, res, t, p, op, tombs, source, joined);
      if (t, p) !in handled && op.Some? {
        ops', made' := Append(op.value, ops', made');
      }
      Regroup(NonDirs(ops'), [], []);
    }
    assert ids[..|ids|] == ids;
  }

  /** Whether the tombstones have a quorum, and if not, the source and the merged vector. */
  method Decide(ms: Manifests, res: seq<Resolution>, p: Path)
    returns (quorum: bool, tombs: Tombs, source: Option<DriveId>, joined: Clocks)
    requires p in AllPaths(ms)
    ensures quorum == Quorum(ms, p) && tombs == Tombstones(ms, Ids(ms), p)
    ensures !quorum ==> source.Some? && source == SourceOf(ms, res, p) && joined == JoinAt(ms, p, source.value)
  {
    tombs := CountTombstones(ms, Ids(ms), p);
    quorum := tombs.count * 2 > |ms|;
    source, joined := None, map[];
    if !quorum {
      source := ChooseSource(ms, res, p);
      SourceExists(ms, res, p);
      joined := MergeAll(ms, Ids(ms), p, ms[source.value][p].vv);
    }
  }

  lemma NoRow(ms: Manifests, res: seq<Resolution>, handled: Handled, p: Path)
    ensures RowOps(ms, res, handled, Ids(ms)[..0], p) == []
  {
  }

  /** A file operation, after the directories it needs. */
  method Append(op: SyncOp, ops: seq<SyncOp>, made: set<(DriveId, Path)>)
    returns (ops': seq<SyncOp>, made': set<(DriveId, Path)>)
    requires Dressed(ops, made) && op.kind != MKDIR && op.kind != RENAME
    ensures Dressed(ops', made') && NonDirs(ops') == NonDirs(ops) + [op]
  {
    hide Dressed;
    hide NonDirs;
    ops', made' := ops, made;
    DressedRecords(ops, made);
    if op.kind == COPY {
      ops', made' := EmitMkdirs(op.path, op.target, ops', made');
    }
    NoDirs(ops, op);
    Placed(ops, made, ops', made', op);
    ops' := ops' + [op];
  }

  lemma PlannedOp(
    ms: Manifests, res: seq<Resolution>, t: DriveId, p: Path, op: Option<SyncOp>,
    tombs: Tombs, source: Option<DriveId>, joined: Clocks)
    requires t in ms && tombs == Tombstones(ms, Ids(ms), p)
    requires Quorum(ms, p) ==>
      op == if Live(ms[t], p) then Some(SyncOp(REMOVE, tombs.source, t, p, None, tombs.vv)) else None
    requires !Quorum(ms, p) ==> source.Some? && source == SourceOf(ms, res, p) && joined == JoinAt(ms, p, source.value)
    requires !Quorum(ms, p) && t == source.value ==> op == None
    requires !Quorum(ms, p) && t != source.value ==> op == OpFor(ms, res, t, p)
    ensures op == OpFor(ms, res, t, p)
    ensures op.Some? ==> op.value.target == t && op.value.path == p && op.value.kind != MKDIR && op.value.kind != RENAME
  {
    hide Quorum;
    hide Tombstones;
    hide SourceOf;
    hide JoinAt;
    hide Order;
  }

  // ----- The plan ---------------------------------------------------------------------------

  method Emit(ms: Manifests, res: seq<Resolution>, r: RenameMap)
    returns (ops: seq<SyncOp>)
    ensures ops == Emitted(ms, res, r)
  {
    hide Dressed;
    hide NonDirs;
    hide HandledBy;
    hide RowOps;
    var done: set<(DriveId, Path)>, handled: Handled;
    ops, done, handled := EmitRenames(ms, r);
    ghost var renames := NonDirs(ops);
    var paths := Sorted(AllPaths(ms));
    Regroup(renames, [], []);
    for i := 0 to |paths|
      invariant Dressed(ops, done)
      invariant NonDirs(ops) == renames + FileOps(ms, res, handled, paths[..i])
    {
      FileOpsStep(ms, res, handled, paths, i);
      Regroup(renames, FileOps(ms, res, handled, paths[..i]), RowOps(ms, res, handled, Ids(ms), paths[i]));
      assert paths[i] in paths;
      ops, done := EmitRow(ms, res, handled, paths[i], ops, done);
    }
    assert paths[..|paths|] == paths;
    DressedIs(ops, done);
  }

  lemma DressedIs(ops: seq<SyncOp>, made: set<(DriveId, Path)>)
    requires Dressed(ops, made)
    ensures ops == WithDirs(NonDirs(ops))
  {
  }

  /** Everything a round emits. */
  function Emitted(ms: Manifests, res: seq<Resolution>, r: RenameMap): seq<SyncOp> {
    WithDirs(Emission(ms, res, r))
  }

  /** The plan of some detection of the renames: the emission sorted, then coalesced. */
  ghost predicate PlanFrom(ms: Manifests, res: seq<Resolution>, r: RenameMap, sorted: seq<SyncOp>, plan: seq<SyncOp>) {
    && Sound(ms, r) && (forall s, t :: Covers(ms, r, s, t))
    && KahnOrdered(Emitted(ms, res, r), sorted) && plan == KeepLast(sorted)
  }

  ghost predicate IsPlanOf(ms: Manifests, res: seq<Resolution>, plan: seq<SyncOp>) {
    exists r, sorted :: PlanFrom(ms, res, r, sorted, plan)
  }

  /** The plan that the manifests, the resolutions and the order of the stores' rows decide. */
  ghost predicate PlannedFor(ms: Manifests, res: seq<Resolution>, files: map<DriveId, seq<Path>>, plan: seq<SyncOp>)
    requires files.Keys == ms.Keys
  {
    exists r, sorted ::
      Detected(ms, files, r) && KahnOrdered(Emitted(ms, res, r), sorted) && plan == KeepLast(sorted)
  }

  /** There is only one such plan. */
  lemma PlanIsDetermined(
    ms: Manifests, res: seq<Resolution>, files: map<DriveId, seq<Path>>, plan: seq<SyncOp>, other: seq<SyncOp>)
    requires files.Keys == ms.Keys && PlannedFor(ms, res, files, plan) && PlannedFor(ms, res, files, other)
    ensures plan == other
  {
    hide Detected;
    hide Emitted;
    hide KahnOrdered;
    hide KeepLast;
    var r, sorted :|
      Detected(ms, files, r) && KahnOrdered(Emitted(ms, res, r), sorted) && plan == KeepLast(sorted);
    var r', sorted' :|
      Detected(ms, files, r') && KahnOrdered(Emitted(ms, res, r'), sorted') && other == KeepLast(sorted');
    DetectionIsDetermined(ms, files, r, r');
    SortIsDetermined(Emitted(ms, res, r), sorted, sorted');
  }

  /** One round's plan: detect renames, emit, sort, coalesce. */
  method PlanSync(ms: Manifests, res: seq<Resolution>, files: map<DriveId, seq<Path>>) returns (plan: seq<SyncOp>)
    requires files.Keys == ms.Keys
    requires forall d, p :: d in ms ==> (p in files[d] <==> p in ms[d])
    ensures IsPlanOf(ms, res, plan) && PlannedFor(ms, res, files, plan)
  {
    hide Sound;
    hide Covers;
    hide Detected;
    hide Emitted;
    hide KahnOrdered;
    hide KeepLast;
    var r := DetectRenames(ms, files);
    DetectedIsCalled(ms, files, r);
    var ops := Emit(ms, res, r);
    var sorted := TopologicalSort(ops);
    plan := Coalesce(sorted);
    assert PlanFrom(ms, res, r, sorted, plan);
  }
}
