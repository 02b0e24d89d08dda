/** Carrying out planned operations on the drives, step by step. */
module Executor {
  import opened Base
  import opened SyncOps
  import opened VersionVectors
  import opened Drives
  import opened CrashSafety

  /** What the file system does to one operation. A directory of the new name makes a rename fail, a file
      in the place of a directory above it makes creating that directory fail. */
  datatype Fault =
    | NoFault | CopyStops(after: nat) | TmpDamaged(found: Bytes) | RenameFails | UpsertFails | UnlinkFails | DirFails

  const BLOCK := 64 * 1024

  predicate VerifyHash(h: Bytes -> Digest, disk: map<Path, Bytes>, p: Path, expected: Digest) {
    p in disk && h(disk[p]) == expected
  }

  /** Copies block by block; `after` bytes are written before the device fails. */
  method CopyFileContents(data: Bytes, target: Drive, tmp: Path, after: nat) returns (ok: bool)
    requires target.Valid()
    modifies target
    ensures target.Valid() && old(target.history) < target.history
    ensures ok == (|data| <= after)
    ensures target.Now() == Written(old(target.Now()), tmp, if ok then data else data[..after])
    ensures forall k :: |old(target.history)| <= k < |target.history| ==>
      TmpWritten(old(target.Now()), tmp, data, false, target.history[k])
  {
    ghost var s0 := target.Now();
    target.WriteFile(tmp, []);
    assert target.Now() == Written(s0, tmp, data[..0]);
    var total := 0;
    while total < |data|
      invariant 0 <= total <= |data| && total <= after && target.Valid()
      invariant old(target.history) < target.history
      invariant target.Now() == Written(s0, tmp, data[..total])
      invariant forall k :: |old(target.history)| <= k < |target.history| ==>
        TmpWritten(s0, tmp, data, false, target.history[k])
    {
      if total >= after {
        return false;
      }
      var next := if |data| - total < BLOCK then |data| else total + BLOCK;
      if next > after {
        next := after;
      }
      target.WriteFile(tmp, target.disk[tmp] + data[total..next]);
      assert data[..total] + data[total..next] == data[..next];
      assert target.Now() == Written(s0, tmp, data[..next]) && data[..next] <= data;
      total := next;
    }
    assert data[..total] == data;
    return true;
  }

  /** What a copy of `data` leaves in the tmp file, if it is completed. */
  function Arriving(data: Bytes, fault: Fault): Option<Bytes> {
    match fault
    case CopyStops(after) => if after < |data| then None else Some(data)
    case TmpDamaged(found) => Some(found)
    case _ => Some(data)
  }

  /** Leaves in the tmp file whatever the device makes of the copy. */
  method FillTmp(data: Bytes, target: Drive, tmp: Path, fault: Fault) returns (copied: bool, ghost left: Bytes)
    requires target.Valid()
    modifies target
    ensures target.Valid() && old(target.history) < target.history
    ensures copied == Arriving(data, fault).Some?
    ensures target.Now() == Written(old(target.Now()), tmp, left)
    ensures if copied then left == Arriving(data, fault).value else left <= data
    ensures forall k :: |old(target.history)| <= k < |target.history| ==>
      TmpWritten(old(target.Now()), tmp, data, fault.TmpDamaged?, target.history[k])
  {
    copied := CopyFileContents(data, target, tmp, if fault.CopyStops? then fault.after else |data|);
    left := target.disk[tmp];
    ghost var mid := target.history;
    if copied && fault.TmpDamaged? {
      target.WriteFile(tmp, fault.found);
      left := fault.found;
      assert target.Now() == Written(old(target.Now()), tmp, fault.found);
    }
    forall k | |old(target.history)| <= k < |target.history|
      ensures TmpWritten(old(target.Now()), tmp, data, fault.TmpDamaged?, target.history[k])
    {
      assert k < |mid| ==> target.history[k] == mid[k];
    }
  }

  /** How far a write of `data` gets before it is cleaned up. */
  function WriteStage(h: Bytes -> Digest, data: Bytes, fault: Fault): Stage {
    match Arriving(data, fault)
    case None => Swept
    case Some(x) =>
      if fault == DirFails || h(x) != h(data) || fault == RenameFails then Swept
      else if fault == UpsertFails then Replaced(x)
      else Recorded(x)
  }

  function SweptFrom(stage: Stage): Stage {
    if stage.Replaced? || stage.Recorded? then stage else Swept
  }

  function Held(disk: map<Path, Bytes>, p: Path): Bytes {
    if p in disk then disk[p] else []
  }

  /** Create the directories above the target, log, copy to the tmp file, verify it, rename it over the target, record the entry, close the log
      row; on any failure remove the tmp file and close the row. Returns false where the source throws. */
  method AtomicWrite(
    h: Bytes -> Digest, source: Drive, from: Path, target: Drive, to: Path,
    expected: Digest, meta: Meta, fault: Fault, ghost named: iset<Digest>)
    returns (ok: bool)
    requires source.Valid() && target.Valid()
    requires source == target ==> from != Tmp(to)
    modifies target
    ensures target.Valid()
    ensures var data, stage := old(Held(source.disk, from)), WriteStage(h, old(Held(source.disk, from)), fault);
      && ok == (old(VerifyHash(h, source.disk, from, expected)) && stage.Recorded?)
      && (if old(VerifyHash(h, source.disk, from, expected)) && fault != DirFails then target.Now() == At(old(target.Now()), to, meta, stage, true)
          else target.history == old(target.history))
      && Traces(h, old(target.Now()), to, data, fault.TmpDamaged?, meta, old(target.history), target.history)
    ensures Sure(named, to, expected, meta) ==> Continues(h, named, old(target.history), target.history)
  {
    hide At;
    hide Traces;
    hide Continues;
    hide Interrupted;
    ghost var s0, run, torn := target.Now(), target.history, fault.TmpDamaged?;
    Idle(h, s0, to, Held(source.disk, from), torn, meta, run);
    if !VerifyHash(h, source.disk, from, expected) || fault == DirFails {
      return false;
    }
    var data := source.disk[from];
    var tmp := Tmp(to);
    ghost var sure := Sure(named, to, expected, meta);

    Protocol(s0, to, meta, data);
    Note(h, s0, to, data, torn, meta, run, target.history, Opened, false, named, sure, Log(LogWrite, to));
    var id := target.BeginOperation(LogWrite, to);

    ghost var mid, s1 := target.history, target.Now();
    ghost var left;
    var copied;
    copied, left := FillTmp(data, target, tmp, fault);
    FillingTraces(h, s0, to, data, torn, meta, run, mid, target.history);
    if sure {
      FillingContinues(h, named, s1, to, data, torn, mid, target.history);
      ContinuesTransitive(h, named, run, mid, target.history);
    }
    Protocol(s0, to, meta, left);
    ghost var stage := Filling(left);
    ok := false;
    if copied {
      ok, stage := Install(h, target, to, expected, meta, fault, id, s0, data, run, named, sure);
    }
    if !ok {
      CleanUp(h, target, to, meta, id, s0, data, torn, stage, run, named, sure);
    }
  }

  /** The rest of the protected block: verify the tmp file, rename it over the target, record the new
      entry and close the log row. */
  method Install(
    h: Bytes -> Digest, target: Drive, to: Path, expected: Digest, meta: Meta, fault: Fault, id: nat,
    ghost s0: Snapshot, ghost data: Bytes, ghost run: seq<Snapshot>, ghost named: iset<Digest>, ghost sure: bool)
    returns (ok: bool, ghost stage: Stage)
    requires target.Valid() && id == |s0.log| && expected == h(data) && Arriving(data, fault).Some? && fault != DirFails
    requires target.Now() == At(s0, to, meta, Filling(Arriving(data, fault).value), false)
    requires Traces(h, s0, to, data, fault.TmpDamaged?, meta, run, target.history)
    requires sure ==> Sure(named, to, expected, meta) && Continues(h, named, run, target.history)
    modifies target
    ensures target.Valid() && SweptFrom(stage) == WriteStage(h, data, fault)
    ensures ok == WriteStage(h, data, fault).Recorded?
    ensures target.Now() == At(s0, to, meta, stage, ok)
    ensures Allowed(h, data, fault.TmpDamaged?, stage, ok)
    ensures Traces(h, s0, to, data, fault.TmpDamaged?, meta, run, target.history)
    ensures sure ==> Continues(h, named, run, target.history)
  {
    hide Traces;
    hide Continues;
    hide At;
    ghost var torn := fault.TmpDamaged?;
    var tmp := Tmp(to);
    ghost var x := Arriving(data, fault).value;
    Filled(s0, to, meta, x);
    Protocol(s0, to, meta, x);
    Closing(s0, to, meta, Recorded(x));
    if h(target.disk[tmp]) != expected {
      Sweeping(s0, to, meta, Filling(x));
      Note(h, s0, to, data, torn, meta, run, target.history, Swept, false, named, sure, Unlink(tmp));
      target.RemoveFile(tmp);
      return false, Swept;
    }
    if fault == RenameFails {
      return false, Filling(x);
    }
    Note(h, s0, to, data, torn, meta, run, target.history, Replaced(x), false, named, sure, Commit(to));
    target.RenameFile(tmp, to);
    if fault == UpsertFails {
      return false, Replaced(x);
    }
    Note(h, s0, to, data, torn, meta, run, target.history, Recorded(x), false, named, sure, Record(to, meta));
    target.UpsertFile(to, meta);
    Note(h, s0, to, data, torn, meta, run, target.history, Recorded(x), true, named, sure, Close(id));
    target.CompleteOperation(id);
    return true, Recorded(x);
  }

  /** The catch block: whatever went wrong, no tmp file and no pending row stay behind. */
  method CleanUp(
    h: Bytes -> Digest, target: Drive, to: Path, meta: Meta, id: nat, ghost s0: Snapshot, ghost data: Bytes,
    ghost torn: bool, ghost stage: Stage, ghost run: seq<Snapshot>, ghost named: iset<Digest>, ghost sure: bool)
    requires target.Valid() && id == |s0.log|
    requires Allowed(h, data, torn, stage, false) && target.Now() == At(s0, to, meta, stage, false)
    requires Traces(h, s0, to, data, torn, meta, run, target.history)
    requires sure ==> Continues(h, named, run, target.history)
    modifies target
    ensures target.Valid() && target.Now() == At(s0, to, meta, SweptFrom(stage), true)
    ensures Traces(h, s0, to, data, torn, meta, run, target.history)
    ensures sure ==> Continues(h, named, run, target.history)
  {
    hide Traces;
    hide Continues;
    hide At;
    ghost var swept := SweptFrom(stage);
    Sweeping(s0, to, meta, stage);
    Note(h, s0, to, data, torn, meta, run, target.history, swept, false, named, sure, Unlink(Tmp(to)));
    target.RemoveFile(Tmp(to));
    Closing(s0, to, meta, swept);
    Note(h, s0, to, data, torn, meta, run, target.history, swept, true, named, sure, Close(id));
    target.CompleteOperation(id);
  }

  ghost predicate Sure(named: iset<Digest>, to: Path, expected: Digest, meta: Meta) {
    expected in named && !IsTmp(to) && (meta.hash == "" || meta.hash in named)
  }

  /** One more step, both as a state the write can be interrupted in and as a step of the run. */
  lemma Note(
    h: Bytes -> Digest, s0: Snapshot, to: Path, data: Bytes, torn: bool, meta: Meta, run: seq<Snapshot>,
    before: seq<Snapshot>, stage: Stage, closed: bool, named: iset<Digest>, sure: bool, step: Step)
    requires Traces(h, s0, to, data, torn, meta, run, before) && before != []
    requires Allowed(h, data, torn, stage, closed)
    requires sure ==>
      && Continues(h, named, run, before) && Enabled(h, named, before[|before| - 1], step)
      && At(s0, to, meta, stage, closed) == Next(h, named, before[|before| - 1], step)
    ensures Traces(h, s0, to, data, torn, meta, run, before + [At(s0, to, meta, stage, closed)])
    ensures sure ==> Continues(h, named, run, before + [At(s0, to, meta, stage, closed)])
  {
    hide DriveStep;
    hide At;
    hide Enabled;
    hide Next;
    hide Traces;
    hide Continues;
    TracesOne(h, s0, to, data, torn, meta, run, before, stage, closed);
    if sure {
      Stepped(h, named, before[|before| - 1], step);
      ContinuesOne(h, named, run, before, At(s0, to, meta, stage, closed));
    }
  }

  // ----- Whole operations -------------------------------------------------------------------

  /** A drive without its log. */
  datatype Replica = Replica(disk: map<Path, Bytes>, manifest: Manifest)

  type Fleet = map<DriveId, Replica>

  /** The entry a removal leaves: the one there was, or a default one, as a tombstone. */
  function Tombstoned(manifest: Manifest, op: SyncOp): Meta {
    (if op.path in manifest then manifest[op.path] else BLANK).(tombstone := true, vv := op.vv)
  }

  predicate CanCopy(h: Bytes -> Digest, f: Fleet, op: SyncOp) {
    && op.source in f && op.path in f[op.source].manifest
    && VerifyHash(h, f[op.source].disk, op.path, f[op.source].manifest[op.path].hash)
  }

  /** Whether an operation succeeds when the device does. */
  predicate Succeeds(h: Bytes -> Digest, f: Fleet, op: SyncOp) {
    && op.target in f
    && match op.kind
       case MKDIR => true
       case COPY => CanCopy(h, f, op)
       case REPLACE => CanCopy(h, f, op)
       case REMOVE => true
       case RENAME => op.newPath.Some? && op.path in f[op.target].disk
  }

  /** What a succeeding operation makes of its target. */
  function Effect(h: Bytes -> Digest, f: Fleet, op: SyncOp): Replica
    requires Succeeds(h, f, op)
  {
    var t := f[op.target];
    match op.kind
    case MKDIR => t
    case COPY => CopyEffect(h, f, op)
    case REPLACE => CopyEffect(h, f, op)
    case REMOVE => Replica(t.disk - {op.path}, t.manifest[op.path := Tombstoned(t.manifest, op)])
    case RENAME =>
      Replica((t.disk - {op.path})[op.newPath.value := t.disk[op.path]],
              RenamedManifest(t.manifest, op.path, op.newPath.value, op.vv))
  }

  function CopyEffect(h: Bytes -> Digest, f: Fleet, op: SyncOp): Replica
    requires op.target in f && CanCopy(h, f, op)
  {
    var s, t := f[op.source], f[op.target];
    Replica((t.disk - {Tmp(op.path)})[op.path := s.disk[op.path]],
            t.manifest[op.path := s.manifest[op.path].(vv := op.vv)])
  }

  function Applied(h: Bytes -> Digest, f: Fleet, op: SyncOp): Fleet {
    if Succeeds(h, f, op) then f[op.target := Effect(h, f, op)] else f
  }

  // ----- What an operation comes to when the device fails ------------------------------------

  /** What a target holds after one operation, the rows it has logged for it, and whether success was
      reported. */
  datatype Outcome = Outcome(replica: Replica, rows: seq<LogRow>, ok: bool)

  /** A write cleaned up at `stage`. */
  function AfterWrite(r: Replica, to: Path, meta: Meta, stage: Stage): Replica {
    match stage
    case Recorded(b) => Replica((r.disk - {Tmp(to)})[to := b], r.manifest[to := meta])
    case Replaced(b) => Replica((r.disk - {Tmp(to)})[to := b], r.manifest)
    case _ => Replica(r.disk - {Tmp(to)}, r.manifest)
  }

  function CopyOutcome(h: Bytes -> Digest, f: Fleet, op: SyncOp, fault: Fault): Outcome
    requires op.target in f
  {
    if !CanCopy(h, f, op) || fault == DirFails then Outcome(f[op.target], [], false)
    else
      var s := f[op.source];
      var stage := WriteStage(h, s.disk[op.path], fault);
      Outcome(AfterWrite(f[op.target], op.path, s.manifest[op.path].(vv := op.vv), stage),
              [LogRow(LogWrite, op.path, true)], stage.Recorded?)
  }

  /** A removal that cannot record its tombstone has removed the file, and its row stays open. */
  function RemoveOutcome(t: Replica, op: SyncOp, fault: Fault): Outcome {
    var disk := if fault == UnlinkFails then t.disk else t.disk - {op.path};
    if fault == UpsertFails then Outcome(Replica(disk, t.manifest), [LogRow(LogDelete, op.path, false)], false)
    else
      Outcome(Replica(disk, t.manifest[op.path := Tombstoned(t.manifest, op)]), [LogRow(LogDelete, op.path, true)], true)
  }

  /** A rename that cannot record the new entry has moved the file and dropped the old entry, and its
      row stays open. */
  function RenameOutcome(t: Replica, op: SyncOp, fault: Fault): Outcome {
    if op.newPath.None? then Outcome(t, [], false)
    else if op.path !in t.disk || fault == RenameFails || fault == DirFails then Outcome(t, [LogRow(LogRename, op.path, true)], false)
    else
      var disk := (t.disk - {op.path})[op.newPath.value := t.disk[op.path]];
      if op.path in t.manifest && fault == UpsertFails then
        Outcome(Replica(disk, t.manifest - {op.path}), [LogRow(LogRename, op.path, false)], false)
      else
        Outcome(Replica(disk, RenamedManifest(t.manifest, op.path, op.newPath.value, op.vv)),
                [LogRow(LogRename, op.path, true)], true)
  }

  function OutcomeOf(h: Bytes -> Digest, f: Fleet, op: SyncOp, fault: Fault): Outcome
    requires op.target in f
  {
    match op.kind
    case MKDIR => Outcome(f[op.target], [], fault != DirFails)
    case COPY => CopyOutcome(h, f, op, fault)
    case REPLACE => CopyOutcome(h, f, op, fault)
    case REMOVE => RemoveOutcome(f[op.target], op, fault)
    case RENAME => RenameOutcome(f[op.target], op, fault)
  }

  /** The fleet after one operation under a fault. */
  function Suffered(h: Bytes -> Digest, f: Fleet, op: SyncOp, fault: Fault): Fleet {
    if op.target in f then f[op.target := OutcomeOf(h, f, op, fault).replica] else f
  }

  predicate Reports(h: Bytes -> Digest, f: Fleet, op: SyncOp, fault: Fault) {
    op.target in f && OutcomeOf(h, f, op, fault).ok
  }

  /** Without a fault, an operation has its full effect or none. */
  lemma NoFaultNoLoss(h: Bytes -> Digest, f: Fleet, op: SyncOp)
    ensures Suffered(h, f, op, NoFault) == Applied(h, f, op) && Reports(h, f, op, NoFault) == Succeeds(h, f, op)
  {
    if op.target in f {
      assert f[op.target := f[op.target]] == f;
    }
  }

  /** The operations whose row a failing manifest leaves open: removals, and renames that have moved
      an entry. */
  predicate LeavesOpen(f: Fleet, op: SyncOp, fault: Fault) {
    && fault == UpsertFails && op.target in f
    && (|| op.kind == REMOVE
        || (op.kind == RENAME && op.newPath.Some?
            && op.path in f[op.target].disk && op.path in f[op.target].manifest))
  }

  /** Under any fault, the log has nothing pending afterwards if and only if it had nothing pending
      before and the operation is not one of those. */
  lemma OpenAfter(h: Bytes -> Digest, f: Fleet, op: SyncOp, fault: Fault, log: seq<LogRow>)
    requires op.target in f
    ensures NothingPending(log + OutcomeOf(h, f, op, fault).rows)
      <==> NothingPending(log) && !LeavesOpen(f, op, fault)
  {
    hide NothingPending;
    var rows := OutcomeOf(h, f, op, fault).rows;
    if rows != [] {
      PendingWithOne(log, rows[0]);
      assert log + rows == log + [rows[0]];
    } else {
      assert log + rows == log;
    }
  }

  lemma PendingWithOne(log: seq<LogRow>, row: LogRow)
    ensures NothingPending(log + [row]) <==> NothingPending(log) && row.completed
  {
    assert forall i :: 0 <= i < |log| ==> (log + [row])[i] == log[i];
    assert (log + [row])[|log|] == row;
  }

  /** What recovery makes of such a row: it is closed, but a removed file still has its entry, and a
      renamed one has lost the entry of its old name without getting one under the new. */
  lemma RecoveryDoesNotRepair(h: Bytes -> Digest, stuck: Path -> bool, f: Fleet, op: SyncOp, log: seq<LogRow>)
    requires LeavesOpen(f, op, UpsertFails) && NothingPending(log)
    ensures var o, t := OutcomeOf(h, f, op, UpsertFails), f[op.target];
      var r := Recover(h, stuck, Snapshot(o.replica.disk, o.replica.manifest, log + o.rows));
      && NothingPending(r.log) && !o.ok
      && if op.kind == REMOVE then r.disk == t.disk - {op.path} && r.manifest == t.manifest
         else
           && r.disk == (t.disk - {op.path})[op.newPath.value := t.disk[op.path]]
           && r.manifest == t.manifest - {op.path}
  {
    var o := OutcomeOf(h, f, op, UpsertFails);
    var s := Snapshot(o.replica.disk, o.replica.manifest, log + o.rows);
    assert forall i :: 0 <= i < |s.log| ==> s.log[i] == if i < |log| then log[i] else o.rows[0];
    RecoveryOnlyCloses(h, stuck, s);
  }

  /** Distinct ids stand for distinct drives. */
  ghost predicate Wired(drives: map<DriveId, Drive>)
    reads set d | d in drives :: drives[d]
  {
    && (forall d :: d in drives ==> drives[d].Valid())
    && (forall d, e :: d in drives && e in drives && d != e ==> drives[d] != drives[e])
  }

  ghost function FleetOf(drives: map<DriveId, Drive>): Fleet
    reads set d | d in drives :: drives[d]
  {
    map d | d in drives :: Replica(drives[d].disk, drives[d].manifest)
  }

  ghost function LogsOf(drives: map<DriveId, Drive>): map<DriveId, seq<LogRow>>
    reads set d | d in drives :: drives[d]
  {
    map d | d in drives :: drives[d].log
  }

  /** Every digest a manifest holds is a named one or empty, no content has the empty digest, and the
      operation works on tracked paths. */
  ghost predicate Orderly(h: Bytes -> Digest, named: iset<Digest>, f: Fleet, op: SyncOp) {
    && (forall d, p :: d in f && p in f[d].manifest ==>
          f[d].manifest[p].hash == "" || f[d].manifest[p].hash in named)
    && (forall x :: h(x) != "")
    && (op.kind != MKDIR ==> !IsTmp(op.path) && (op.newPath.Some? ==> !IsTmp(op.newPath.value)))
  }

  /** What any operation does under any fault: exactly the outcome, exactly the rows. */
  method Execute(h: Bytes -> Digest, op: SyncOp, drives: map<DriveId, Drive>, fault: Fault, ghost named: iset<Digest>)
    returns (ok: bool)
    requires Wired(drives)
    modifies if op.target in drives then {drives[op.target]} else {}
    ensures Wired(drives)
    ensures ok == Reports(h, old(FleetOf(drives)), op, fault)
    ensures FleetOf(drives) == Suffered(h, old(FleetOf(drives)), op, fault)
    ensures op.target in drives ==>
      drives[op.target].log == old(drives[op.target].log) + OutcomeOf(h, old(FleetOf(drives)), op, fault).rows
    ensures op.target in drives && Orderly(h, named, old(FleetOf(drives)), op) ==>
      Continues(h, named, old(drives[op.target].history), drives[op.target].history)
  {
    hide *;
    ghost var fleet := FleetOf(drives);
    AllShown(drives);
    if op.target !in drives {
      NothingSuffered(h, fleet, op, fault);
      return false;
    }
    ok := Dispatch(h, op, drives, fault, named);
    StillWired(drives);
    AllShown(drives);
    OneSuffered(h, fleet, op, fault, FleetOf(drives));
  }

  lemma AllShown(drives: map<DriveId, Drive>)
    requires Wired(drives)
    ensures FleetOf(drives).Keys == drives.Keys
    ensures forall d :: d in drives ==> drives[d].Valid() && FleetOf(drives)[d] == Replica(drives[d].disk, drives[d].manifest)
    ensures forall d, e :: d in drives && e in drives && d != e ==> drives[d] != drives[e]
  {
  }

  /** Drives stay wired while each stays valid. */
  lemma StillWired(drives: map<DriveId, Drive>)
    requires forall d :: d in drives ==> drives[d].Valid()
    requires forall d, e :: d in drives && e in drives && d != e ==> drives[d] != drives[e]
    ensures Wired(drives)
  {
  }

  lemma NothingSuffered(h: Bytes -> Digest, f: Fleet, op: SyncOp, fault: Fault)
    requires op.target !in f
    ensures Suffered(h, f, op, fault) == f && !Reports(h, f, op, fault)
  {
  }

  lemma OneSuffered(h: Bytes -> Digest, f: Fleet, op: SyncOp, fault: Fault, g: Fleet)
    requires op.target in f && g.Keys == f.Keys && g[op.target] == OutcomeOf(h, f, op, fault).replica
    requires forall d :: d in f && d != op.target ==> g[d] == f[d]
    ensures g == Suffered(h, f, op, fault) && Reports(h, f, op, fault) == OutcomeOf(h, f, op, fault).ok
  {
    hide OutcomeOf;
  }

  method Dispatch(h: Bytes -> Digest, op: SyncOp, drives: map<DriveId, Drive>, fault: Fault, ghost named: iset<Digest>)
    returns (ok: bool)
    requires Wired(drives) && op.target in drives
    modifies drives[op.target]
    ensures drives[op.target].Valid()
    ensures var o := OutcomeOf(h, old(FleetOf(drives)), op, fault);
      && ok == o.ok && o.replica == Replica(drives[op.target].disk, drives[op.target].manifest)
      && drives[op.target].log == old(drives[op.target].log) + o.rows
    ensures Orderly(h, named, old(FleetOf(drives)), op) ==>
      Continues(h, named, old(drives[op.target].history), drives[op.target].history)
  {
    hide Continues;
    hide Orderly;
    hide EntryKnown;
    hide RenameKnown;
    hide CopyOutcome;
    hide RemoveOutcome;
    hide RenameOutcome;
    OrderlyMeansKnown(h, named, FleetOf(drives), op);
    var target := drives[op.target];
    if op.kind == MKDIR {
      Idle(h, target.Now(), op.path, [], false, BLANK, target.history);
      ok := fault != DirFails;
    } else if op.kind == COPY || op.kind == REPLACE {
      ok := ExecuteCopy(h, op, drives, fault, named);
    } else if op.kind == REMOVE {
      ok := ExecuteRemove(h, op, target, fault, named);
    } else {
      ok := ExecuteRename(h, op, target, fault, named);
    }
  }

  /** The drive holds what `o` says, and has logged its rows. */
  twostate predicate Came(o: Outcome, target: Drive, ok: bool)
    reads target
  {
    && ok == o.ok && target.disk == o.replica.disk && target.manifest == o.replica.manifest
    && target.log == old(target.log) + o.rows
  }

  method ExecuteCopy(h: Bytes -> Digest, op: SyncOp, drives: map<DriveId, Drive>, fault: Fault, ghost named: iset<Digest>)
    returns (ok: bool)
    requires Wired(drives) && op.target in drives && op.kind != MKDIR
    modifies drives[op.target]
    ensures drives[op.target].Valid()
    ensures Came(CopyOutcome(h, old(FleetOf(drives)), op, fault), drives[op.target], ok)
    ensures Orderly(h, named, old(FleetOf(drives)), op) ==>
      Continues(h, named, old(drives[op.target].history), drives[op.target].history)
  {
    hide Continues;
    hide Traces;
    hide WriteStage;
    var target := drives[op.target];
    Idle(h, target.Now(), op.path, [], false, BLANK, target.history);
    if op.source !in drives {
      return false;
    }
    var source := drives[op.source];
    var found := source.GetFile(op.path);
    if found.None? {
      return false;
    }
    var entry := found.value;
    TmpIsTmp(op.path);
    CopySure(h, named, FleetOf(drives), op);
    WrittenOut(h, target.Now(), op.path, entry.(vv := op.vv), Held(source.disk, op.path), fault);
    ok := AtomicWrite(h, source, op.path, target, op.path, entry.hash, entry.(vv := op.vv), fault, named);
  }

  lemma WrittenOut(h: Bytes -> Digest, s0: Snapshot, to: Path, meta: Meta, data: Bytes, fault: Fault)
    ensures var stage := WriteStage(h, data, fault);
      var s, r := At(s0, to, meta, stage, true), AfterWrite(Replica(s0.disk, s0.manifest), to, meta, stage);
      s.disk == r.disk && s.manifest == r.manifest && s.log == s0.log + [LogRow(LogWrite, to, true)]
    ensures fault == DirFails ==> WriteStage(h, data, fault) == Swept
  {
  }

  lemma CopySure(h: Bytes -> Digest, named: iset<Digest>, f: Fleet, op: SyncOp)
    requires op.source in f && op.path in f[op.source].manifest && op.kind != MKDIR
    ensures var entry := f[op.source].manifest[op.path];
      Orderly(h, named, f, op) && VerifyHash(h, f[op.source].disk, op.path, entry.hash) ==>
        Sure(named, op.path, entry.hash, entry.(vv := op.vv))
  {
  }

  method ExecuteRemove(h: Bytes -> Digest, op: SyncOp, target: Drive, fault: Fault, ghost named: iset<Digest>)
    returns (ok: bool)
    requires target.Valid()
    modifies target
    ensures target.Valid()
    ensures Came(RemoveOutcome(Replica(old(target.disk), old(target.manifest)), op, fault), target, ok)
    ensures EntryKnown(named, old(target.manifest), op.path) ==>
      Continues(h, named, old(target.history), target.history)
  {
    hide Continues;
    hide EntryKnown;
    hide Tombstoned;
    ghost var run, known := target.history, EntryKnown(named, target.manifest, op.path);
    Idle(h, target.Now(), op.path, [], false, BLANK, run);
    March(h, named, run, target.history, Log(LogDelete, op.path), known);
    var id := target.BeginOperation(LogDelete, op.path);
    if fault != UnlinkFails {
      March(h, named, run, target.history, Unlink(op.path), known);
      target.RemoveFile(op.path);
    }
    ok := LeaveTombstone(h, op, target, fault, run, named, known);
    if ok {
      March(h, named, run, target.history, Close(id), known);
      target.CompleteOperation(id);
    }
  }

  /** The manifest's side of a removal, if the store can still be written. */
  method LeaveTombstone(
    h: Bytes -> Digest, op: SyncOp, target: Drive, fault: Fault,
    ghost run: seq<Snapshot>, ghost named: iset<Digest>, ghost known: bool)
    returns (ok: bool)
    requires target.Valid() && (known ==> EntryKnown(named, target.manifest, op.path))
    requires known ==> Continues(h, named, run, target.history)
    modifies target
    ensures target.Valid() && target.disk == old(target.disk) && target.log == old(target.log)
    ensures ok == (fault != UpsertFails)
    ensures target.manifest
      == if ok then old(target.manifest)[op.path := Tombstoned(old(target.manifest), op)] else old(target.manifest)
    ensures known ==> Continues(h, named, run, target.history)
  {
    hide Continues;
    if fault == UpsertFails {
      return false;
    }
    var existing := target.GetFile(op.path);
    var tomb := (if existing.Some? then existing.value else BLANK).(tombstone := true, vv := op.vv);
    March(h, named, run, target.history, Record(op.path, tomb), known);
    target.UpsertFile(op.path, tomb);
    return true;
  }

  ghost predicate EntryKnown(named: iset<Digest>, manifest: Manifest, p: Path) {
    p in manifest ==> manifest[p].hash == "" || manifest[p].hash in named
  }

  lemma March(h: Bytes -> Digest, named: iset<Digest>, run: seq<Snapshot>, before: seq<Snapshot>, step: Step, known: bool)
    requires before != [] && (known ==> Enabled(h, named, before[|before| - 1], step))
    requires known ==> Continues(h, named, run, before)
    ensures known ==> Continues(h, named, run, before + [Next(h, named, before[|before| - 1], step)])
  {
    hide Continues;
    hide DriveStep;
    if known {
      Stepped(h, named, before[|before| - 1], step);
      ContinuesOne(h, named, run, before, Next(h, named, before[|before| - 1], step));
    }
  }

  function RenamedManifest(manifest: Manifest, from: Path, to: Path, vv: Clocks): Manifest {
    if from !in manifest then manifest else (manifest - {from})[to := manifest[from].(vv := vv)]
  }

  ghost predicate RenameKnown(named: iset<Digest>, manifest: Manifest, op: SyncOp) {
    && !IsTmp(op.path) && (op.newPath.Some? ==> !IsTmp(op.newPath.value))
    && EntryKnown(named, manifest, op.path)
  }

  lemma OrderlyMeansKnown(h: Bytes -> Digest, named: iset<Digest>, f: Fleet, op: SyncOp)
    ensures Orderly(h, named, f, op) && op.target in f && op.kind != MKDIR ==>
      && EntryKnown(named, f[op.target].manifest, op.path) && RenameKnown(named, f[op.target].manifest, op)
  {
  }

  method ExecuteRename(h: Bytes -> Digest, op: SyncOp, target: Drive, fault: Fault, ghost named: iset<Digest>)
    returns (ok: bool)
    requires target.Valid()
    modifies target
    ensures target.Valid()
    ensures Came(RenameOutcome(Replica(old(target.disk), old(target.manifest)), op, fault), target, ok)
    ensures RenameKnown(named, old(target.manifest), op) ==>
      Continues(h, named, old(target.history), target.history)
  {
    hide Continues;
    hide IsTmp;
    hide EntryKnown;
    hide RenamedManifest;
    ghost var run, known := target.history, RenameKnown(named, target.manifest, op);
    Idle(h, target.Now(), op.path, [], false, BLANK, run);
    if op.newPath.None? {
      return false;
    }
    var newPath := op.newPath.value;
    March(h, named, run, target.history, Log(LogRename, op.path), known);
    var id := target.BeginOperation(LogRename, op.path);
    if fault == DirFails || op.path !in target.disk || fault == RenameFails {
      March(h, named, run, target.history, Close(id), known);
      target.CompleteOperation(id);
      return false;
    }
    March(h, named, run, target.history, Rename(op.path, newPath), known);
    target.RenameFile(op.path, newPath);
    ok := MoveEntry(h, op.path, newPath, op.vv, target, fault, run, named, known);
    if ok {
      March(h, named, run, target.history, Close(id), known);
      target.CompleteOperation(id);
    }
  }

  /** The manifest's side of a rename: the old entry goes, then the new one takes its place, if the
      store can still be written. */
  method MoveEntry(
    h: Bytes -> Digest, from: Path, to: Path, vv: Clocks, target: Drive, fault: Fault,
    ghost run: seq<Snapshot>, ghost named: iset<Digest>, ghost known: bool)
    returns (ok: bool)
    requires target.Valid() && (known ==> EntryKnown(named, target.manifest, from))
    requires known ==> Continues(h, named, run, target.history)
    modifies target
    ensures target.Valid() && target.disk == old(target.disk) && target.log == old(target.log)
    ensures ok == (from in old(target.manifest) ==> fault != UpsertFails)
    ensures target.manifest
      == if ok then RenamedManifest(old(target.manifest), from, to, vv) else old(target.manifest) - {from}
    ensures known ==> Continues(h, named, run, target.history)
  {
    hide Continues;
    var existing := target.GetFile(from);
    if existing.Some? {
      March(h, named, run, target.history, Forget(from), known);
      target.DeleteFile(from);
      if fault == UpsertFails {
        return false;
      }
      March(h, named, run, target.history, Record(to, existing.value.(vv := vv)), known);
      target.UpsertFile(to, existing.value.(vv := vv));
    }
    return true;
  }

  // ----- Recovery on startup ----------------------------------------------------------------

  /** Recovering from any state added to `run` ends in `goal`. */
  ghost predicate HeadsFor(h: Bytes -> Digest, stuck: Path -> bool, goal: Snapshot, run: seq<Snapshot>, later: seq<Snapshot>) {
    run <= later && forall k :: |run| <= k < |later| ==> Recover(h, stuck, later[k]) == goal
  }

  method RecoverIncompleteOperations(h: Bytes -> Digest, stuck: Path -> bool, drive: Drive, ghost named: iset<Digest>)
    requires drive.Valid()
    modifies drive
    ensures drive.Valid() && drive.Now() == Recover(h, stuck, old(drive.Now()))
    ensures HeadsFor(h, stuck, Recover(h, stuck, old(drive.Now())), old(drive.history), drive.history)
    ensures (forall p :: p in old(drive.manifest) ==> EntryKnown(named, old(drive.manifest), p)) ==>
      Continues(h, named, old(drive.history), drive.history)
  {
    hide Continues;
    hide Recover;
    ghost var s0, run := drive.Now(), drive.history;
    ghost var known := forall p :: p in drive.manifest ==> EntryKnown(named, drive.manifest, p);
    Idle(h, s0, "", [], false, BLANK, run);
    IncompleteInRange(drive.log, |drive.log|);
    var ids := drive.GetIncompleteOperations();
    assert ids[0..] == ids;
    for i := 0 to |ids|
      invariant drive.Valid() && |drive.log| == |s0.log| && drive.manifest == s0.manifest
      invariant Incomplete(drive.log, |drive.log|) == ids[i..] && Recover(h, stuck, drive.Now()) == Recover(h, stuck, s0)
      invariant HeadsFor(h, stuck, Recover(h, stuck, s0), run, drive.history)
      invariant known ==> Continues(h, named, run, drive.history)
    {
      RecoverOne(h, stuck, drive, ids[i], s0, run, named, known);
      assert ids[i..][1..] == ids[i + 1..];
    }
    NothingToRecover(h, stuck, drive.Now());
  }

  lemma NothingToRecover(h: Bytes -> Digest, stuck: Path -> bool, s: Snapshot)
    requires Incomplete(s.log, |s.log|) == []
    ensures Recover(h, stuck, s) == s
  {
  }

  method RecoverOne(
    h: Bytes -> Digest, stuck: Path -> bool, drive: Drive, id: nat,
    ghost s0: Snapshot, ghost run: seq<Snapshot>, ghost named: iset<Digest>, ghost known: bool)
    requires drive.Valid() && Incomplete(drive.log, |drive.log|) != [] && Incomplete(drive.log, |drive.log|)[0] == id
    requires id < |drive.log| && Recover(h, stuck, drive.Now()) == Recover(h, stuck, s0)
    requires HeadsFor(h, stuck, Recover(h, stuck, s0), run, drive.history)
    requires known ==> forall p :: p in drive.manifest ==> EntryKnown(named, drive.manifest, p)
    requires known ==> Continues(h, named, run, drive.history)
    modifies drive
    ensures drive.Valid() && drive.Now() == RecoverRow(h, stuck, old(drive.Now()), id)
    ensures drive.manifest == old(drive.manifest) && Recover(h, stuck, drive.Now()) == Recover(h, stuck, s0)
    ensures Incomplete(drive.log, |drive.log|) == old(Incomplete(drive.log, |drive.log|))[1..]
    ensures HeadsFor(h, stuck, Recover(h, stuck, s0), run, drive.history)
    ensures known ==> Continues(h, named, run, drive.history)
  {
    hide Continues;
    hide Recover;
    hide Incomplete;
    RecoveryCanBeInterrupted(h, stuck, drive.Now());
    var row := drive.log[id];
    RecoverTmp(h, stuck, drive, row, run, named, known);
    March(h, named, run, drive.history, Close(id), known);
    drive.CompleteOperation(id);
  }

  /** The files of one row: a verified tmp file is renamed into place, if that works; any other is removed. */
  method RecoverTmp(
    h: Bytes -> Digest, stuck: Path -> bool, drive: Drive, row: LogRow,
    ghost run: seq<Snapshot>, ghost named: iset<Digest>, ghost known: bool)
    requires drive.Valid()
    requires known ==> forall p :: p in drive.manifest ==> EntryKnown(named, drive.manifest, p)
    requires known ==> Continues(h, named, run, drive.history)
    modifies drive
    ensures drive.Valid() && drive.Now() == RecoverFiles(h, stuck, old(drive.Now()), row)
    ensures drive.history == old(drive.history) || drive.history == old(drive.history) + [drive.Now()]
    ensures known ==> Continues(h, named, run, drive.history)
  {
    hide Continues;
    if row.kind == LogWrite {
      var tmp := Tmp(row.path);
      if tmp in drive.disk {
        var meta := drive.GetFile(row.path);
        if meta.Some? && meta.value.hash != "" && VerifyHash(h, drive.disk, tmp, meta.value.hash) && !stuck(row.path) {
          March(h, named, run, drive.history, Commit(row.path), known);
          drive.RenameFile(tmp, row.path);
        } else {
          March(h, named, run, drive.history, Unlink(tmp), known);
          drive.RemoveFile(tmp);
        }
      }
    }
  }

  // ----- Reading and restoring --------------------------------------------------------------

  /** An intact replica of what the target's manifest names for `p`. */
  predicate Intact(h: Bytes -> Digest, r: Replica, p: Path, expected: Digest) {
    && p in r.manifest && !r.manifest[p].tombstone && r.manifest[p].hash == expected
    && VerifyHash(h, r.disk, p, expected)
  }

  /** Drive `d` has an intact replica, and the device lets it through. */
  predicate Delivers(h: Bytes -> Digest, f: Fleet, p: Path, id: DriveId, d: DriveId, fault: Fault) {
    && d != id && d in f && id in f && p in f[id].manifest && Intact(h, f[d], p, f[id].manifest[p].hash)
    && WriteStage(h, Held(f[d].disk, p), fault).Recorded?
  }

  /** On success the bytes the manifest names are back and the mark is gone; otherwise the manifest is
      as it was, and the file is, or holds what the manifest names. No other file has changed, and
      no row stays open. */
  ghost predicate Restored(h: Bytes -> Digest, p: Path, before: Snapshot, after: Snapshot, ok: bool)
    requires p in before.manifest
  {
    var entry := before.manifest[p];
    && after.manifest == (if ok then before.manifest[p := entry.(corrupted := false)] else before.manifest)
    && (VerifyHash(h, after.disk, p, entry.hash) || (!ok && Lookup(after.disk, p) == Lookup(before.disk, p)))
    && (forall q :: q != p && q != Tmp(p) ==> Lookup(after.disk, q) == Lookup(before.disk, q))
    && (NothingPending(before.log) ==> NothingPending(after.log))
  }

  /** One attempt after another, in id order, until a replica gets through. */
  method RestoreFromReplica(
    h: Bytes -> Digest, p: Path, id: DriveId, drives: map<DriveId, Drive>, faults: DriveId -> Fault)
    returns (ok: bool)
    requires Wired(drives)
    modifies if id in drives then {drives[id]} else {}
    ensures Wired(drives)
    ensures ok == exists d :: Delivers(h, old(FleetOf(drives)), p, id, d, faults(d))
    ensures id in drives && p in old(drives[id].manifest) ==>
      Restored(h, p, old(drives[id].Now()), drives[id].Now(), ok)
    ensures id in drives && p !in old(drives[id].manifest) ==> drives[id].Now() == old(drives[id].Now())
  {
    hide *;
    ghost var f := FleetOf(drives);
    AllShown(drives);
    SomeDelivers(h, f, p, id, faults);
    ok := false;
    if id in drives {
      Tracks(drives[id].manifest, p);
      var meta := drives[id].GetFile(p);
      if meta.Some? {
        var ids := Sorted(drives.Keys);
        ok := TryEach(h, p, id, meta.value, ids, drives, faults, f);
        forall d | d in drives
          ensures drives[d].Valid()
        {
        }
        StillWired(drives);
      }
    }
  }

  lemma Tracks(m: Manifest, p: Path)
    ensures Lookup(m, p).Some? <==> p in m
  {
  }

  /** Only a drive of the fleet can deliver, and only for a tracked path. */
  lemma SomeDelivers(h: Bytes -> Digest, f: Fleet, p: Path, id: DriveId, faults: DriveId -> Fault)
    ensures (exists d :: Delivers(h, f, p, id, d, faults(d)))
      <==> id in f && p in f[id].manifest && exists d :: d in f && Delivers(h, f, p, id, d, faults(d))
  {
  }

  method TryEach(
    h: Bytes -> Digest, p: Path, id: DriveId, entry: Meta, ids: seq<DriveId>, drives: map<DriveId, Drive>,
    faults: DriveId -> Fault, ghost f: Fleet)
    returns (ok: bool)
    requires id in drives && (forall d :: d in ids ==> d in drives)
    requires forall d :: d in drives ==> drives[d].Valid() && (d != id ==> drives[d] != drives[id])
    requires f.Keys == drives.Keys && forall d :: d in drives ==> f[d] == Replica(drives[d].disk, drives[d].manifest)
    requires Lookup(f[id].manifest, p) == Some(entry)
    modifies drives[id]
    ensures drives[id].Valid()
    ensures ok == exists d :: d in ids && Delivers(h, f, p, id, d, faults(d))
    ensures Restored(h, p, old(drives[id].Now()), drives[id].Now(), ok)
  {
    hide Delivers;
    hide Restored;
    hide Intact;
    hide WriteStage;
    hide Held;
    var target := drives[id];
    ghost var before := target.Now();
    NotYetRestored(h, p, before);
    for i := 0 to |ids|
      invariant target.Valid() && Restored(h, p, before, target.Now(), false)
      invariant forall k :: 0 <= k < i ==> !Delivers(h, f, p, id, ids[k], faults(ids[k]))
    {
      var d := ids[i];
      assert d in ids;
      DeliversIf(h, f, p, id, d, faults(d));
      if d != id {
        ok := Attempt(h, p, entry, drives[d], target, faults(d), before);
        if ok {
          return true;
        }
      }
    }
    return false;
  }

  lemma DeliversIf(h: Bytes -> Digest, f: Fleet, p: Path, id: DriveId, d: DriveId, fault: Fault)
    requires d in f && id in f && p in f[id].manifest
    ensures Delivers(h, f, p, id, d, fault)
      <==> d != id && Intact(h, f[d], p, f[id].manifest[p].hash) && WriteStage(h, Held(f[d].disk, p), fault).Recorded?
  {
  }

  lemma NotYetRestored(h: Bytes -> Digest, p: Path, s: Snapshot)
    requires p in s.manifest
    ensures Restored(h, p, s, s, false)
  {
  }

  /** One replica: written to the target if it is intact. */
  method Attempt(
    h: Bytes -> Digest, p: Path, entry: Meta, source: Drive, target: Drive, fault: Fault, ghost before: Snapshot)
    returns (ok: bool)
    requires source.Valid() && target.Valid() && source != target
    requires Lookup(before.manifest, p) == Some(entry) && Restored(h, p, before, target.Now(), false)
    modifies target
    ensures target.Valid()
    ensures var s := Replica(source.disk, source.manifest);
      ok == (Intact(h, s, p, entry.hash) && WriteStage(h, Held(s.disk, p), fault).Recorded?)
    ensures Restored(h, p, before, target.Now(), ok)
  {
    hide Traces;
    hide Continues;
    hide At;
    hide Restored;
    if !Intact(h, Replica(source.disk, source.manifest), p, entry.hash) {
      return false;
    }
    TmpIsTmp(p);
    ghost var now := target.Now();
    ok := AtomicWrite(h, source, p, target, p, entry.hash, entry.(corrupted := false), fault, iset{});
    RestoredAt(h, p, before, now, source.disk[p], fault);
  }

  lemma RestoredAt(h: Bytes -> Digest, p: Path, before: Snapshot, now: Snapshot, data: Bytes, fault: Fault)
    requires p in before.manifest && h(data) == before.manifest[p].hash && Restored(h, p, before, now, false)
    ensures var stage := WriteStage(h, data, fault);
      Restored(h, p, before, At(now, p, before.manifest[p].(corrupted := false), stage, true), stage.Recorded?)
  {
    var stage := WriteStage(h, data, fault);
    var after := At(now, p, before.manifest[p].(corrupted := false), stage, true);
    TmpIsTmp(p);
    assert Lookup(after.disk, p) == Lookup(now.disk, p) || VerifyHash(h, after.disk, p, h(data));
  }

  /** Verification on read: false exactly when the tracked bytes do not match, and then the entry is
      marked corrupted. */
  method ReadFileVerified(h: Bytes -> Digest, p: Path, drive: Drive) returns (ok: bool)
    requires drive.Valid()
    modifies drive
    ensures drive.Valid() && drive.disk == old(drive.disk)
    ensures var m := old(drive.manifest);
      && ok == (InMetadataDir(p) || p !in m || VerifyHash(h, drive.disk, p, m[p].hash))
      && drive.manifest == if ok then m else m[p := m[p].(corrupted := true)]
  {
    if InMetadataDir(p) {
      return true;
    }
    var meta := drive.GetFile(p);
    if meta.None? || VerifyHash(h, drive.disk, p, meta.value.hash) {
      return true;
    }
    drive.UpsertFile(p, meta.value.(corrupted := true));
    return false;
  }

  predicate InMetadataDir(p: Path) {
    p == ".caravault" || (|p| > 10 && p[..10] == ".caravault" && p[10] == '/')
  }
}
