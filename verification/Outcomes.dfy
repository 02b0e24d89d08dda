/** What operations and recovery leave behind, spelled out for every path and every fault. */
module Outcomes {
  import opened Base
  import opened SyncOps
  import opened Drives
  import opened CrashSafety
  import opened Executor

  // ----- Operations -------------------------------------------------------------------------

  /** A copy is refused, without a trace, if the source's bytes are not what its manifest names or the
      directories cannot be made. Otherwise its row is closed whatever happens, the tmp file is gone,
      and the target has the bytes that arrived if they are complete, have the named digest and could
      be moved into place; it has the source's entry with the planned vector if that could be recorded too. */
  lemma CopyLeaves(h: Bytes -> Digest, f: Fleet, op: SyncOp, fault: Fault)
    requires op.target in f && (op.kind == COPY || op.kind == REPLACE)
    ensures var t, g := f[op.target], Suffered(h, f, op, fault)[op.target];
      if !(&& op.source in f && op.path in f[op.source].manifest && op.path in f[op.source].disk
           && h(f[op.source].disk[op.path]) == f[op.source].manifest[op.path].hash && fault != DirFails)
      then g == t && OutcomeOf(h, f, op, fault).rows == [] && !Reports(h, f, op, fault)
      else
        var data, entry := f[op.source].disk[op.path], f[op.source].manifest[op.path];
        var arrived := if fault.TmpDamaged? then fault.found else data;
        var moved :=
          h(arrived) == entry.hash && fault != RenameFails && !(fault.CopyStops? && fault.after < |data|);
        var tmp := op.path + ".caravault.tmp";
        && g.disk == (if moved then (t.disk - {tmp})[op.path := arrived] else t.disk - {tmp})
        && Reports(h, f, op, fault) == (moved && fault != UpsertFails)
        && g.manifest
           == (if moved && fault != UpsertFails then t.manifest[op.path := entry.(vv := op.vv)] else t.manifest)
        && OutcomeOf(h, f, op, fault).rows == [LogRow(LogWrite, op.path, true)]
  {
  }

  /** A removal takes the file away if the device lets it, and fails only if the tombstone cannot be
      recorded: then the file is gone all the same, and the row stays open. */
  lemma RemoveLeaves(h: Bytes -> Digest, f: Fleet, op: SyncOp, fault: Fault)
    requires op.target in f && op.kind == REMOVE
    ensures var t, g, recorded := f[op.target], Suffered(h, f, op, fault)[op.target], fault != UpsertFails;
      && g.disk == (if fault == UnlinkFails then t.disk else t.disk - {op.path})
      && g.manifest.Keys == (if recorded then t.manifest.Keys + {op.path} else t.manifest.Keys)
      && (forall q :: q in t.manifest && (q != op.path || !recorded) ==> g.manifest[q] == t.manifest[q])
      && (recorded ==> var m := g.manifest[op.path];
            && m.tombstone && m.vv == op.vv
            && if op.path in t.manifest then m == t.manifest[op.path].(tombstone := true, vv := op.vv)
               else m.hash == "" && m.size == 0 && m.mtime == 0 && !m.corrupted && m.inode == None)
      && Reports(h, f, op, fault) == recorded
      && OutcomeOf(h, f, op, fault).rows == [LogRow(LogDelete, op.path, recorded)]
  {
  }

  /** A rename moves the file if there is one and the device lets it. The entry moves along and takes the
      planned vector; if it cannot be recorded under the new name it is lost, and the row stays open. */
  lemma RenameLeaves(h: Bytes -> Digest, f: Fleet, op: SyncOp, fault: Fault)
    requires op.target in f && op.kind == RENAME && op.newPath.Some?
    ensures var t, g, q := f[op.target], Suffered(h, f, op, fault)[op.target], op.newPath.value;
      var moved := op.path in t.disk && fault != RenameFails && fault != DirFails;
      var lost := moved && op.path in t.manifest && fault == UpsertFails;
      && Reports(h, f, op, fault) == (moved && !lost)
      && OutcomeOf(h, f, op, fault).rows == [LogRow(LogRename, op.path, !lost)]
      && (forall p :: Lookup(g.disk, p) ==
            if moved && p == q then Some(t.disk[op.path]) else if moved && p == op.path then None else Lookup(t.disk, p))
      && (forall p :: Lookup(g.manifest, p) ==
            if moved && op.path in t.manifest && !lost && p == q then Some(t.manifest[op.path].(vv := op.vv))
            else if moved && p == op.path then None
            else Lookup(t.manifest, p))
  {
  }

  /** The rest: making a directory fails where it cannot be made, a rename without a new name is refused,
      and neither changes a file or an entry. No operation changes another drive. */
  lemma NothingElse(h: Bytes -> Digest, f: Fleet, op: SyncOp, fault: Fault)
    ensures forall d :: d != op.target ==> Lookup(Suffered(h, f, op, fault), d) == Lookup(f, d)
    ensures op.kind == MKDIR || (op.kind == RENAME && op.newPath.None?) ==>
      && Suffered(h, f, op, fault) == f
      && Reports(h, f, op, fault) == (op.target in f && op.kind == MKDIR && fault != DirFails)
      && (op.target in f ==> OutcomeOf(h, f, op, fault).rows == [])
    ensures op.target !in f ==> Suffered(h, f, op, fault) == f && !Reports(h, f, op, fault)
  {
    if op.target in f {
      assert f[op.target := f[op.target]] == f;
    }
  }

  // ----- Recovery ---------------------------------------------------------------------------

  /** A write to `p` has been logged and not been closed. */
  predicate WriteIsOpen(log: seq<LogRow>, p: Path) {
    exists i :: 0 <= i < |log| && log[i] == LogRow(LogWrite, p, false)
  }

  /** The tmp file of `p` is what the manifest names for `p`, and can be moved there. */
  predicate CanFinish(h: Bytes -> Digest, stuck: Path -> bool, s: Snapshot, p: Path) {
    && p + ".caravault.tmp" in s.disk && p in s.manifest && s.manifest[p].hash != ""
    && h(s.disk[p + ".caravault.tmp"]) == s.manifest[p].hash && !stuck(p)
  }

  /** Open writes are to tracked paths, never to a tmp file. */
  predicate WritesAreTracked(log: seq<LogRow>) {
    forall i :: 0 <= i < |log| && log[i].kind == LogWrite && !log[i].completed ==> !IsTmp(log[i].path)
  }

  /** Recovery, path by path: a write left open is finished if its tmp file is what the manifest names, and
      thrown away if not; nothing is left open, and everything else is as it was. */
  lemma {:induction false} RecoveredAt(h: Bytes -> Digest, stuck: Path -> bool, s: Snapshot, p: Path)
    requires WritesAreTracked(s.log)
    ensures var r := Recover(h, stuck, s);
      && r.manifest == s.manifest && |r.log| == |s.log| && NothingPending(r.log)
      && (IsTmp(p) || Lookup(r.disk, p) ==
            if WriteIsOpen(s.log, p) && CanFinish(h, stuck, s, p) then Lookup(s.disk, p + ".caravault.tmp")
            else Lookup(s.disk, p))
      && Lookup(r.disk, p + ".caravault.tmp") ==
         if WriteIsOpen(s.log, p) then None else Lookup(s.disk, p + ".caravault.tmp")
    decreases |Incomplete(s.log, |s.log|)|
  {
    hide Recover;
    hide RecoverFiles;
    hide CanFinish;
    hide WriteIsOpen;
    hide WritesAreTracked;
    var ids := Incomplete(s.log, |s.log|);
    if ids == [] {
      OpenIsIncomplete(s.log, |s.log|);
      NothingToRecover(h, stuck, s);
      NoneOpen(s.log, p);
    } else {
      RecoveryCanBeInterrupted(h, stuck, s);
      FirstIsOpen(s.log, |s.log|);
      var next := RecoverRow(h, stuck, s, ids[0]);
      OpenIsTracked(s.log, ids[0]);
      RowRecoveredAt(h, stuck, s, ids[0], p);
      OneLessOpen(s.log, ids[0], p);
      RecoveredAt(h, stuck, next, p);
    }
  }

  lemma NoneOpen(log: seq<LogRow>, p: Path)
    requires NothingPending(log)
    ensures !WriteIsOpen(log, p)
  {
  }

  lemma OpenIsTracked(log: seq<LogRow>, id: nat)
    requires WritesAreTracked(log) && id < |log| && !log[id].completed
    ensures log[id].kind == LogWrite ==> !IsTmp(log[id].path)
  {
  }

  lemma OneLessOpen(log: seq<LogRow>, id: nat, p: Path)
    requires id < |log| && !log[id].completed
    ensures var closed := log[id := log[id].(completed := true)];
      && (WritesAreTracked(log) ==> WritesAreTracked(closed))
      && (WriteIsOpen(log, p) <==> WriteIsOpen(closed, p) || log[id] == LogRow(LogWrite, p, false))
  {
    var closed := log[id := log[id].(completed := true)];
    if i :| 0 <= i < |log| && i != id && log[i] == LogRow(LogWrite, p, false) {
      assert closed[i] == log[i];
    }
    if i :| 0 <= i < |log| && closed[i] == LogRow(LogWrite, p, false) {
      assert closed[i] == log[i];
    }
  }

  lemma RowRecoveredAt(h: Bytes -> Digest, stuck: Path -> bool, s: Snapshot, id: nat, p: Path)
    requires id < |s.log| && (s.log[id].kind == LogWrite ==> !IsTmp(s.log[id].path))
    ensures var r, mine := RecoverRow(h, stuck, s, id), s.log[id].kind == LogWrite && s.log[id].path == p;
      && r.manifest == s.manifest && r.log == s.log[id := s.log[id].(completed := true)]
      && (IsTmp(p) || Lookup(r.disk, p) ==
            if mine && CanFinish(h, stuck, s, p) then Lookup(s.disk, p + ".caravault.tmp") else Lookup(s.disk, p))
      && Lookup(r.disk, p + ".caravault.tmp") == (if mine then None else Lookup(s.disk, p + ".caravault.tmp"))
      && CanFinish(h, stuck, r, p) == (!mine && CanFinish(h, stuck, s, p))
  {
    if s.log[id].kind == LogWrite && s.log[id].path == p {
      OwnRow(h, stuck, s, id, p);
    } else {
      OtherRow(h, stuck, s, s.log[id], p);
    }
  }

  lemma OwnRow(h: Bytes -> Digest, stuck: Path -> bool, s: Snapshot, id: nat, p: Path)
    requires id < |s.log| && s.log[id].kind == LogWrite && s.log[id].path == p
    ensures var r := RecoverFiles(h, stuck, s, s.log[id]);
      && r.manifest == s.manifest && r.log == s.log && p + ".caravault.tmp" !in r.disk
      && Lookup(r.disk, p) ==
         if CanFinish(h, stuck, s, p) then Lookup(s.disk, p + ".caravault.tmp") else Lookup(s.disk, p)
  {
    TmpIsTmp(p);
  }

  lemma OtherRow(h: Bytes -> Digest, stuck: Path -> bool, s: Snapshot, row: LogRow, p: Path)
    requires row.kind == LogWrite ==> row.path != p && !IsTmp(row.path)
    ensures var r := RecoverFiles(h, stuck, s, row);
      && r.manifest == s.manifest && r.log == s.log && (IsTmp(p) || Lookup(r.disk, p) == Lookup(s.disk, p))
      && Lookup(r.disk, p + ".caravault.tmp") == Lookup(s.disk, p + ".caravault.tmp")
  {
    TmpIsTmp(p);
    TmpIsTmp(row.path);
    if row.path != p {
      assert Tmp(row.path)[..|row.path|] == row.path && Tmp(p)[..|p|] == p;
      assert Tmp(row.path) != Tmp(p);
    }
  }

  // ----- Reading and restoring --------------------------------------------------------------

  /** What a replica must be for a restore to succeed with it: another drive, on which the path is live with
      the wanted digest and the bytes have it, and a device that lets the whole write through. */
  lemma DeliversMeans(h: Bytes -> Digest, f: Fleet, p: Path, id: DriveId, d: DriveId, fault: Fault)
    ensures Delivers(h, f, p, id, d, fault)
      <==> (&& d != id && d in f && id in f && p in f[id].manifest && p in f[d].manifest && p in f[d].disk
            && !f[d].manifest[p].tombstone && f[d].manifest[p].hash == f[id].manifest[p].hash == h(f[d].disk[p])
            && match fault
               case NoFault => true
               case UnlinkFails => true
               case TmpDamaged(found) => h(found) == h(f[d].disk[p])
               case CopyStops(after) => |f[d].disk[p]| <= after
               case _ => false)
  {
  }

  /** A restore that succeeds puts back bytes of the named digest and takes away the mark; one that fails leaves every
      entry alone, and the file as it was or with the named bytes. No other file changes. */
  lemma RestoredMeans(h: Bytes -> Digest, p: Path, before: Snapshot, after: Snapshot, ok: bool, q: Path)
    requires p in before.manifest && Restored(h, p, before, after, ok)
    ensures q != p ==> Lookup(after.manifest, q) == Lookup(before.manifest, q)
    ensures q != p && q != p + ".caravault.tmp" ==> Lookup(after.disk, q) == Lookup(before.disk, q)
    ensures Lookup(after.manifest, p) == Some(if ok then before.manifest[p].(corrupted := false) else before.manifest[p])
    ensures p in after.disk && h(after.disk[p]) != before.manifest[p].hash ==> Lookup(before.disk, p) == Some(after.disk[p])
    ensures p !in after.disk ==> p !in before.disk
    ensures ok ==> p in after.disk && h(after.disk[p]) == before.manifest[p].hash
    ensures NothingPending(before.log) ==> NothingPending(after.log)
  {
  }

  /** The drives' own directory is the one path and what lies below it. */
  lemma OwnDirectory(p: Path)
    ensures InMetadataDir(p) <==> p == ".caravault" || ".caravault/" <= p
  {
    var own := ".caravault/";
    if own <= p {
      assert p[..11] == own;
      assert p[..10] == own[..10] == ".caravault";
    }
    if InMetadataDir(p) && p != ".caravault" {
      assert p[..11] == p[..10] + [p[10]] == own;
    }
  }
}
