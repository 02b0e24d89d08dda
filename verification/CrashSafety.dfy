/** The write protocol of the executor as single steps, recovery from the transaction log, and what
    a drive can hold after crashes between any two steps. */
module CrashSafety {
  import opened Base
  import opened SyncOps
  import opened Drives

  const SUFFIX := ".caravault.tmp"

  function Tmp(p: Path): Path {
    p + SUFFIX
  }

  predicate IsTmp(p: Path) {
    |p| >= |SUFFIX| && p[|p| - |SUFFIX|..] == SUFFIX
  }

  lemma TmpIsTmp(p: Path)
    ensures IsTmp(Tmp(p)) && Tmp(p) != p
  {
    assert |Tmp(p)| > |p|;
  }

  // ----- Recovery ---------------------------------------------------------------------------

  /** The tmp file holds exactly what the manifest names for the target. */
  predicate TmpIsNamed(h: Bytes -> Digest, s: Snapshot, p: Path) {
    && p in s.manifest && s.manifest[p].hash != ""
    && Tmp(p) in s.disk && h(s.disk[Tmp(p)]) == s.manifest[p].hash
  }

  /** What recovery does to the files of one logged operation before it closes the row. Nothing can be
      renamed to a path that is `stuck`, such as a directory. */
  function RecoverFiles(h: Bytes -> Digest, stuck: Path -> bool, s: Snapshot, row: LogRow): Snapshot {
    if row.kind != LogWrite || Tmp(row.path) !in s.disk then s
    else if TmpIsNamed(h, s, row.path) && !stuck(row.path) then Moved(s, Tmp(row.path), row.path)
    else Unlinked(s, Tmp(row.path))
  }

  function RecoverRow(h: Bytes -> Digest, stuck: Path -> bool, s: Snapshot, id: nat): (r: Snapshot)
    requires id < |s.log|
    ensures |r.log| == |s.log|
  {
    Completed(RecoverFiles(h, stuck, s, s.log[id]), id)
  }

  function RecoverRows(h: Bytes -> Digest, stuck: Path -> bool, s: Snapshot, ids: seq<nat>): Snapshot
    requires forall i :: 0 <= i < |ids| ==> ids[i] < |s.log|
    decreases |ids|
  {
    if ids == [] then s else RecoverRows(h, stuck, RecoverRow(h, stuck, s, ids[0]), ids[1..])
  }

  lemma {:induction false} IncompleteInRange(log: seq<LogRow>, n: nat)
    requires n <= |log|
    ensures forall i :: 0 <= i < |Incomplete(log, n)| ==> Incomplete(log, n)[i] < n
  {
    if n > 0 {
      IncompleteInRange(log, n - 1);
    }
  }

  function Recover(h: Bytes -> Digest, stuck: Path -> bool, s: Snapshot): Snapshot {
    IncompleteInRange(s.log, |s.log|);
    RecoverRows(h, stuck, s, Incomplete(s.log, |s.log|))
  }

  predicate NothingPending(log: seq<LogRow>) {
    forall i :: 0 <= i < |log| ==> log[i].completed
  }

  // ----- One write, crashed anywhere --------------------------------------------------------

  /** How far one write has come. `Filling` holds whatever the tmp file contains at that moment. */
  datatype Stage = Opened | Filling(tmp: Bytes) | Swept | Replaced(data: Bytes) | Recorded(data: Bytes)

  function At(s0: Snapshot, to: Path, meta: Meta, stage: Stage, closed: bool): Snapshot {
    var disk := match stage
      case Opened => s0.disk
      case Filling(x) => s0.disk[Tmp(to) := x]
      case Swept => s0.disk - {Tmp(to)}
      case Replaced(b) => (s0.disk - {Tmp(to)})[to := b]
      case Recorded(b) => (s0.disk - {Tmp(to)})[to := b];
    Snapshot(disk,
             if stage.Recorded? then s0.manifest[to := meta] else s0.manifest,
             s0.log + [LogRow(LogWrite, to, closed)])
  }

  /** The protocol's steps in terms of its stages. */
  lemma Protocol(s0: Snapshot, to: Path, meta: Meta, x: Bytes)
    ensures Begun(s0, LogWrite, to) == At(s0, to, meta, Opened, false)
    ensures Written(At(s0, to, meta, Opened, false), Tmp(to), x) == At(s0, to, meta, Filling(x), false)
    ensures Moved(At(s0, to, meta, Filling(x), false), Tmp(to), to) == At(s0, to, meta, Replaced(x), false)
    ensures Upserted(At(s0, to, meta, Replaced(x), false), to, meta) == At(s0, to, meta, Recorded(x), false)
  {
    TmpIsTmp(to);
    assert s0.disk[Tmp(to) := x] - {Tmp(to)} == s0.disk - {Tmp(to)};
  }

  lemma Filled(s0: Snapshot, to: Path, meta: Meta, x: Bytes)
    ensures var s := At(s0, to, meta, Filling(x), false);
      Tmp(to) in s.disk && s.disk[Tmp(to)] == x
  {
  }

  lemma Sweeping(s0: Snapshot, to: Path, meta: Meta, stage: Stage)
    ensures var swept := if stage.Replaced? || stage.Recorded? then stage else Swept;
      Unlinked(At(s0, to, meta, stage, false), Tmp(to)) == At(s0, to, meta, swept, false)
  {
    TmpIsTmp(to);
    var disk := At(s0, to, meta, stage, false).disk;
    var swept := if stage.Replaced? || stage.Recorded? then stage else Swept;
    assert disk - {Tmp(to)} == At(s0, to, meta, swept, false).disk;
  }

  lemma Closing(s0: Snapshot, to: Path, meta: Meta, stage: Stage)
    ensures |At(s0, to, meta, stage, false).log| == |s0.log| + 1
    ensures At(s0, to, meta, stage, true).log == s0.log + [LogRow(LogWrite, to, true)]
    ensures Completed(At(s0, to, meta, stage, false), |s0.log|) == At(s0, to, meta, stage, true)
  {
    var log := At(s0, to, meta, stage, false).log;
    assert log[|s0.log| := log[|s0.log|].(completed := true)] == s0.log + [LogRow(LogWrite, to, true)];
  }

  /** While `data` is being written, the tmp file holds some beginning of it, or anything at all if
      the device is `torn`. Only bytes verified against its digest are ever renamed over the target,
      and the log row is not closed before the tmp file is gone. */
  predicate Allowed(h: Bytes -> Digest, data: Bytes, torn: bool, stage: Stage, closed: bool) {
    match stage
    case Opened => !closed
    case Filling(x) => !closed && (torn || x <= data)
    case Swept => true
    case Replaced(b) => h(b) == h(data)
    case Recorded(b) => h(b) == h(data)
  }

  /** A state in which one write of `data` to `to` that began in `s0` can be interrupted. */
  ghost predicate Interrupted(
    h: Bytes -> Digest, s0: Snapshot, to: Path, data: Bytes, torn: bool, meta: Meta, t: Snapshot)
  {
    t == s0 || exists stage, closed :: Allowed(h, data, torn, stage, closed) && t == At(s0, to, meta, stage, closed)
  }

  /** What is sure of the target before any write: nothing is pending, and there is no stale tmp file. */
  ghost predicate ReadyFor(s0: Snapshot, to: Path) {
    NothingPending(s0.log) && Tmp(to) !in s0.disk
  }

  /** No other bytes have the digest of `b`. */
  ghost predicate OnlyPreimage(h: Bytes -> Digest, b: Bytes) {
    forall x :: h(x) == h(b) ==> x == b
  }

  /** The target holds its old bytes with its old entry, the intended bytes with the old entry, or
      the intended bytes with the new entry; nothing else on the drive differs. */
  ghost predicate OneOfThree(s0: Snapshot, to: Path, data: Bytes, meta: Meta, r: Snapshot) {
    || (r.disk == s0.disk && r.manifest == s0.manifest)
    || (r.disk == s0.disk[to := data] && r.manifest == s0.manifest)
    || (r.disk == s0.disk[to := data] && r.manifest == s0.manifest[to := meta])
  }

  /** `x` can stand in the tmp file half way, is what the target's old entry names, and is neither
      what the target holds nor what it is to hold: recovery takes it for the outcome. */
  ghost predicate Resurfaces(h: Bytes -> Digest, s0: Snapshot, to: Path, data: Bytes, torn: bool, x: Bytes) {
    && (torn || x <= data) && x != data && Lookup(s0.disk, to) != Some(x)
    && to in s0.manifest && s0.manifest[to].hash != "" && h(x) == s0.manifest[to].hash
  }

  lemma {:induction false} NoneIncomplete(log: seq<LogRow>, n: nat)
    requires n <= |log| && forall i :: 0 <= i < n ==> log[i].completed
    ensures Incomplete(log, n) == []
  {
    if n > 0 {
      NoneIncomplete(log, n - 1);
    }
  }

  /** A crash at any step of a write, followed by recovery, leaves no tmp file, an empty pending log
      and one of three outcomes, or the bytes of the old entry resurfaced. */
  lemma CrashOutcome(
    h: Bytes -> Digest, stuck: Path -> bool, s0: Snapshot, to: Path, data: Bytes, torn: bool, meta: Meta, t: Snapshot)
    requires ReadyFor(s0, to) && OnlyPreimage(h, data) && Interrupted(h, s0, to, data, torn, meta, t)
    ensures var r := Recover(h, stuck, t);
      && Tmp(to) !in r.disk && NothingPending(r.log)
      && (|| OneOfThree(s0, to, data, meta, r)
          || (r.manifest == s0.manifest
              && !stuck(to) && exists x :: Resurfaces(h, s0, to, data, torn, x) && r.disk == s0.disk[to := x]))
  {
    TmpIsTmp(to);
    if t == s0 {
      NoneIncomplete(s0.log, |s0.log|);
    } else {
      var stage, closed :| Allowed(h, data, torn, stage, closed) && t == At(s0, to, meta, stage, closed);
      StageOutcome(h, stuck, s0, to, data, torn, meta, stage, closed);
    }
  }

  lemma StageOutcome(
    h: Bytes -> Digest, stuck: Path -> bool, s0: Snapshot, to: Path, data: Bytes, torn: bool, meta: Meta, stage: Stage, closed: bool)
    requires ReadyFor(s0, to) && OnlyPreimage(h, data) && Allowed(h, data, torn, stage, closed)
    ensures var r := Recover(h, stuck, At(s0, to, meta, stage, closed));
      && Tmp(to) !in r.disk && NothingPending(r.log)
      && (|| OneOfThree(s0, to, data, meta, r)
          || (r.manifest == s0.manifest && stage.Filling? && !stuck(to)
              && Resurfaces(h, s0, to, data, torn, stage.tmp) && r.disk == s0.disk[to := stage.tmp]))
  {
    hide Recover;
    hide RecoverRow;
    hide Resurfaces;
    TmpIsTmp(to);
    assert s0.disk - {Tmp(to)} == s0.disk;
    RecoverOnly(h, stuck, s0, to, meta, stage, closed);
    if !closed {
      RowRecovered(h, stuck, s0, to, meta, stage);
      if stage.Filling? {
        FillingOutcome(h, stuck, s0, to, data, torn, meta, stage.tmp);
      }
    }
  }

  /** Recovery has one row to work on if the write had not closed its own, and else none. */
  lemma RecoverOnly(h: Bytes -> Digest, stuck: Path -> bool, s0: Snapshot, to: Path, meta: Meta, stage: Stage, closed: bool)
    requires NothingPending(s0.log)
    ensures var t := At(s0, to, meta, stage, closed);
      && |t.log| == |s0.log| + 1
      && (closed ==> NothingPending(t.log))
      && Recover(h, stuck, t) == if closed then t else RecoverRow(h, stuck, t, |s0.log|)
  {
    hide RecoverRow;
    var t := At(s0, to, meta, stage, closed);
    var last := |s0.log|;
    NoneIncomplete(t.log, last);
    if closed {
      NoneIncomplete(t.log, last + 1);
    } else {
      assert Incomplete(t.log, last + 1) == [last];
      var r := RecoverRow(h, stuck, t, last);
      assert RecoverRows(h, stuck, t, [last]) == RecoverRows(h, stuck, r, []) == r;
    }
  }

  lemma RowRecovered(h: Bytes -> Digest, stuck: Path -> bool, s0: Snapshot, to: Path, meta: Meta, stage: Stage)
    requires NothingPending(s0.log)
    ensures var t := At(s0, to, meta, stage, false);
      var r := RecoverRow(h, stuck, t, |s0.log|);
      && NothingPending(r.log)
      && r.disk == RecoverFiles(h, stuck, t, LogRow(LogWrite, to, false)).disk
      && r.manifest == RecoverFiles(h, stuck, t, LogRow(LogWrite, to, false)).manifest
      && Tmp(to) !in r.disk
  {
    TmpIsTmp(to);
  }

  /** An interrupted tmp file is moved into place if and only if the old entry names it. */
  lemma FillingOutcome(h: Bytes -> Digest, stuck: Path -> bool, s0: Snapshot, to: Path, data: Bytes, torn: bool, meta: Meta, x: Bytes)
    requires ReadyFor(s0, to) && OnlyPreimage(h, data) && (torn || x <= data)
    ensures var r := RecoverFiles(h, stuck, At(s0, to, meta, Filling(x), false), LogRow(LogWrite, to, false));
      && r.manifest == s0.manifest
      && (r.disk == s0.disk || r.disk == s0.disk[to := data]
          || (Resurfaces(h, s0, to, data, torn, x) && !stuck(to) && r.disk == s0.disk[to := x]))
      && (Resurfaces(h, s0, to, data, torn, x) && !stuck(to) ==> r.disk == s0.disk[to := x])
  {
    TmpIsTmp(to);
    var t := At(s0, to, meta, Filling(x), false);
    assert t.disk - {Tmp(to)} == s0.disk;
    if TmpIsNamed(h, t, to) && Lookup(s0.disk, to) == Some(x) {
      assert s0.disk[to := x] == s0.disk;
    }
  }

  /** A crash can lead to more than the three outcomes if and only if files can be renamed to the target
      and some bytes can resurface: on a sound device, if and only if the entry of a file that is
      missing or altered names a beginning of the new contents. */
  lemma FourthOutcome(h: Bytes -> Digest, stuck: Path -> bool, s0: Snapshot, to: Path, data: Bytes, torn: bool, meta: Meta)
    requires ReadyFor(s0, to) && OnlyPreimage(h, data)
    ensures (exists t :: Interrupted(h, s0, to, data, torn, meta, t) && !OneOfThree(s0, to, data, meta, Recover(h, stuck, t)))
      <==> !stuck(to) && exists x :: Resurfaces(h, s0, to, data, torn, x)
  {
    hide Recover;
    hide Interrupted;
    if t :| Interrupted(h, s0, to, data, torn, meta, t) && !OneOfThree(s0, to, data, meta, Recover(h, stuck, t)) {
      CrashOutcome(h, stuck, s0, to, data, torn, meta, t);
    }
    if x :| !stuck(to) && Resurfaces(h, s0, to, data, torn, x) {
      Resurfacing(h, stuck, s0, to, data, torn, meta, x);
    }
  }

  lemma Resurfacing(h: Bytes -> Digest, stuck: Path -> bool, s0: Snapshot, to: Path, data: Bytes, torn: bool, meta: Meta, x: Bytes)
    requires ReadyFor(s0, to) && OnlyPreimage(h, data) && Resurfaces(h, s0, to, data, torn, x) && !stuck(to)
    ensures var t := At(s0, to, meta, Filling(x), false);
      Interrupted(h, s0, to, data, torn, meta, t) && !OneOfThree(s0, to, data, meta, Recover(h, stuck, t))
  {
    hide Recover;
    hide RecoverRow;
    var t := At(s0, to, meta, Filling(x), false);
    assert Allowed(h, data, torn, Filling(x), false);
    RecoverOnly(h, stuck, s0, to, meta, Filling(x), false);
    RowRecovered(h, stuck, s0, to, meta, Filling(x));
    FillingOutcome(h, stuck, s0, to, data, torn, meta, x);
    var r := Recover(h, stuck, t);
    assert r.disk == s0.disk[to := x] && r.disk[to] == x;
  }

  /** Where the old entry is silent, names the bytes that are there or those that are to be there,
      the three outcomes are all. */
  lemma KnownTargetIsSafe(
    h: Bytes -> Digest, stuck: Path -> bool, s0: Snapshot, to: Path, data: Bytes, torn: bool, meta: Meta, t: Snapshot)
    requires ReadyFor(s0, to) && OnlyPreimage(h, data) && (to in s0.disk ==> OnlyPreimage(h, s0.disk[to]))
    requires to in s0.manifest ==>
      || s0.manifest[to].hash == h(data)
      || (to in s0.disk && s0.manifest[to].hash == h(s0.disk[to]))
    requires Interrupted(h, s0, to, data, torn, meta, t)
    ensures OneOfThree(s0, to, data, meta, Recover(h, stuck, t))
  {
    hide Recover;
    hide Interrupted;
    CrashOutcome(h, stuck, s0, to, data, torn, meta, t);
  }

  // ----- Recovery cut short -----------------------------------------------------------------

  lemma {:induction false} ClosedOne(log: seq<LogRow>, n: nat, id: nat)
    requires n <= |log| && id < |log|
    requires Incomplete(log, n) != [] ==> Incomplete(log, n)[0] == id
    ensures var closed := log[id := log[id].(completed := true)];
      Incomplete(closed, n) == if Incomplete(log, n) == [] then [] else Incomplete(log, n)[1..]
  {
    if n > 0 {
      IncompleteInRange(log, n - 1);
      ClosedOne(log, n - 1, id);
    }
  }

  /** Recovery may itself be cut off, after the files of a row or after its closing: recovering from
      there ends where recovery would have ended, whatever the log holds. */
  lemma RecoveryCanBeInterrupted(h: Bytes -> Digest, stuck: Path -> bool, s: Snapshot)
    requires Incomplete(s.log, |s.log|) != []
    ensures var ids := Incomplete(s.log, |s.log|);
      && ids[0] < |s.log|
      && var files, next := RecoverFiles(h, stuck, s, s.log[ids[0]]), RecoverRow(h, stuck, s, ids[0]);
         && Recover(h, stuck, files) == Recover(h, stuck, s) && Recover(h, stuck, next) == Recover(h, stuck, s)
         && Incomplete(next.log, |next.log|) == ids[1..]
  {
    IncompleteInRange(s.log, |s.log|);
    var ids := Incomplete(s.log, |s.log|);
    var row := s.log[ids[0]];
    TmpIsTmp(row.path);
    ClosedOne(s.log, |s.log|, ids[0]);
    var files := RecoverFiles(h, stuck, s, row);
    assert RecoverFiles(h, stuck, files, row) == files;
    assert files.log == s.log;
  }

  /** Recovery repairs nothing but interrupted writes: an open row of a removal or a rename is closed,
      and files and entries stay as the crash or the failure left them. */
  lemma {:induction false} RecoveryOnlyCloses(h: Bytes -> Digest, stuck: Path -> bool, s: Snapshot)
    requires forall i :: 0 <= i < |s.log| && !s.log[i].completed ==> s.log[i].kind != LogWrite
    ensures var r := Recover(h, stuck, s);
      r.disk == s.disk && r.manifest == s.manifest && NothingPending(r.log)
    decreases |Incomplete(s.log, |s.log|)|
  {
    var ids := Incomplete(s.log, |s.log|);
    if ids == [] {
      OpenIsIncomplete(s.log, |s.log|);
    } else {
      RecoveryCanBeInterrupted(h, stuck, s);
      FirstIsOpen(s.log, |s.log|);
      RecoveryOnlyCloses(h, stuck, RecoverRow(h, stuck, s, ids[0]));
    }
  }

  lemma {:induction false} OpenIsIncomplete(log: seq<LogRow>, n: nat)
    requires n <= |log| && Incomplete(log, n) == []
    ensures forall i :: 0 <= i < n ==> log[i].completed
  {
    if n > 0 {
      OpenIsIncomplete(log, n - 1);
    }
  }

  lemma {:induction false} FirstIsOpen(log: seq<LogRow>, n: nat)
    requires n <= |log| && Incomplete(log, n) != []
    ensures Incomplete(log, n)[0] < n && !log[Incomplete(log, n)[0]].completed
  {
    if Incomplete(log, n - 1) != [] {
      FirstIsOpen(log, n - 1);
    }
  }

  /** The manifest never names the new bytes through the new entry before the disk holds them. */
  lemma EntryFollowsBytes(
    h: Bytes -> Digest, s0: Snapshot, to: Path, data: Bytes, torn: bool, meta: Meta, t: Snapshot)
    requires Interrupted(h, s0, to, data, torn, meta, t) && t.manifest != s0.manifest
    ensures to in t.disk && h(t.disk[to]) == h(data) && t.manifest == s0.manifest[to := meta]
  {
    var stage, closed :| Allowed(h, data, torn, stage, closed) && t == At(s0, to, meta, stage, closed);
  }

  // ----- Whole runs -------------------------------------------------------------------------

  /** One step of a drive's history. A crash is a history that stops between two steps. */
  datatype Step =
    | Log(kind: LogKind, path: Path)
    | Close(id: nat)
    | Fill(target: Path, tmp: Bytes)
    | Commit(target: Path)
    | Unlink(path: Path)
    | Rename(from: Path, to: Path)
    | Record(path: Path, entry: Meta)
    | Forget(path: Path)

  /** Anything at all may be written to a tmp file, but it is moved into place only once its digest
      is a named one; the other steps touch tracked files and name known digests. */
  ghost predicate Enabled(h: Bytes -> Digest, named: iset<Digest>, s: Snapshot, step: Step) {
    match step
    case Log(kind, p) => kind == LogWrite ==> !IsTmp(p)
    case Close(id) => id < |s.log|
    case Fill(_, _) => true
    case Commit(p) => Tmp(p) in s.disk && h(s.disk[Tmp(p)]) in named
    case Unlink(_) => true
    case Rename(p, q) => p in s.disk && !IsTmp(p) && !IsTmp(q)
    case Record(_, m) => m.hash == "" || m.hash in named
    case Forget(_) => true
  }

  ghost function Next(h: Bytes -> Digest, named: iset<Digest>, s: Snapshot, step: Step): Snapshot
    requires Enabled(h, named, s, step)
  {
    match step
    case Log(kind, p) => Begun(s, kind, p)
    case Close(id) => Completed(s, id)
    case Fill(p, x) => Written(s, Tmp(p), x)
    case Commit(p) => Moved(s, Tmp(p), p)
    case Unlink(p) => Unlinked(s, p)
    case Rename(p, q) => Moved(s, p, q)
    case Record(p, m) => Upserted(s, p, m)
    case Forget(p) => Dropped(s, p)
  }

  ghost predicate DriveStep(h: Bytes -> Digest, named: iset<Digest>, s: Snapshot, t: Snapshot) {
    exists step :: Enabled(h, named, s, step) && t == Next(h, named, s, step)
  }

  /** Every tracked file is complete: bytes from the start, or bytes a manifest named at the start. */
  ghost predicate NoTornFiles(
    h: Bytes -> Digest, named: iset<Digest>, originals: iset<Bytes>, s: Snapshot)
  {
    && (forall p :: p in s.disk && !IsTmp(p) ==> s.disk[p] in originals || h(s.disk[p]) in named)
    && (forall p :: p in s.manifest ==> s.manifest[p].hash == "" || s.manifest[p].hash in named)
  }

  ghost predicate IsHistory(h: Bytes -> Digest, named: iset<Digest>, run: seq<Snapshot>) {
    forall k :: 0 <= k < |run| - 1 ==> DriveStep(h, named, run[k], run[k + 1])
  }

  lemma StepKeepsFilesWhole(
    h: Bytes -> Digest, named: iset<Digest>, originals: iset<Bytes>, s: Snapshot, t: Snapshot)
    requires NoTornFiles(h, named, originals, s) && DriveStep(h, named, s, t)
    ensures NoTornFiles(h, named, originals, t)
  {
    var step :| Enabled(h, named, s, step) && t == Next(h, named, s, step);
    if step.Fill? {
      TmpIsTmp(step.target);
    }
    forall p | p in t.disk && !IsTmp(p)
      ensures t.disk[p] in originals || h(t.disk[p]) in named
    {
    }
  }

  /** Over a whole run of writes, removals, renames, crashes and recoveries, in any interleaving, no
      tracked path is ever seen with torn bytes. */
  lemma {:induction false} NoTornFilesOverRuns(
    h: Bytes -> Digest, named: iset<Digest>, originals: iset<Bytes>, run: seq<Snapshot>, k: nat)
    requires IsHistory(h, named, run) && k < |run| && NoTornFiles(h, named, originals, run[0])
    ensures NoTornFiles(h, named, originals, run[k])
  {
    if k > 0 {
      NoTornFilesOverRuns(h, named, originals, run, k - 1);
      StepKeepsFilesWhole(h, named, originals, run[k - 1], run[k]);
    }
  }

  /** `later` continues the history `run`. */
  ghost predicate Continues(h: Bytes -> Digest, named: iset<Digest>, run: seq<Snapshot>, later: seq<Snapshot>) {
    && run != [] && run <= later
    && forall k :: |run| - 1 <= k < |later| - 1 ==> DriveStep(h, named, later[k], later[k + 1])
  }

  lemma ContinuesOne(
    h: Bytes -> Digest, named: iset<Digest>, run: seq<Snapshot>, later: seq<Snapshot>, t: Snapshot)
    requires Continues(h, named, run, later) && DriveStep(h, named, later[|later| - 1], t)
    ensures Continues(h, named, run, later + [t])
  {
    hide DriveStep;
  }

  lemma Stepped(h: Bytes -> Digest, named: iset<Digest>, s: Snapshot, step: Step)
    requires Enabled(h, named, s, step)
    ensures DriveStep(h, named, s, Next(h, named, s, step))
  {
  }

  /** Rewriting one tmp file again and again is a history. */
  lemma FillingContinues(
    h: Bytes -> Digest, named: iset<Digest>, s: Snapshot, p: Path, data: Bytes, torn: bool,
    run: seq<Snapshot>, later: seq<Snapshot>)
    requires run != [] && run[|run| - 1] == s && run <= later
    requires forall k :: |run| <= k < |later| ==> TmpWritten(s, Tmp(p), data, torn, later[k])
    ensures Continues(h, named, run, later)
  {
    forall k | |run| - 1 <= k < |later| - 1
      ensures DriveStep(h, named, later[k], later[k + 1])
    {
      var y :| (torn || y <= data) && later[k + 1] == Written(s, Tmp(p), y);
      if k >= |run| {
        var x :| (torn || x <= data) && later[k] == Written(s, Tmp(p), x);
      } else {
        assert later[k] == run[k];
      }
      assert later[k + 1] == Written(later[k], Tmp(p), y);
      Stepped(h, named, later[k], Fill(p, y));
    }
  }

  lemma ContinuesTransitive(
    h: Bytes -> Digest, named: iset<Digest>, a: seq<Snapshot>, b: seq<Snapshot>, c: seq<Snapshot>)
    requires Continues(h, named, a, b) && Continues(h, named, b, c)
    ensures Continues(h, named, a, c)
  {
    hide DriveStep;
    forall k | |a| - 1 <= k < |c| - 1
      ensures DriveStep(h, named, c[k], c[k + 1])
    {
      if k < |b| - 1 {
        assert b[k] == c[k] && b[k + 1] == c[k + 1];
      }
    }
  }

  /** Every state added to `run` is one the write could be interrupted in. */
  ghost predicate Traces(
    h: Bytes -> Digest, s0: Snapshot, to: Path, data: Bytes, torn: bool, meta: Meta, run: seq<Snapshot>, later: seq<Snapshot>)
  {
    run <= later && forall k :: |run| <= k < |later| ==> Interrupted(h, s0, to, data, torn, meta, later[k])
  }

  lemma Idle(h: Bytes -> Digest, s0: Snapshot, to: Path, data: Bytes, torn: bool, meta: Meta, run: seq<Snapshot>)
    ensures Traces(h, s0, to, data, torn, meta, run, run)
    ensures run != [] ==> forall named :: Continues(h, named, run, run)
  {
  }

  lemma TracesOne(
    h: Bytes -> Digest, s0: Snapshot, to: Path, data: Bytes, torn: bool, meta: Meta,
    run: seq<Snapshot>, later: seq<Snapshot>, stage: Stage, closed: bool)
    requires Traces(h, s0, to, data, torn, meta, run, later) && Allowed(h, data, torn, stage, closed)
    ensures Traces(h, s0, to, data, torn, meta, run, later + [At(s0, to, meta, stage, closed)])
  {
    hide At;
  }

  /** `t` is `s` with some beginning of `data` in the tmp file, or with anything if the device is torn. */
  ghost predicate TmpWritten(s: Snapshot, tmp: Path, data: Bytes, torn: bool, t: Snapshot) {
    exists x :: (torn || x <= data) && t == Written(s, tmp, x)
  }

  lemma FillingTraces(
    h: Bytes -> Digest, s0: Snapshot, to: Path, data: Bytes, torn: bool, meta: Meta,
    run: seq<Snapshot>, mid: seq<Snapshot>, later: seq<Snapshot>)
    requires Traces(h, s0, to, data, torn, meta, run, mid) && mid <= later
    requires forall k :: |mid| <= k < |later| ==>
      TmpWritten(At(s0, to, meta, Opened, false), Tmp(to), data, torn, later[k])
    ensures Traces(h, s0, to, data, torn, meta, run, later)
  {
    forall k | |run| <= k < |later|
      ensures Interrupted(h, s0, to, data, torn, meta, later[k])
    {
      if k < |mid| {
        assert later[k] == mid[k];
      } else {
        var x :| (torn || x <= data) && later[k] == Written(At(s0, to, meta, Opened, false), Tmp(to), x);
        assert later[k] == At(s0, to, meta, Filling(x), false);
        assert Allowed(h, data, torn, Filling(x), false);
      }
    }
  }
}
