/** One mounted drive: the files below its root and the manifest database kept on it. Every change
    that a crash can separate from the next one is one step of the drive's history. */
module Drives {
  import opened Base
  import opened VersionVectors
  import opened SyncOps

  datatype Meta = Meta(
    hash: Digest, size: u64, mtime: u64, vv: Clocks, tombstone: bool, corrupted: bool, inode: Option<u64>)

  type Manifest = map<Path, Meta>

  type Manifests = map<DriveId, Manifest>

  predicate Live(manifest: Manifest, p: Path) {
    p in manifest && !manifest[p].tombstone
  }

  /** The known versions of one path, by drive. */
  function Versions(ms: Manifests, p: Path): map<DriveId, Meta> {
    map d | d in ms && p in ms[d] :: ms[d][p]
  }

  function AllPaths(ms: Manifests): set<Path> {
    set d, p | d in ms && p in ms[d] :: p
  }

  /** A default-constructed entry. */
  const BLANK := Meta("", 0, 0, map[], false, false, None)

  datatype LogKind = LogWrite | LogDelete | LogRename

  datatype LogRow = LogRow(kind: LogKind, path: Path, completed: bool)

  /** What a drive holds at one moment; a log row's id is its position. */
  datatype Snapshot = Snapshot(disk: map<Path, Bytes>, manifest: Manifest, log: seq<LogRow>)

  function Upserted(s: Snapshot, p: Path, m: Meta): Snapshot {
    s.(manifest := s.manifest[p := m])
  }

  function Dropped(s: Snapshot, p: Path): Snapshot {
    s.(manifest := s.manifest - {p})
  }

  function Begun(s: Snapshot, kind: LogKind, p: Path): Snapshot {
    s.(log := s.log + [LogRow(kind, p, false)])
  }

  function Completed(s: Snapshot, id: nat): Snapshot
    requires id < |s.log|
  {
    s.(log := s.log[id := s.log[id].(completed := true)])
  }

  function Written(s: Snapshot, p: Path, data: Bytes): Snapshot {
    s.(disk := s.disk[p := data])
  }

  function Unlinked(s: Snapshot, p: Path): Snapshot {
    s.(disk := s.disk - {p})
  }

  function Moved(s: Snapshot, from: Path, to: Path): Snapshot
    requires from in s.disk
  {
    s.(disk := (s.disk - {from})[to := s.disk[from]])
  }

  class Drive {
    var disk: map<Path, Bytes>
    var manifest: Manifest
    var log: seq<LogRow>
    /** Every state the drive has been in, the present one last. */
    ghost var history: seq<Snapshot>

    ghost function Now(): Snapshot
      reads this
    {
      Snapshot(disk, manifest, log)
    }

    ghost predicate Valid()
      reads this
    {
      history != [] && history[|history| - 1] == Now()
    }

    constructor (d: map<Path, Bytes>, m: Manifest)
      ensures Valid() && disk == d && manifest == m && log == []
    {
      disk, manifest, log := d, m, [];
      history := [Snapshot(d, m, [])];
    }

    // ----- The manifest store -----

    method GetFile(p: Path) returns (m: Option<Meta>)
      ensures m == Lookup(manifest, p)
    {
      m := Lookup(manifest, p);
    }

    method UpsertFile(p: Path, m: Meta)
      requires Valid()
      modifies this
      ensures Valid() && Now() == Upserted(old(Now()), p, m) && history == old(history) + [Now()]
      ensures manifest == old(manifest)[p := m] && disk == old(disk) && log == old(log)
    {
      manifest := manifest[p := m];
      history := history + [Now()];
    }

    method DeleteFile(p: Path)
      requires Valid()
      modifies this
      ensures Valid() && Now() == Dropped(old(Now()), p) && history == old(history) + [Now()]
      ensures manifest == old(manifest) - {p} && disk == old(disk) && log == old(log)
    {
      manifest := manifest - {p};
      history := history + [Now()];
    }

    method MarkDeleted(p: Path, driveId: DriveId, now: u64)
      requires Valid()
      modifies this
      ensures Valid() && Now() == Upserted(old(Now()), p, MarkedDeleted(Lookup(old(manifest), p), driveId, now))
      ensures history == old(history) + [Now()] && disk == old(disk) && log == old(log)
      ensures manifest.Keys == old(manifest).Keys + {p} && manifest[p].tombstone
      ensures forall q :: q in old(manifest) && q != p ==> manifest[q] == old(manifest)[q]
      ensures var m := manifest[p];
        && (p in old(manifest) ==> m == old(manifest)[p].(tombstone := true, vv := m.vv))
        && (p !in old(manifest) ==> m == Meta("", 0, now, m.vv, true, false, None))
      ensures var was, vv := if p in old(manifest) then old(manifest)[p].vv else map[], manifest[p].vv;
        && Clock(vv, driveId) == (Clock(was, driveId) + 1) % 0x1_0000_0000_0000_0000
        && vv.Keys == was.Keys + {driveId} && forall d :: d in was && d != driveId ==> vv[d] == was[d]
    {
      var existing := GetFile(p);
      var m := match existing
        case Some(e) => e
        case None => BLANK.(mtime := now);
      var vector := new VersionVector(m.vv);
      vector.Increment(driveId);
      UpsertFile(p, m.(tombstone := true, vv := vector.clocks));
    }

    method BeginOperation(kind: LogKind, p: Path) returns (id: nat)
      requires Valid()
      modifies this
      ensures Valid() && Now() == Begun(old(Now()), kind, p) && history == old(history) + [Now()]
      ensures log == old(log) + [LogRow(kind, p, false)] && disk == old(disk) && manifest == old(manifest)
      ensures id == |old(log)|
    {
      id := |log|;
      log := log + [LogRow(kind, p, false)];
      history := history + [Now()];
    }

    method CompleteOperation(id: nat)
      requires Valid() && id < |log|
      modifies this
      ensures Valid() && Now() == Completed(old(Now()), id) && history == old(history) + [Now()]
      ensures log == old(log)[id := LogRow(old(log)[id].kind, old(log)[id].path, true)]
      ensures disk == old(disk) && manifest == old(manifest)
    {
      log := log[id := log[id].(completed := true)];
      history := history + [Now()];
    }

    method GetIncompleteOperations() returns (ids: seq<nat>)
      ensures ids == Incomplete(log, |log|)
      ensures forall id: nat :: id in ids <==> id < |log| && !log[id].completed
      ensures forall i, j :: 0 <= i < j < |ids| ==> ids[i] < ids[j]
    {
      ids := [];
      for i := 0 to |log|
        invariant ids == Incomplete(log, i)
      {
        if !log[i].completed {
          ids := ids + [i];
        }
      }
      IncompleteIs(log, |log|);
    }

    // ----- The file system -----

    method WriteFile(p: Path, data: Bytes)
      requires Valid()
      modifies this
      ensures Valid() && Now() == Written(old(Now()), p, data) && history == old(history) + [Now()]
      ensures disk == old(disk)[p := data] && manifest == old(manifest) && log == old(log)
    {
      disk := disk[p := data];
      history := history + [Now()];
    }

    method RemoveFile(p: Path)
      requires Valid()
      modifies this
      ensures Valid() && Now() == Unlinked(old(Now()), p) && history == old(history) + [Now()]
      ensures disk == old(disk) - {p} && manifest == old(manifest) && log == old(log)
    {
      disk := disk - {p};
      history := history + [Now()];
    }

    /** An atomic rename; whatever was at `to` is replaced. */
    method RenameFile(from: Path, to: Path)
      requires Valid() && from in disk
      modifies this
      ensures Valid() && Now() == Moved(old(Now()), from, to) && history == old(history) + [Now()]
      ensures disk == (old(disk) - {from})[to := old(disk)[from]] && manifest == old(manifest) && log == old(log)
    {
      disk := (disk - {from})[to := disk[from]];
      history := history + [Now()];
    }
  }

  function MarkedDeleted(existing: Option<Meta>, driveId: DriveId, now: u64): Meta {
    var m := if existing.Some? then existing.value else BLANK.(mtime := now);
    m.(tombstone := true, vv := Bumped(m.vv, driveId))
  }

  function Incomplete(log: seq<LogRow>, n: nat): seq<nat>
    requires n <= |log|
  {
    if n == 0 then []
    else Incomplete(log, n - 1) + (if log[n - 1].completed then [] else [n - 1])
  }

  /** The ids of the rows that have not been completed, all of them, in ascending order. */
  lemma {:induction false} IncompleteIs(log: seq<LogRow>, n: nat)
    requires n <= |log|
    ensures forall id: nat :: id in Incomplete(log, n) <==> id < n && !log[id].completed
    ensures forall i, j :: 0 <= i < j < |Incomplete(log, n)| ==> Incomplete(log, n)[i] < Incomplete(log, n)[j]
  {
    if n > 0 {
      IncompleteIs(log, n - 1);
      var before := Incomplete(log, n - 1);
      forall i | 0 <= i < |before|
        ensures before[i] < n - 1
      {
        assert before[i] in before;
      }
    }
  }
}
