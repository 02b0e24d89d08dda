/** Which paths are in conflict, and which version wins. */
module ConflictResolver {
  import opened Base
  import opened SyncOps
  import opened VersionVectors
  import opened Drives

  type VersionMap = map<DriveId, Meta>

  // ----- Detection --------------------------------------------------------------------------

  /** Two versions clash: neither knows of the other, or a live one supersedes a deletion. */
  predicate Clash(a: Meta, b: Meta) {
    || Order(a.vv, b.vv) == Concurrent
    || (Order(a.vv, b.vv) == Dominates && !a.tombstone && b.tombstone)
    || (Order(a.vv, b.vv) == DominatedBy && !b.tombstone && a.tombstone)
  }

  ghost predicate InConflict(v: VersionMap) {
    exists d, e :: d in v && e in v && d != e && Clash(v[d], v[e])
  }

  datatype Conflict = Conflict(path: Path, versions: VersionMap)

  method PairClashes(a: Meta, b: Meta) returns (clash: bool)
    ensures clash == Clash(a, b)
  {
    var ord := Order(a.vv, b.vv);
    if ord == Concurrent {
      return true;
    } else if ord != Equal {
      var dominant := if ord == Dominates then a else b;
      var dominated := if ord == Dominates then b else a;
      if !dominant.tombstone && dominated.tombstone {
        return true;
      }
    }
    return false;
  }

  /** The drives that have a version, each once. */
  ghost predicate Lists(v: VersionMap, ids: seq<DriveId>) {
    (forall d :: d in ids <==> d in v) && forall k, l :: 0 <= k < l < |ids| ==> ids[k] != ids[l]
  }

  /** No version among the first `i` clashes with a later one. */
  ghost predicate Clear(v: VersionMap, ids: seq<DriveId>, i: nat)
    requires Lists(v, ids)
  {
    forall k, l :: 0 <= k < i && k < l < |ids| ==> !Clash(v[ids[k]], v[ids[l]])
  }

  ghost predicate ClearRow(v: VersionMap, ids: seq<DriveId>, i: nat, j: nat)
    requires i < |ids| && j <= |ids| && Lists(v, ids)
  {
    forall l :: i < l < j ==> !Clash(v[ids[i]], v[ids[l]])
  }

  lemma ClearNext(v: VersionMap, ids: seq<DriveId>, i: nat)
    requires i < |ids| && Lists(v, ids) && Clear(v, ids, i) && ClearRow(v, ids, i, |ids|)
    ensures Clear(v, ids, i + 1)
  {
    hide Clash;
  }

  method HasConflict(v: VersionMap) returns (found: bool)
    ensures found == InConflict(v)
  {
    hide *;
    var ids := Sorted(v.Keys);
    found := false;
    var i := 0;
    Started(v, ids);
    while i < |ids| && !found
      invariant 0 <= i <= |ids|
      invariant if found then InConflict(v) else Clear(v, ids, i)
    {
      found := RowClashes(v, ids, i);
      if !found {
        ClearNext(v, ids, i);
      }
      i := i + 1;
    }
    if !found {
      NoPairClashes(v, ids);
    }
  }

  /** The inner loop: one version against every later one. */
  method RowClashes(v: VersionMap, ids: seq<DriveId>, i: nat) returns (found: bool)
    requires i < |ids| && Lists(v, ids)
    ensures if found then InConflict(v) else ClearRow(v, ids, i, |ids|)
  {
    hide Clash;
    found := false;
    var j := i + 1;
    while j < |ids| && !found
      invariant i < j <= |ids|
      invariant if found then InConflict(v) else ClearRow(v, ids, i, j)
    {
      found := PairClashes(v[ids[i]], v[ids[j]]);
      assert ids[i] in v && ids[j] in v && ids[i] != ids[j];
      j := j + 1;
    }
  }

  lemma Started(v: VersionMap, ids: seq<DriveId>)
    requires ids == Sorted(v.Keys)
    ensures Lists(v, ids) && Clear(v, ids, 0)
  {
  }

  lemma NoPairClashes(v: VersionMap, ids: seq<DriveId>)
    requires Lists(v, ids) && Clear(v, ids, |ids|)
    ensures !InConflict(v)
  {
    hide Clash;
    forall d, e | d in v && e in v && d != e
      ensures !Clash(v[d], v[e])
    {
      var k :| 0 <= k < |ids| && ids[k] == d;
      var l :| 0 <= l < |ids| && ids[l] == e;
      ClashSymmetric(v[d], v[e]);
    }
  }

  lemma ClashSymmetric(a: Meta, b: Meta)
    ensures Clash(a, b) == Clash(b, a)
  {
    OrderDecidesLeq(a.vv, b.vv);
    OrderDecidesLeq(b.vv, a.vv);
  }

  /** `conflicts` holds exactly the conflicts at these paths, in path order. */
  ghost predicate Reported(ms: Manifests, paths: seq<Path>, conflicts: seq<Conflict>) {
    && (forall c :: c in conflicts <==> c.path in paths && c.versions == Versions(ms, c.path) && InConflict(c.versions))
    && (forall i, j :: 0 <= i < j < |conflicts| ==> Less(conflicts[i].path, conflicts[j].path))
  }

  lemma ReportOne(ms: Manifests, paths: seq<Path>, i: nat, conflicts: seq<Conflict>)
    requires StrictlySorted(paths) && i < |paths| && Reported(ms, paths[..i], conflicts)
    ensures var v := Versions(ms, paths[i]);
      Reported(ms, paths[..i + 1], if InConflict(v) then conflicts + [Conflict(paths[i], v)] else conflicts)
  {
    hide InConflict;
    hide Versions;
    assert paths[..i + 1] == paths[..i] + [paths[i]];
    forall k | 0 <= k < |conflicts|
      ensures Less(conflicts[k].path, paths[i])
    {
      assert conflicts[k] in conflicts;
    }
  }

  /** Reports every path in conflict once, in path order, with all its versions, and no other path. */
  method DetectConflicts(ms: Manifests) returns (conflicts: seq<Conflict>)
    ensures forall c :: c in conflicts <==>
      c.path in AllPaths(ms) && c.versions == Versions(ms, c.path) && InConflict(c.versions)
    ensures forall i, j :: 0 <= i < j < |conflicts| ==> Less(conflicts[i].path, conflicts[j].path)
  {
    hide InConflict;
    hide Versions;
    conflicts := [];
    var paths := Sorted(AllPaths(ms));
    for i := 0 to |paths|
      invariant Reported(ms, paths[..i], conflicts)
    {
      ReportOne(ms, paths, i, conflicts);
      var versions := Versions(ms, paths[i]);
      var clash := HasConflict(versions);
      if clash {
        conflicts := conflicts + [Conflict(paths[i], versions)];
      }
    }
    assert paths[..|paths|] == paths;
  }

  // ----- Resolution -------------------------------------------------------------------------

  datatype Strategy =
    | DominantVersion | MajorityQuorum | TombstoneWins | LastWriteWins | CopyAllVersions

  /** A resolution names a drive but no path; the empty id means that no drive wins. */
  datatype Resolution = Resolution(winner: DriveId, strategy: Strategy)

  /** `c` knows of every version: it dominates or equals all of them. */
  ghost predicate Supreme(v: VersionMap, c: DriveId) {
    c in v && forall d :: d in v ==> Leq(v[d].vv, v[c].vv)
  }

  ghost predicate FirstSupreme(v: VersionMap, c: DriveId) {
    Supreme(v, c) && forall d :: Supreme(v, d) && d != c ==> Less(c, d)
  }

  function Holders(v: VersionMap, hash: Digest): set<DriveId> {
    set d | d in v && !v[d].tombstone && v[d].hash == hash
  }

  predicate Majority(v: VersionMap, total: nat, hash: Digest) {
    |Holders(v, hash)| * 2 > total
  }

  ghost predicate Leader(v: VersionMap, d: DriveId) {
    && d in v && v[d].mtime > 0
    && (forall e :: e in v ==> v[e].mtime <= v[d].mtime)
    && (forall e :: e in v && e != d && v[e].mtime == v[d].mtime ==> Less(d, e))
  }

  /** The first holder of the least hash that has a majority. */
  ghost predicate MajorityPick(v: VersionMap, total: nat, d: DriveId) {
    && d in v && !v[d].tombstone && Majority(v, total, v[d].hash)
    && IsLeast(d, Holders(v, v[d].hash))
    && (forall hash :: Majority(v, total, hash) ==> !Less(hash, v[d].hash))
  }

  /** The five strategies in their order, each with the drive it picks. */
  ghost predicate IsResolution(v: VersionMap, total: nat, r: Resolution) {
    match r.strategy
    case DominantVersion => FirstSupreme(v, r.winner)
    case MajorityQuorum =>
      (forall d :: !Supreme(v, d)) && total > 0 && MajorityPick(v, total, r.winner)
    case TombstoneWins =>
      && (forall d :: !Supreme(v, d)) && NoMajority(v, total)
      && r.winner in v && v[r.winner].tombstone
      && (forall d :: d in v && v[d].tombstone && d != r.winner ==> Less(r.winner, d))
    case LastWriteWins =>
      && (forall d :: !Supreme(v, d)) && NoMajority(v, total)
      && (forall d :: d in v ==> !v[d].tombstone) && Leader(v, r.winner) && r.winner != ""
    case CopyAllVersions =>
      && (forall d :: !Supreme(v, d)) && NoMajority(v, total) && r.winner == ""
      && (forall d :: d in v ==> !v[d].tombstone)
      && ((forall d :: d in v ==> v[d].mtime == 0) || Leader(v, ""))
  }

  ghost predicate NoMajority(v: VersionMap, total: nat) {
    total == 0 || forall hash :: !Majority(v, total, hash)
  }

  method Resolve(v: VersionMap, total: nat) returns (r: Resolution)
    ensures IsResolution(v, total, r)
  {
    var ids := Sorted(v.Keys);
    var dominant := FindSupreme(v, ids);
    if dominant.Some? {
      return Resolution(dominant.value, DominantVersion);
    }
    if total > 0 {
      var winner := FindMajority(v, total);
      if winner.Some? {
        return Resolution(winner.value, MajorityQuorum);
      }
    }
    for i := 0 to |ids|
      invariant forall k :: 0 <= k < i ==> !v[ids[k]].tombstone
    {
      if v[ids[i]].tombstone {
        FirstOf(v, ids, i);
        return Resolution(ids[i], TombstoneWins);
      }
    }
    var best := FindLeader(v, ids);
    if best != "" {
      return Resolution(best, LastWriteWins);
    }
    return Resolution("", CopyAllVersions);
  }

  lemma FirstOf(v: VersionMap, ids: seq<DriveId>, i: nat)
    requires StrictlySorted(ids) && (forall d :: d in ids <==> d in v) && i < |ids|
    requires forall k :: 0 <= k < i ==> !v[ids[k]].tombstone
    ensures forall d :: d in v && v[d].tombstone && d != ids[i] ==> Less(ids[i], d)
  {
    forall d | d in v && v[d].tombstone && d != ids[i]
      ensures Less(ids[i], d)
    {
      var k :| 0 <= k < |ids| && ids[k] == d;
    }
  }

  method FindSupreme(v: VersionMap, ids: seq<DriveId>) returns (found: Option<DriveId>)
    requires StrictlySorted(ids) && forall d :: d in ids <==> d in v
    ensures found.Some? ==> FirstSupreme(v, found.value)
    ensures found.None? ==> forall d :: !Supreme(v, d)
  {
    hide Supreme;
    for i := 0 to |ids|
      invariant forall k :: 0 <= k < i ==> !Supreme(v, ids[k])
    {
      var dominatesAll := DominatesAll(v, ids, i);
      if dominatesAll {
        forall d | Supreme(v, d) && d != ids[i]
          ensures Less(ids[i], d)
        {
          SupremeIsVersion(v, d);
          var k :| 0 <= k < |ids| && ids[k] == d;
        }
        return Some(ids[i]);
      }
    }
    forall d
      ensures !Supreme(v, d)
    {
      SupremeIsVersion(v, d);
      if d in v {
        var k :| 0 <= k < |ids| && ids[k] == d;
      }
    }
    return None;
  }

  lemma SupremeIsVersion(v: VersionMap, d: DriveId)
    ensures Supreme(v, d) ==> d in v
  {
  }

  method DominatesAll(v: VersionMap, ids: seq<DriveId>, i: nat) returns (all: bool)
    requires i < |ids| && (forall d :: d in ids <==> d in v)
    ensures all == Supreme(v, ids[i])
  {
    hide Order;
    hide Leq;
    var c := ids[i];
    for j := 0 to |ids|
      invariant forall k :: 0 <= k < j ==> Leq(v[ids[k]].vv, v[c].vv)
    {
      OrderDecidesLeq(v[c].vv, v[ids[j]].vv);
      if ids[j] != c {
        var ord := Order(v[c].vv, v[ids[j]].vv);
        if ord != Dominates && ord != Equal {
          return false;
        }
      } else {
        LeqReflexive(v[c].vv);
      }
    }
    forall d | d in v
      ensures Leq(v[d].vv, v[c].vv)
    {
      var k :| 0 <= k < |ids| && ids[k] == d;
    }
    return true;
  }

  method FindMajority(v: VersionMap, total: nat) returns (found: Option<DriveId>)
    ensures found.Some? ==> MajorityPick(v, total, found.value)
    ensures found.None? ==> forall hash :: !Majority(v, total, hash)
  {
    hide MajorityPick;
    hide Majority;
    var hashes := Sorted(set d | d in v && !v[d].tombstone :: v[d].hash);
    for i := 0 to |hashes|
      invariant forall k :: 0 <= k < i ==> !Majority(v, total, hashes[k])
    {
      var drives := Sorted(Holders(v, hashes[i]));
      MajorityCount(v, total, hashes[i]);
      if |drives| * 2 > total {
        PickMajority(v, total, hashes, i, drives);
        return Some(drives[0]);
      }
    }
    forall hash
      ensures !Majority(v, total, hash)
    {
      MajorityHeld(v, total, hash, hashes);
      if hash in hashes {
        var k :| 0 <= k < |hashes| && hashes[k] == hash;
      }
    }
    return None;
  }

  lemma MajorityCount(v: VersionMap, total: nat, hash: Digest)
    ensures Majority(v, total, hash) <==> |Holders(v, hash)| * 2 > total
  {
  }

  lemma PickMajority(v: VersionMap, total: nat, hashes: seq<Digest>, i: nat, drives: seq<DriveId>)
    requires StrictlySorted(hashes) && i < |hashes| && Majority(v, total, hashes[i])
    requires forall d :: d in v && !v[d].tombstone ==> v[d].hash in hashes
    requires forall k :: 0 <= k < i ==> !Majority(v, total, hashes[k])
    requires StrictlySorted(drives) && drives != [] && forall d :: d in drives <==> d in Holders(v, hashes[i])
    ensures MajorityPick(v, total, drives[0])
  {
    hide Majority;
    FirstIsLeast(drives, Holders(v, hashes[i]));
    forall hash | Majority(v, total, hash)
      ensures !Less(hash, hashes[i])
    {
      MajorityHeld(v, total, hash, hashes);
      var k :| 0 <= k < |hashes| && hashes[k] == hash;
      LessTotal(hash, hashes[i]);
    }
  }

  lemma MajorityHeld(v: VersionMap, total: nat, hash: Digest, hashes: seq<Digest>)
    requires forall d :: d in v && !v[d].tombstone ==> v[d].hash in hashes
    ensures Majority(v, total, hash) ==> hash in hashes
  {
    if Majority(v, total, hash) {
      var d :| d in Holders(v, hash);
    }
  }

  lemma FirstIsLeast(r: seq<string>, s: set<string>)
    requires StrictlySorted(r) && r != [] && forall x :: x in r <==> x in s
    ensures IsLeast(r[0], s)
  {
    forall y | y in s && y != r[0]
      ensures Less(r[0], y)
    {
      var k :| 0 <= k < |r| && r[k] == y;
    }
  }

  /** The first drive, in id order, with the latest modification time; none if all times are zero. */
  method FindLeader(v: VersionMap, ids: seq<DriveId>) returns (best: DriveId)
    requires StrictlySorted(ids) && forall d :: d in ids <==> d in v
    ensures best != "" ==> Leader(v, best)
    ensures best == "" ==> (forall d :: d in v ==> v[d].mtime == 0) || Leader(v, "")
  {
    best := "";
    var bestMtime: u64 := 0;
    ghost var at := -1;
    for i := 0 to |ids|
      invariant -1 <= at < i
      invariant at == -1 ==> best == "" && bestMtime == 0
      invariant at >= 0 ==> best == ids[at] && bestMtime == v[best].mtime > 0
      invariant forall k :: 0 <= k < i ==> v[ids[k]].mtime <= bestMtime
      invariant forall k :: 0 <= k < at ==> v[ids[k]].mtime < bestMtime
    {
      if v[ids[i]].mtime > bestMtime {
        bestMtime := v[ids[i]].mtime;
        best := ids[i];
        at := i;
      }
    }
    LeaderFound(v, ids, bestMtime, at);
  }

  lemma LeaderFound(v: VersionMap, ids: seq<DriveId>, bestMtime: u64, at: int)
    requires StrictlySorted(ids) && (forall d :: d in ids <==> d in v) && -1 <= at < |ids|
    requires at == -1 ==> bestMtime == 0
    requires at >= 0 ==> bestMtime == v[ids[at]].mtime > 0
    requires forall k :: 0 <= k < |ids| ==> v[ids[k]].mtime <= bestMtime
    requires forall k :: 0 <= k < at ==> v[ids[k]].mtime < bestMtime
    ensures at >= 0 ==> Leader(v, ids[at])
    ensures at == -1 ==> forall d :: d in v ==> v[d].mtime == 0
  {
    forall d | d in v
      ensures v[d].mtime <= bestMtime
      ensures at >= 0 && d != ids[at] && v[d].mtime == bestMtime ==> Less(ids[at], d)
    {
      var k :| 0 <= k < |ids| && ids[k] == d;
    }
  }

  /** With at least as many drives as versions, at most one content can have a majority, so the
      quorum winner's content does not depend on the order in which hashes are tried. */
  lemma MajorityIsUnique(v: VersionMap, total: nat, a: Digest, b: Digest)
    requires |v| <= total && Majority(v, total, a) && Majority(v, total, b)
    ensures a == b
  {
    if a != b {
      HoldersAreDisjoint(v, a, b);
    }
  }

  lemma HoldersAreDisjoint(v: VersionMap, a: Digest, b: Digest)
    requires a != b
    ensures |Holders(v, a)| + |Holders(v, b)| <= |v|
  {
    var both := Holders(v, a) + Holders(v, b);
    assert Holders(v, a) !! Holders(v, b);
    assert v.Keys == both + (v.Keys - both);
    assert |v.Keys| == |v|;
  }

  /** The five cases leave no choice: there is one resolution for given versions. */
  lemma ResolutionIsDetermined(v: VersionMap, total: nat, r: Resolution, s: Resolution)
    requires IsResolution(v, total, r) && IsResolution(v, total, s)
    ensures r == s
  {
    LessTotal(r.winner, s.winner);
    if r.strategy == MajorityQuorum && s.strategy == MajorityQuorum {
      LessTotal(v[r.winner].hash, v[s.winner].hash);
    }
  }
}
