/** What a sync settles before it plans: which paths are in conflict, and by which rule. */
module Settling {
  import opened Base
  import opened SyncOps
  import opened VersionVectors
  import opened Drives
  import opened ConflictResolver
  import opened Decisions
  import opened Pipeline

  /** Two drives hold versions of the path of which one is unknown to the other, and the other is unknown to it
      or a deletion that a live version supersedes. */
  ghost predicate Contested(ms: Manifests, p: Path) {
    exists d, e ::
      && Holds(ms, d, p) && Holds(ms, e, p) && !Leq(ms[d][p].vv, ms[e][p].vv)
      && (!Leq(ms[e][p].vv, ms[d][p].vv) || (!ms[d][p].tombstone && ms[e][p].tombstone))
  }

  /** The drives on which the path is live with these contents. */
  ghost function DrivesWith(ms: Manifests, p: Path, hash: Digest): set<DriveId> {
    set d | d in ms && p in ms[d] && !ms[d][p].tombstone && ms[d][p].hash == hash
  }

  /** Contents that are live on more than half of all the drives. */
  ghost predicate HasMajority(ms: Manifests, p: Path, hash: Digest) {
    2 * |DrivesWith(ms, p, hash)| > |ms|
  }

  /** Contents are taken by their majority if, and only if, more than half of all the drives have them, those counted
      in that do not know the path. */
  ghost predicate CountsAllDrives(ms: Manifests, p: Path, r: Resolution) {
    && (r.strategy == MajorityQuorum ==>
          Holds(ms, r.winner, p) && !ms[r.winner][p].tombstone && HasMajority(ms, p, ms[r.winner][p].hash))
    && forall hash :: HasMajority(ms, p, hash) ==> r.strategy == DominantVersion || r.strategy == MajorityQuorum
  }

  /** A sync settles each contested path once, in path order, with its versions on all drives that know it. */
  lemma SettledBy(ms: Manifests, conflicts: seq<Conflict>, res: seq<Resolution>)
    requires Settles(ms, conflicts, res)
    ensures |res| == |conflicts|
    ensures forall i, j :: 0 <= i < j < |conflicts| ==> Less(conflicts[i].path, conflicts[j].path)
    ensures forall p :: Contested(ms, p) <==> exists i :: 0 <= i < |conflicts| && conflicts[i].path == p
    ensures forall i, d :: 0 <= i < |res| ==>
      Lookup(conflicts[i].versions, d) == if d in ms then Lookup(ms[d], conflicts[i].path) else None
    ensures forall i :: 0 <= i < |res| ==>
      IsResolution(conflicts[i].versions, |ms|, res[i]) && CountsAllDrives(ms, conflicts[i].path, res[i])
  {
    hide Leq;
    hide InConflict;
    hide Contested;
    hide IsResolution;
    hide CountsAllDrives;
    forall p
      ensures Contested(ms, p) <==> InConflict(Versions(ms, p))
      ensures InConflict(Versions(ms, p)) ==> p in AllPaths(ms)
    {
      ContestedIs(ms, p);
    }
    forall i | 0 <= i < |res|
      ensures conflicts[i] in conflicts && CountsAllDrives(ms, conflicts[i].path, res[i])
    {
      assert conflicts[i] in conflicts;
      Counted(ms, conflicts[i].path, res[i]);
    }
    forall p | InConflict(Versions(ms, p))
      ensures exists i :: 0 <= i < |conflicts| && conflicts[i].path == p
    {
      assert Conflict(p, Versions(ms, p)) in conflicts;
    }
  }

  lemma ContestedIs(ms: Manifests, p: Path)
    ensures Contested(ms, p) <==> InConflict(Versions(ms, p))
    ensures Contested(ms, p) ==> p in AllPaths(ms)
  {
    hide Leq;
    hide InConflict;
    var v := Versions(ms, p);
    ConflictMeans(v);
    assert forall d :: Holds(ms, d, p) <==> d in v;
    assert forall d :: d in v ==> v[d] == ms[d][p];
  }

  lemma Counted(ms: Manifests, p: Path, r: Resolution)
    requires IsResolution(Versions(ms, p), |ms|, r) && p in AllPaths(ms)
    ensures CountsAllDrives(ms, p, r)
  {
    hide Leq;
    hide IsResolution;
    hide KnowsAll;
    hide Prevails;
    hide HasMajority;
    var v := Versions(ms, p);
    ResolutionMeans(v, |ms|, r);
    forall hash
      ensures HasMajority(ms, p, hash) <==> Prevails(v, |ms|, hash)
    {
      SameMajority(ms, p, hash);
    }
  }

  lemma SameMajority(ms: Manifests, p: Path, hash: Digest)
    requires p in AllPaths(ms)
    ensures HasMajority(ms, p, hash) <==> Prevails(Versions(ms, p), |ms|, hash)
  {
    var d :| d in ms && p in ms[d];
    assert d in ms.Keys && |ms.Keys| == |ms|;
    assert LiveWith(Versions(ms, p), hash) == DrivesWith(ms, p, hash);
  }
}
