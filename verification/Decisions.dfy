/** What the conflict resolver, the rename detection and the planner decide, said of the versions alone. */
module Decisions {
  import opened Base
  import opened SyncOps
  import opened VersionVectors
  import opened Drives
  import opened ConflictResolver
  import opened RenameDetection
  import opened PlanRules

  // ----- Conflicts --------------------------------------------------------------------------

  /** Versions are in conflict if and only if one of two is not known to the other, and either the other is
      not known to it, or it is live and the other a deletion. */
  lemma ConflictMeans(v: VersionMap)
    ensures InConflict(v) <==>
      exists d, e ::
        && d in v && e in v && !Leq(v[d].vv, v[e].vv)
        && (!Leq(v[e].vv, v[d].vv) || (!v[d].tombstone && v[e].tombstone))
  {
    hide Leq;
    hide Order;
    if d, e :| d in v && e in v && d != e && Clash(v[d], v[e]) {
      OrderDecidesLeq(v[d].vv, v[e].vv);
    }
    if d, e :| && d in v && e in v && !Leq(v[d].vv, v[e].vv)
               && (!Leq(v[e].vv, v[d].vv) || (!v[d].tombstone && v[e].tombstone)) {
      LeqReflexive(v[d].vv);
      OrderDecidesLeq(v[d].vv, v[e].vv);
      assert Clash(v[d], v[e]);
    }
  }

  // ----- Resolutions ------------------------------------------------------------------------

  /** The version on `d` knows of all the others. */
  ghost predicate KnowsAll(v: VersionMap, d: DriveId) {
    d in v && forall e :: e in v ==> Leq(v[e].vv, v[d].vv)
  }

  /** The drives on which the contents `hash` are live. */
  ghost function LiveWith(v: VersionMap, hash: Digest): set<DriveId> {
    set d | d in v && !v[d].tombstone && v[d].hash == hash
  }

  ghost function Deleted(v: VersionMap): set<DriveId> {
    set d | d in v && v[d].tombstone
  }

  /** Contents that are live on more than half of the drives. */
  ghost predicate Prevails(v: VersionMap, total: nat, hash: Digest) {
    total > 0 && |LiveWith(v, hash)| * 2 > total
  }

  /** The rules of a resolution in their order: a version that knows of all the others, contents that
      prevail, a deletion, the latest modification. Among equals the first drive wins. */
  lemma ResolutionMeans(v: VersionMap, total: nat, r: Resolution)
    requires IsResolution(v, total, r)
    ensures r.strategy == DominantVersion <==> exists d :: KnowsAll(v, d)
    ensures r.strategy == DominantVersion ==> IsLeast(r.winner, set d | d in v && KnowsAll(v, d))
    ensures r.strategy == MajorityQuorum <==> (forall d :: !KnowsAll(v, d)) && exists hash :: Prevails(v, total, hash)
    ensures r.strategy == MajorityQuorum ==>
      && r.winner in v && Prevails(v, total, v[r.winner].hash) && IsLeast(r.winner, LiveWith(v, v[r.winner].hash))
      && forall hash :: Prevails(v, total, hash) ==> v[r.winner].hash == hash || Less(v[r.winner].hash, hash)
    ensures r.strategy == TombstoneWins <==>
      (forall d :: !KnowsAll(v, d)) && (forall hash :: !Prevails(v, total, hash)) && Deleted(v) != {}
    ensures r.strategy == TombstoneWins ==> IsLeast(r.winner, Deleted(v))
    ensures r.strategy == LastWriteWins ==>
      && r.winner != "" && r.winner in v && v[r.winner].mtime > 0
      && forall d :: d in v && d != r.winner ==>
           v[d].mtime < v[r.winner].mtime || (v[d].mtime == v[r.winner].mtime && Less(r.winner, d))
    ensures r.strategy == CopyAllVersions ==> r.winner == ""
    ensures r.strategy == CopyAllVersions && "" !in v ==> forall d :: d in v ==> v[d].mtime == 0
  {
    hide Leq;
    hide IsLeast;
    hide Holders;
    SameRules(v, total);
    if r.strategy == DominantVersion {
      FirstAmong(v, r.winner);
    } else if r.strategy == MajorityQuorum {
      assert Prevails(v, total, v[r.winner].hash);
      forall hash | Prevails(v, total, hash)
        ensures v[r.winner].hash == hash || Less(v[r.winner].hash, hash)
      {
        LessTotal(v[r.winner].hash, hash);
      }
    } else if r.strategy == TombstoneWins {
      FirstDeleted(v, r.winner);
    }
  }

  lemma SameRules(v: VersionMap, total: nat)
    ensures forall d :: KnowsAll(v, d) <==> Supreme(v, d)
    ensures forall hash :: LiveWith(v, hash) == Holders(v, hash)
    ensures forall hash :: Prevails(v, total, hash) <==> total > 0 && Majority(v, total, hash)
    ensures NoMajority(v, total) <==> forall hash :: !Prevails(v, total, hash)
  {
  }

  lemma FirstAmong(v: VersionMap, w: DriveId)
    requires FirstSupreme(v, w)
    ensures IsLeast(w, set d | d in v && KnowsAll(v, d))
  {
    hide Leq;
  }

  lemma FirstDeleted(v: VersionMap, w: DriveId)
    requires w in v && v[w].tombstone && forall d :: d in v && v[d].tombstone && d != w ==> Less(w, d)
    ensures IsLeast(w, Deleted(v)) && Deleted(v) != {}
  {
    assert w in Deleted(v);
  }

  // ----- Renames ----------------------------------------------------------------------------

  /** Drive `s` has turned `p` into `q`, and drive `t` has not: `s` has deleted `p` and has `q`, `t` still has
      `p` and not `q`, and the contents are the same. */
  ghost predicate Calls(ms: Manifests, s: DriveId, t: DriveId, p: Path, q: Path) {
    && s in ms && t in ms && s != t
    && p in ms[s] && ms[s][p].tombstone && q in ms[s] && !ms[s][q].tombstone
    && p in ms[t] && !ms[t][p].tombstone && (q in ms[t] ==> ms[t][q].tombstone)
    && ms[s][q].hash == ms[t][p].hash
  }

  /** `q` is the last name in the rows of `s` that calls for a rename of `p` on `t`. */
  ghost predicate LastListed(ms: Manifests, rows: seq<Path>, s: DriveId, t: DriveId, p: Path, q: Path) {
    exists k :: 0 <= k < |rows| && rows[k] == q && Calls(ms, s, t, p, q)
      && forall l :: k < l < |rows| ==> !Calls(ms, s, t, p, rows[l])
  }

  lemma {:induction false} LastInMeans(ms: Manifests, s: DriveId, t: DriveId, p: Path, rows: seq<Path>, q: Path)
    ensures LastIn(ms, s, t, p, rows) == Some(q) <==> LastListed(ms, rows, s, t, p, q)
    ensures LastIn(ms, s, t, p, rows).None? <==> forall k :: 0 <= k < |rows| ==> !Calls(ms, s, t, p, rows[k])
  {
    if rows != [] {
      var front, last := rows[..|rows| - 1], |rows| - 1;
      LastInMeans(ms, s, t, p, front, q);
      if LastListed(ms, front, s, t, p, q) && !Calls(ms, s, t, p, rows[last]) {
        var k :| 0 <= k < |front| && front[k] == q && Calls(ms, s, t, p, q)
          && forall l :: k < l < |front| ==> !Calls(ms, s, t, p, front[l]);
        assert rows[k] == q;
      }
      if LastListed(ms, rows, s, t, p, q) && !Calls(ms, s, t, p, rows[last]) {
        var k :| 0 <= k < |rows| && rows[k] == q && Calls(ms, s, t, p, q)
          && forall l :: k < l < |rows| ==> !Calls(ms, s, t, p, rows[l]);
        assert front[k] == q;
      }
      if Calls(ms, s, t, p, rows[last]) && rows[last] == q {
        assert LastListed(ms, rows, s, t, p, q);
      }
    }
  }

  /** No drive after `s` calls for a rename of `p` on `t`, whatever the name. */
  ghost predicate LastCaller(
    ms: Manifests, files: map<DriveId, seq<Path>>, ids: seq<DriveId>, i: nat, t: DriveId, p: Path)
    requires i < |ids| && forall d :: d in ids ==> d in files
  {
    forall j, q :: i < j < |ids| && q in files[ids[j]] ==> !Calls(ms, ids[j], t, p, q)
  }

  lemma {:induction false} LastByMeans(
    ms: Manifests, files: map<DriveId, seq<Path>>, ids: seq<DriveId>, t: DriveId, p: Path)
    requires forall d :: d in ids ==> d in files
    ensures var r := LastBy(ms, files, ids, t, p);
      if r.Some? then
        exists i :: && 0 <= i < |ids| && LastListed(ms, files[ids[i]], ids[i], t, p, r.value)
                    && LastCaller(ms, files, ids, i, t, p)
      else forall i, q :: 0 <= i < |ids| && q in files[ids[i]] ==> !Calls(ms, ids[i], t, p, q)
  {
    hide LastListed;
    hide Calls;
    if ids != [] {
      var front, s := ids[..|ids| - 1], ids[|ids| - 1];
      var mine := LastIn(ms, s, t, p, files[s]);
      LastByMeans(ms, files, front, t, p);
      LastInMeans(ms, s, t, p, files[s], if mine.Some? then mine.value else "");
      if mine.Some? {
        assert LastCaller(ms, files, ids, |ids| - 1, t, p);
      } else {
        assert forall q :: q in files[s] ==> !Calls(ms, s, t, p, q);
      }
    }
  }

  /** A rename is detected exactly where some drive calls for it. The last drive in id order that does decides
      on the new name, and of its names the last one in the order of its rows. */
  lemma DetectedMeans(ms: Manifests, files: map<DriveId, seq<Path>>, r: RenameMap, t: DriveId, p: Path)
    requires files.Keys == ms.Keys && Detected(ms, files, r)
    requires forall d :: d in ms ==> forall q :: q in files[d] <==> q in ms[d]
    ensures Has(r, t, p) <==> exists s, q :: Calls(ms, s, t, p, q)
    ensures Has(r, t, p) ==> exists s ::
      && s in ms && LastListed(ms, files[s], s, t, p, r[t][p])
      && forall u, q :: Calls(ms, u, t, p, q) ==> u == s || Less(u, s)
  {
    var ids := Sorted(ms.Keys);
    assert NewName(r, t, p) == LastBy(ms, files, ids, t, p);
    DetectedBy(ms, files, r, ids, t, p);
  }

  /** The drives in id order. */
  ghost predicate Lined(ms: Manifests, ids: seq<DriveId>) {
    StrictlySorted(ids) && forall d :: d in ids <==> d in ms
  }

  lemma DetectedBy(ms: Manifests, files: map<DriveId, seq<Path>>, r: RenameMap, ids: seq<DriveId>, t: DriveId, p: Path)
    requires files.Keys == ms.Keys && Lined(ms, ids) && NewName(r, t, p) == LastBy(ms, files, ids, t, p)
    requires forall d :: d in ms ==> forall q :: q in files[d] <==> q in ms[d]
    ensures Has(r, t, p) <==> exists s, q :: Calls(ms, s, t, p, q)
    ensures Has(r, t, p) ==> exists s ::
      && s in ms && LastListed(ms, files[s], s, t, p, r[t][p])
      && forall u, q :: Calls(ms, u, t, p, q) ==> u == s || Less(u, s)
  {
    hide LastListed;
    hide NoneEmpty;
    hide LastCaller;
    hide Calls;
    hide LastBy;
    hide StrictlySorted;
    LastByMeans(ms, files, ids, t, p);
    if Has(r, t, p) {
      var i: nat :|
        0 <= i < |ids| && LastListed(ms, files[ids[i]], ids[i], t, p, r[t][p]) && LastCaller(ms, files, ids, i, t, p);
      ListedCalls(ms, files[ids[i]], ids[i], t, p, r[t][p]);
      forall u, q | Calls(ms, u, t, p, q)
        ensures u == ids[i] || Less(u, ids[i])
      {
        NotAfter(ms, files, ids, i, t, p, u, q);
      }
    } else {
      forall u, q
        ensures !Calls(ms, u, t, p, q)
      {
        CallerIsListed(ms, files, ids, t, p, u, q);
      }
    }
  }

  lemma CallerIsListed(
    ms: Manifests, files: map<DriveId, seq<Path>>, ids: seq<DriveId>, t: DriveId, p: Path, u: DriveId, q: Path)
    requires files.Keys == ms.Keys && Lined(ms, ids)
    requires forall d :: d in ms ==> forall e :: e in files[d] <==> e in ms[d]
    ensures Calls(ms, u, t, p, q) ==> exists j :: 0 <= j < |ids| && ids[j] == u && q in files[ids[j]]
  {
  }

  lemma NotAfter(
    ms: Manifests, files: map<DriveId, seq<Path>>, ids: seq<DriveId>, i: nat, t: DriveId, p: Path, u: DriveId, q: Path)
    requires files.Keys == ms.Keys && Lined(ms, ids) && i < |ids| && LastCaller(ms, files, ids, i, t, p)
    requires forall d :: d in ms ==> forall e :: e in files[d] <==> e in ms[d]
    requires Calls(ms, u, t, p, q)
    ensures u == ids[i] || Less(u, ids[i])
  {
    hide Calls;
    CallerIsListed(ms, files, ids, t, p, u, q);
    var j: nat :| 0 <= j < |ids| && ids[j] == u && q in files[ids[j]];
  }

  lemma ListedCalls(ms: Manifests, rows: seq<Path>, s: DriveId, t: DriveId, p: Path, q: Path)
    requires LastListed(ms, rows, s, t, p, q)
    ensures Calls(ms, s, t, p, q)
  {
  }

  // ----- The planner's source ---------------------------------------------------------------

  predicate Holds(ms: Manifests, d: DriveId, p: Path) {
    d in ms && p in ms[d]
  }

  /** The version on `d` knows of the one on `c`, which does not know of it. */
  ghost predicate Supersedes(ms: Manifests, d: DriveId, c: DriveId, p: Path) {
    Holds(ms, d, p) && Holds(ms, c, p) && Leq(ms[c][p].vv, ms[d][p].vv) && !Leq(ms[d][p].vv, ms[c][p].vv)
  }

  /** A climb through the drives: from the first that knows the path, again and again to the next whose
      version supersedes the one it came from, until there is none. */
  ghost predicate Climb(ms: Manifests, ids: seq<DriveId>, p: Path, steps: seq<nat>) {
    && steps != [] && (forall k :: 0 <= k < |steps| ==> steps[k] < |ids|)
    && Starts(ms, ids, p, steps[0])
    && (forall k :: 0 < k < |steps| ==> StepUp(ms, ids, p, steps[k - 1], steps[k]))
    && NothingUp(ms, ids, p, steps[|steps| - 1], |ids|)
  }

  ghost predicate Starts(ms: Manifests, ids: seq<DriveId>, p: Path, i: nat)
    requires i < |ids|
  {
    Holds(ms, ids[i], p) && forall j :: 0 <= j < i ==> !Holds(ms, ids[j], p)
  }

  ghost predicate NothingUp(ms: Manifests, ids: seq<DriveId>, p: Path, i: nat, n: nat)
    requires i < |ids| && n <= |ids|
  {
    forall j :: i < j < n ==> !Supersedes(ms, ids[j], ids[i], p)
  }

  ghost predicate StepUp(ms: Manifests, ids: seq<DriveId>, p: Path, i: nat, j: nat)
    requires i < |ids| && j < |ids|
  {
    i < j && Supersedes(ms, ids[j], ids[i], p) && NothingUp(ms, ids, p, i, j)
  }

  /** Without a resolution the source is where the climb ends. */
  lemma {:induction false} DominantMeans(ms: Manifests, ids: seq<DriveId>, p: Path) returns (steps: seq<nat>)
    ensures var c := Dominant(ms, ids, p);
      if c.Some? then Climb(ms, ids, p, steps) && c.value == ids[steps[|steps| - 1]]
      else forall d :: d in ids ==> !Holds(ms, d, p)
  {
    hide Supersedes;
    hide Climb;
    hide Order;
    steps := [];
    if ids != [] {
      var front, d := ids[..|ids| - 1], ids[|ids| - 1];
      steps := DominantMeans(ms, front, p);
      var before := Dominant(ms, front, p);
      if before.None? {
        if Holds(ms, d, p) {
          FirstStep(ms, ids, p);
          steps := [|ids| - 1];
        }
      } else {
        ClimbEnds(ms, front, p, steps);
        OneMore(ms, ids, p, steps);
        SupersedesIs(ms, d, before.value, p);
        if Supersedes(ms, d, before.value, p) {
          steps := steps + [|ids| - 1];
        }
      }
    }
  }

  lemma FirstStep(ms: Manifests, ids: seq<DriveId>, p: Path)
    requires ids != [] && Holds(ms, ids[|ids| - 1], p) && forall d :: d in ids[..|ids| - 1] ==> !Holds(ms, d, p)
    ensures Climb(ms, ids, p, [|ids| - 1])
  {
    hide Holds;
    hide Supersedes;
    assert forall j :: 0 <= j < |ids| - 1 ==> ids[j] == ids[..|ids| - 1][j];
  }

  lemma ClimbEnds(ms: Manifests, ids: seq<DriveId>, p: Path, steps: seq<nat>)
    requires Climb(ms, ids, p, steps)
    ensures steps != [] && steps[|steps| - 1] < |ids|
  {
    hide Starts;
    hide StepUp;
    hide NothingUp;
  }

  lemma SupersedesIs(ms: Manifests, d: DriveId, c: DriveId, p: Path)
    requires Holds(ms, c, p)
    ensures Supersedes(ms, d, c, p) <==> Holds(ms, d, p) && Order(ms[d][p].vv, ms[c][p].vv) == Dominates
  {
    if Holds(ms, d, p) {
      OrderDecidesLeq(ms[d][p].vv, ms[c][p].vv);
    }
  }

  lemma UpInFront(ms: Manifests, ids: seq<DriveId>, p: Path, i: nat, n: nat)
    requires i < |ids| - 1 && n <= |ids| - 1
    ensures NothingUp(ms, ids[..|ids| - 1], p, i, n) <==> NothingUp(ms, ids, p, i, n)
    ensures n < |ids| - 1 ==> (StepUp(ms, ids[..|ids| - 1], p, i, n) <==> StepUp(ms, ids, p, i, n))
  {
    hide Supersedes;
    var front := ids[..|ids| - 1];
    assert forall j :: 0 <= j < |front| ==> front[j] == ids[j];
  }

  lemma StartsInFront(ms: Manifests, ids: seq<DriveId>, p: Path, i: nat)
    requires i < |ids| - 1
    ensures Starts(ms, ids[..|ids| - 1], p, i) <==> Starts(ms, ids, p, i)
  {
    var front := ids[..|ids| - 1];
    assert forall j :: 0 <= j < |front| ==> front[j] == ids[j];
  }

  /** A climb among all drives but the last goes on if that one's version supersedes, and else stays. */
  lemma OneMore(ms: Manifests, ids: seq<DriveId>, p: Path, steps: seq<nat>)
    requires ids != [] && Climb(ms, ids[..|ids| - 1], p, steps)
    ensures var d, c := ids[|ids| - 1], ids[steps[|steps| - 1]];
      Climb(ms, ids, p, if Supersedes(ms, d, c, p) then steps + [|ids| - 1] else steps)
  {
    hide Supersedes;
    hide Starts;
    hide StepUp;
    hide NothingUp;
    var front, last, top := ids[..|ids| - 1], |ids| - 1, steps[|steps| - 1];
    StartsInFront(ms, ids, p, steps[0]);
    UpInFront(ms, ids, p, top, last);
    forall k | 0 < k < |steps|
      ensures StepUp(ms, ids, p, steps[k - 1], steps[k])
    {
      UpInFront(ms, ids, p, steps[k - 1], steps[k]);
    }
    LastUp(ms, ids, p, top);
    var longer := steps + [last];
    assert forall k :: 0 <= k < |steps| ==> longer[k] == steps[k];
  }

  lemma LastUp(ms: Manifests, ids: seq<DriveId>, p: Path, top: nat)
    requires top < |ids| - 1 && NothingUp(ms, ids, p, top, |ids| - 1)
    ensures if Supersedes(ms, ids[|ids| - 1], ids[top], p) then
        StepUp(ms, ids, p, top, |ids| - 1) && NothingUp(ms, ids, p, |ids| - 1, |ids|)
      else NothingUp(ms, ids, p, top, |ids|)
  {
    hide Supersedes;
  }

  /** A drive whose version of the path some other drive's version neither knows nor is known to. */
  ghost predicate Disputed(ms: Manifests, w: DriveId, p: Path) {
    && w != "" && Holds(ms, w, p)
    && exists d :: Holds(ms, d, p) && !Leq(ms[w][p].vv, ms[d][p].vv) && !Leq(ms[d][p].vv, ms[w][p].vv)
  }

  /** A resolution, whatever conflict it was made for, decides on every path for which its winner's version
      is concurrent with another; of several such resolutions the first does. */
  lemma {:induction false} ResolvedMeans(ms: Manifests, res: seq<Resolution>, p: Path)
    ensures var w := Resolved(ms, res, p);
      if w.Some? then
        exists i :: 0 <= i < |res| && res[i].winner == w.value && Disputed(ms, w.value, p)
          && forall k :: 0 <= k < i ==> !Disputed(ms, res[k].winner, p)
      else forall k :: 0 <= k < |res| ==> !Disputed(ms, res[k].winner, p)
  {
    hide Disputed;
    hide Applies;
    if res != [] {
      DisputedIs(ms, res[0].winner, p);
      ResolvedMeans(ms, res[1..], p);
      var w := Resolved(ms, res, p);
      if !Disputed(ms, res[0].winner, p) {
        if w.Some? {
          var i :| 0 <= i < |res[1..]| && res[1..][i].winner == w.value && Disputed(ms, w.value, p)
            && forall k :: 0 <= k < i ==> !Disputed(ms, res[1..][k].winner, p);
          forall k | 0 <= k < i + 1
            ensures !Disputed(ms, res[k].winner, p)
          {
            if k > 0 {
              assert res[1..][k - 1] == res[k];
            }
          }
          assert res[i + 1].winner == w.value;
        } else {
          forall k | 0 <= k < |res|
            ensures !Disputed(ms, res[k].winner, p)
          {
            if k > 0 {
              assert res[1..][k - 1] == res[k];
            }
          }
        }
      }
    }
  }

  lemma DisputedIs(ms: Manifests, w: DriveId, p: Path)
    ensures Disputed(ms, w, p) <==> Applies(ms, w, p)
  {
    hide Leq;
    hide Order;
    if w in ms && p in ms[w] {
      LeqReflexive(ms[w][p].vv);
      OrderDecidesLeq(ms[w][p].vv, ms[w][p].vv);
      forall d | Holds(ms, d, p)
        ensures Order(ms[w][p].vv, ms[d][p].vv) == Concurrent
          <==> !Leq(ms[w][p].vv, ms[d][p].vv) && !Leq(ms[d][p].vv, ms[w][p].vv)
      {
        OrderDecidesLeq(ms[w][p].vv, ms[d][p].vv);
      }
      if Applies(ms, w, p) {
        var d :| d in ms && Rivals(ms, w, d, p);
        assert Holds(ms, d, p);
      }
      if Disputed(ms, w, p) {
        var d :| Holds(ms, d, p) && !Leq(ms[w][p].vv, ms[d][p].vv) && !Leq(ms[d][p].vv, ms[w][p].vv);
        assert Rivals(ms, w, d, p);
      }
    }
  }

  // ----- The planned operation --------------------------------------------------------------

  /** The drives that have deleted the path. */
  ghost function Deletions(ms: Manifests, p: Path): set<DriveId> {
    set d | d in ms && p in ms[d] && ms[d][p].tombstone
  }

  ghost predicate FirstDeletion(ms: Manifests, ids: seq<DriveId>, p: Path, s: DriveId) {
    exists i :: 0 <= i < |ids| && ids[i] == s && s in Deletions(ms, p) && NoneBefore(ms, ids, p, i)
  }

  ghost predicate NoneBefore(ms: Manifests, ids: seq<DriveId>, p: Path, n: nat)
    requires n <= |ids|
  {
    forall k :: 0 <= k < n ==> ids[k] !in Deletions(ms, p)
  }

  /** The source of a removal by quorum is the first drive with a tombstone. */
  lemma {:induction false} FirstTombstone(ms: Manifests, ids: seq<DriveId>, p: Path)
    requires "" !in ms
    ensures var s := Tombstones(ms, ids, p).source;
      if s == "" then NoneBefore(ms, ids, p, |ids|) else FirstDeletion(ms, ids, p, s)
  {
    if ids != [] {
      var front := ids[..|ids| - 1];
      FirstTombstone(ms, front, p);
      var s := Tombstones(ms, front, p).source;
      if s != "" {
        var i :| 0 <= i < |front| && front[i] == s && s in Deletions(ms, p) && NoneBefore(ms, front, p, i);
        assert ids[i] == s && NoneBefore(ms, ids, p, i);
      } else {
        assert NoneBefore(ms, ids, p, |front|);
        assert Tombstones(ms, ids, p).source != "" ==> ids[|front|] in Deletions(ms, p);
      }
    }
  }

  lemma FirstOfAll(ms: Manifests, ids: seq<DriveId>, p: Path, s: DriveId)
    requires Lined(ms, ids) && Deletions(ms, p) != {}
    requires if s == "" then NoneBefore(ms, ids, p, |ids|) else FirstDeletion(ms, ids, p, s)
    ensures IsLeast(s, Deletions(ms, p))
  {
    var e :| e in Deletions(ms, p);
    assert e in ids;
    var i :| 0 <= i < |ids| && ids[i] == s && s in Deletions(ms, p) && NoneBefore(ms, ids, p, i);
    forall d | d in Deletions(ms, p) && d != s
      ensures Less(s, d)
    {
      var j :| 0 <= j < |ids| && ids[j] == d;
    }
  }

  /** What is planned for a drive and a path that no rename touches. A majority of deletions removes the path
      wherever it is live. Otherwise the source's deletion is carried to every drive where the path is
      live; and where the source is live, a drive that lacks the path gets a copy and one that has other
      contents or a superseded version gets a replacement. */
  lemma OpForMeans(ms: Manifests, res: seq<Resolution>, t: DriveId, p: Path)
    ensures var o := OpFor(ms, res, t, p);
      && (o.Some? ==> o.value.target == t && o.value.path == p && o.value.newPath == None && t in ms)
      && if |Deletions(ms, p)| * 2 > |ms| then
           && (o.Some? <==> Holds(ms, t, p) && !ms[t][p].tombstone)
           && (o.Some? ==> o.value.kind == REMOVE)
           && (o.Some? && "" !in ms ==> IsLeast(o.value.source, Deletions(ms, p)))
         else
           var s := SourceOf(ms, res, p);
           var open := s.Some? && t in ms && t != s.value;
           && (o.Some? ==> s == Some(o.value.source))
           && (o.Some? && o.value.kind == REMOVE
               <==> open && ms[s.value][p].tombstone && Holds(ms, t, p) && !ms[t][p].tombstone)
           && (o.Some? && o.value.kind == COPY
               <==> open && !ms[s.value][p].tombstone && (Holds(ms, t, p) ==> ms[t][p].tombstone))
           && (o.Some? && o.value.kind == REPLACE
               <==> open && !ms[s.value][p].tombstone && Holds(ms, t, p) && !ms[t][p].tombstone
                    && (ms[t][p].hash != ms[s.value][p].hash || Supersedes(ms, s.value, t, p)))
           && (o.Some? ==> o.value.kind in {REMOVE, COPY, REPLACE})
  {
    hide Quorum;
    hide SourceOf;
    hide JoinAt;
    hide Order;
    hide Leq;
    hide IsLeast;
    hide Supersedes;
    hide Tombstones;
    hide Deletions;
    QuorumCounted(ms, p);
    if Quorum(ms, p) {
      if "" !in ms && Holds(ms, t, p) {
        QuorumSource(ms, p);
      }
    } else {
      var s := SourceOf(ms, res, p);
      if s.Some? && Holds(ms, t, p) {
        SupersedesIs(ms, s.value, t, p);
      }
    }
  }

  lemma QuorumCounted(ms: Manifests, p: Path)
    ensures Quorum(ms, p) <==> |Deletions(ms, p)| * 2 > |ms|
  {
    QuorumIsMajority(ms, p);
    assert Deletions(ms, p) == TombstonedOn(ms, p);
  }

  lemma QuorumSource(ms: Manifests, p: Path)
    requires Quorum(ms, p) && "" !in ms
    ensures IsLeast(Tombstones(ms, Ids(ms), p).source, Deletions(ms, p))
  {
    hide Tombstones;
    hide Quorum;
    hide IsLeast;
    QuorumCounted(ms, p);
    FirstTombstone(ms, Ids(ms), p);
    FirstOfAll(ms, Ids(ms), p, Tombstones(ms, Ids(ms), p).source);
  }
}
