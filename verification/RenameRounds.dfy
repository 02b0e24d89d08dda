/** What a detected rename does: the vector it installs and the files it leaves. */
module RenameRounds {
  import opened Base
  import opened SyncOps
  import opened VersionVectors
  import opened Drives
  import opened CrashSafety
  import opened Executor
  import opened ConflictResolver
  import opened RenameDetection
  import opened PlanRules
  import opened SyncPlanner
  import opened Convergence

  // ----- The vector -------------------------------------------------------------------------

  /** `c` knows of every version under either name. */
  ghost predicate KnowsBoth(ms: Manifests, ids: seq<DriveId>, p: Path, q: Path, c: Clocks) {
    forall d :: d in ids && d in ms ==> (p in ms[d] ==> Leq(ms[d][p].vv, c)) && (q in ms[d] ==> Leq(ms[d][q].vv, c))
  }

  function JoinIf(c: Clocks, m: Manifest, p: Path): Clocks {
    if p in m then Join(c, m[p].vv) else c
  }

  lemma JoinIfIsLub(a: Clocks, m: Manifest, p: Path, c: Clocks)
    ensures Leq(a, JoinIf(a, m, p)) && (p in m ==> Leq(m[p].vv, JoinIf(a, m, p)))
    ensures Leq(JoinIf(a, m, p), c) <==> Leq(a, c) && (p in m ==> Leq(m[p].vv, c))
  {
    hide Leq;
    LeqReflexive(a);
    if p in m {
      JoinIsLeastUpperBound(a, m[p].vv, c);
    }
  }

  lemma {:induction false} MergedTwoIsLub(
    ms: Manifests, ids: seq<DriveId>, p: Path, q: Path, start: Clocks, c: Clocks)
    ensures Leq(start, MergedTwo(ms, ids, p, q, start)) && KnowsBoth(ms, ids, p, q, MergedTwo(ms, ids, p, q, start))
    ensures Leq(start, c) && KnowsBoth(ms, ids, p, q, c) ==> Leq(MergedTwo(ms, ids, p, q, start), c)
  {
    hide Leq;
    hide Join;
    if ids == [] {
      LeqReflexive(start);
    } else {
      var front, d := ids[..|ids| - 1], ids[|ids| - 1];
      var before, all := MergedTwo(ms, front, p, q, start), MergedTwo(ms, ids, p, q, start);
      MergedTwoIsLub(ms, front, p, q, start, c);
      LeqReflexive(before);
      if d in ms {
        var one := JoinIf(before, ms[d], p);
        JoinIfIsLub(before, ms[d], p, c);
        JoinIfIsLub(one, ms[d], q, c);
        assert all == JoinIf(one, ms[d], q);
        LeqTransitive(before, one, all);
        if p in ms[d] {
          LeqTransitive(ms[d][p].vv, one, all);
        }
      }
      LeqTransitive(start, before, all);
      forall e | e in front && e in ms
        ensures p in ms[e] ==> Leq(ms[e][p].vv, all)
        ensures q in ms[e] ==> Leq(ms[e][q].vv, all)
      {
        if p in ms[e] {
          LeqTransitive(ms[e][p].vv, before, all);
        }
        if q in ms[e] {
          LeqTransitive(ms[e][q].vv, before, all);
        }
      }
      assert forall e :: e in ids <==> e in front || e == d;
    }
  }

  lemma {:induction false} RenameSourceIsLive(ms: Manifests, ids: seq<DriveId>, t: DriveId, q: Path)
    requires "" !in ids
    ensures var s := RenameSource(ms, ids, t, q);
      if s == "" then forall d :: d in ids && d != t && d in ms ==> !Live(ms[d], q)
      else s in ids && s != t && s in ms && Live(ms[s], q)
  {
    if ids != [] {
      RenameSourceIsLive(ms, ids[1..], t, q);
    }
  }

  lemma {:induction false} RenameSourceIsFirst(ms: Manifests, ids: seq<DriveId>, t: DriveId, q: Path)
    requires StrictlySorted(ids) && "" !in ids
    ensures var s := RenameSource(ms, ids, t, q);
      s != "" ==> forall d :: d in ids && d != t && d in ms && Live(ms[d], q) && d != s ==> Less(s, d)
  {
    if ids != [] {
      RenameSourceIsFirst(ms, ids[1..], t, q);
      forall d | d in ids && d != ids[0]
        ensures Less(ids[0], d) && d in ids[1..]
      {
        var k :| 0 <= k < |ids| && ids[k] == d;
        assert ids[1..][k - 1] == d;
      }
    }
  }

  /** Every detected rename becomes an operation, and no drive's clocks go back in it: the vector that
      it installs is the least one that knows of every version under either name. */
  lemma RenameInstallsJoin(ms: Manifests, s: DriveId, t: DriveId, p: Path, q: Path, c: Clocks)
    requires "" !in ms && IsRename(ms, s, t, p, q)
    ensures |RenameOps(ms, t, p, q)| == 1
    ensures var op := RenameOps(ms, t, p, q)[0];
      && op.kind == RENAME && op.target == t && op.path == p && op.newPath == Some(q)
      && IsLeast(op.source, set d | d in ms && d != t && Live(ms[d], q))
    ensures var vv := RenameOps(ms, t, p, q)[0].vv;
      && KnowsBoth(ms, Ids(ms), p, q, vv)
      && (KnowsBoth(ms, Ids(ms), p, q, c) ==> Leq(vv, c))
  {
    hide MergedTwo;
    hide Leq;
    RenameSourceIsLive(ms, Ids(ms), t, q);
    RenameSourceIsFirst(ms, Ids(ms), t, q);
    var from := RenameSource(ms, Ids(ms), t, q);
    MergedTwoIsLub(ms, Ids(ms), p, q, ms[from][q].vv, c);
  }

  // ----- The files --------------------------------------------------------------------------

  /** A detected rename gives the target, under the new name, the bytes that the drive it was detected
      on has there; it costs the target the old name and nothing else, and is not detected again. */
  lemma RenameDelivers(h: Bytes -> Digest, f: Fleet, s: DriveId, t: DriveId, p: Path, q: Path, op: SyncOp)
    requires Sane(h, f) && CollisionFree(h, f) && IsRename(ManifestsOf(f), s, t, p, q)
    requires op.kind == RENAME && op.Key() == (t, p) && op.newPath == Some(q)
    ensures Succeeds(h, f, op)
    ensures var g := Applied(h, f, op);
      && g.Keys == f.Keys && (forall d :: d in f && d != t ==> g[d] == f[d]) && Sane(h, g)
      && Lookup(g[t].disk, q) == Lookup(f[s].disk, q) && p !in g[t].disk && p !in g[t].manifest
      && Lookup(g[t].manifest, q) == Some(f[t].manifest[p].(vv := op.vv))
      && (forall x :: x != p && x != q ==>
            Lookup(g[t].disk, x) == Lookup(f[t].disk, x) && Lookup(g[t].manifest, x) == Lookup(f[t].manifest, x))
      && !IsRename(ManifestsOf(g), s, t, p, q)
  {
    hide Sane;
    hide CollisionFree;
    hide IsTmp;
    hide AllPaths;
    hide Applied;
    hide RenamedManifest;
    var g := Applied(h, f, op);
    MatchesOf(h, f, s);
    MatchesOf(h, f, t);
    SameContents(h, f, s, q, f[t].disk[p]);
    RenameApplied(h, f, op, q);
    RenamedMatches(h, f[t], p, q, op.vv);
    RenamedEntries(f[t].manifest, p, q, op.vv);
    NewNameTracked(f, s, q);
    RenamedPaths(f, g, t, p, q);
    StillSane(h, f, g, t);
  }

  /** A drive on which a detected rename is carried out has the renamed entry under the new name, with the least vector
      that knows of every version under either name. */
  lemma RenameIsRecorded(h: Bytes -> Digest, f: Fleet, s: DriveId, t: DriveId, p: Path, q: Path, op: SyncOp, c: Clocks)
    requires Sane(h, f) && CollisionFree(h, f) && "" !in f && IsRename(ManifestsOf(f), s, t, p, q)
    requires RenameOps(ManifestsOf(f), t, p, q) == [op]
    ensures var g := Applied(h, f, op);
      && t in g && q in g[t].manifest && g[t].manifest[q] == f[t].manifest[p].(vv := g[t].manifest[q].vv)
      && (forall d :: d in f && p in f[d].manifest ==> Leq(f[d].manifest[p].vv, g[t].manifest[q].vv))
      && (forall d :: d in f && q in f[d].manifest ==> Leq(f[d].manifest[q].vv, g[t].manifest[q].vv))
      && ((forall d :: d in f && p in f[d].manifest ==> Leq(f[d].manifest[p].vv, c))
          && (forall d :: d in f && q in f[d].manifest ==> Leq(f[d].manifest[q].vv, c)) ==>
            Leq(g[t].manifest[q].vv, c))
  {
    hide Sane;
    hide CollisionFree;
    hide IsTmp;
    hide Applied;
    hide RenameOps;
    hide Leq;
    hide IsRename;
    var ms := ManifestsOf(f);
    assert "" !in ms;
    RenameInstallsJoin(ms, s, t, p, q, c);
    RenameDelivers(h, f, s, t, p, q, op);
    assert forall d :: d in Ids(ms) <==> d in f;
  }

  lemma RenameApplied(h: Bytes -> Digest, f: Fleet, op: SyncOp, q: Path)
    requires op.kind == RENAME && op.newPath == Some(q) && op.target in f && op.path in f[op.target].disk
    ensures var t := f[op.target];
      && Succeeds(h, f, op)
      && Applied(h, f, op) == f[op.target := Replica((t.disk - {op.path})[q := t.disk[op.path]],
                                                     RenamedManifest(t.manifest, op.path, q, op.vv))]
  {
    hide RenamedManifest;
  }

  lemma RenamedEntries(m: Manifest, p: Path, q: Path, vv: Clocks)
    requires p in m && p != q
    ensures var n := RenamedManifest(m, p, q, vv);
      && p !in n && n.Keys <= m.Keys + {q} && Lookup(n, q) == Some(m[p].(vv := vv))
      && (forall x :: x != p && x != q ==> Lookup(n, x) == Lookup(m, x))
  {
  }

  lemma NewNameTracked(f: Fleet, s: DriveId, q: Path)
    requires s in f && q in f[s].manifest
    ensures q in AllPaths(ManifestsOf(f))
  {
    assert s in ManifestsOf(f);
  }

  lemma RenamedMatches(h: Bytes -> Digest, r: Replica, p: Path, q: Path, vv: Clocks)
    requires Matches(h, r) && Live(r.manifest, p)
    ensures Matches(h, Replica((r.disk - {p})[q := r.disk[p]], RenamedManifest(r.manifest, p, q, vv)))
  {
  }

  lemma MatchesOf(h: Bytes -> Digest, f: Fleet, d: DriveId)
    requires Sane(h, f) && d in f
    ensures Matches(h, f[d])
  {
  }

  lemma SameContents(h: Bytes -> Digest, f: Fleet, s: DriveId, q: Path, x: Bytes)
    requires CollisionFree(h, f) && s in f && q in f[s].disk && h(x) == h(f[s].disk[q])
    ensures x == f[s].disk[q]
  {
  }

  lemma StillSane(h: Bytes -> Digest, f: Fleet, g: Fleet, t: DriveId)
    requires Sane(h, f) && g.Keys == f.Keys && t in f && forall d :: d in f && d != t ==> g[d] == f[d]
    requires Matches(h, g[t]) && AllPaths(ManifestsOf(g)) <= AllPaths(ManifestsOf(f))
    ensures Sane(h, g)
  {
    hide Matches;
    hide IsTmp;
    hide AllPaths;
  }

  lemma RenamedPaths(f: Fleet, g: Fleet, t: DriveId, p: Path, q: Path)
    requires g.Keys == f.Keys && t in f && (forall d :: d in f && d != t ==> g[d] == f[d])
    requires g[t].manifest.Keys <= f[t].manifest.Keys + {q} && q in AllPaths(ManifestsOf(f))
    ensures AllPaths(ManifestsOf(g)) <= AllPaths(ManifestsOf(f))
  {
    forall d, x | d in g && x in g[d].manifest
      ensures x in AllPaths(ManifestsOf(f))
    {
      assert d in ManifestsOf(f);
    }
  }

  lemma OneRename(ms: Manifests, s: DriveId, t: DriveId, p: Path, q: Path)
    requires "" !in ms && IsRename(ms, s, t, p, q)
    ensures exists op: SyncOp ::
      RenameOps(ms, t, p, q) == [op] && op.kind == RENAME && op.Key() == (t, p) && op.newPath == Some(q)
  {
    hide MergedTwo;
    RenameInstallsJoin(ms, s, t, p, q, map[]);
    var ops := RenameOps(ms, t, p, q);
    assert ops == [ops[0]];
  }

  lemma RenameOnDisk(h: Bytes -> Digest, f: Fleet, op: SyncOp, q: Path)
    requires op.kind == RENAME && op.newPath == Some(q) && op.target in f && op.path in f[op.target].disk
    ensures var g := Applied(h, f, op);
      && g.Keys == f.Keys && (forall d :: d in f && d != op.target ==> g[d] == f[d])
      && g[op.target].disk == (f[op.target].disk - {op.path})[q := f[op.target].disk[op.path]]
  {
    hide RenamedManifest;
  }
}
