/** A conflict settled by hand: every manifest takes the chosen drive's entry. */
module ManualResolution {
  import opened Base
  import opened SyncOps
  import opened VersionVectors
  import opened Drives
  import opened Executor
  import opened ConflictResolver
  import opened PlanRules
  import opened Convergence

  /** The merge of all known vectors, with the winner's clock advanced. */
  function HandVector(ms: Manifests, p: Path, use: DriveId): Clocks
    requires use in ms && p in ms[use]
  {
    Bumped(JoinAt(ms, p, use), use)
  }

  /** Every manifest takes the winner's entry; no file is touched. */
  function HandResolved(f: Fleet, p: Path, use: DriveId): Fleet
    requires use in f && p in f[use].manifest
  {
    var entry := f[use].manifest[p].(vv := HandVector(ManifestsOf(f), p, use));
    map d | d in f :: Noted(f[d], p, entry)
  }

  /** `merge` of all vectors of the path into one object, then `increment`. */
  method MergeByHand(ms: Manifests, p: Path, use: DriveId) returns (vv: Clocks)
    requires use in ms && p in ms[use]
    ensures vv == HandVector(ms, p, use)
  {
    hide Join;
    hide Merged;
    var start := ms[use][p].vv;
    var merged := new VersionVector(start);
    var ids := Ids(ms);
    MergedNone(ms, ids, p, start);
    for i := 0 to |ids|
      invariant merged.clocks == Merged(ms, ids[..i], p, start)
    {
      MergedOne(ms, ids, i, p, start);
      var meta := if ids[i] in ms then Lookup(ms[ids[i]], p) else None;
      if meta.Some? {
        var other := new VersionVector(meta.value.vv);
        merged.Merge(other);
      }
    }
    assert ids[..|ids|] == ids;
    merged.Increment(use);
    vv := merged.clocks;
  }

  lemma MergedNone(ms: Manifests, ids: seq<DriveId>, p: Path, start: Clocks)
    ensures Merged(ms, ids[..0], p, start) == start
  {
  }

  lemma MergedOne(ms: Manifests, ids: seq<DriveId>, i: nat, p: Path, start: Clocks)
    requires i < |ids|
    ensures var before, all := Merged(ms, ids[..i], p, start), Merged(ms, ids[..i + 1], p, start);
      all == if ids[i] in ms && p in ms[ids[i]] then Join(before, ms[ids[i]][p].vv) else before
  {
    hide Join;
    assert ids[..i + 1][..i] == ids[..i];
  }

  method ResolveByHand(p: Path, use: DriveId, drives: map<DriveId, Drive>) returns (ok: bool)
    requires Wired(drives)
    modifies set d | d in drives :: drives[d]
    ensures Wired(drives) && LogsOf(drives) == old(LogsOf(drives))
    ensures ok == (use in drives && p in old(FleetOf(drives))[use].manifest)
    ensures !ok ==> FleetOf(drives) == old(FleetOf(drives))
    ensures ok ==> FleetOf(drives) == HandResolved(old(FleetOf(drives)), p, use)
  {
    hide *;
    Entries(drives);
    if use !in drives {
      return false;
    }
    var found := drives[use].GetFile(p);
    Found(drives[use].manifest, p);
    if found.None? {
      return false;
    }
    ghost var f := FleetOf(drives);
    var ms := map d | d in drives :: drives[d].manifest;
    SameManifests(drives, ms);
    var vv := MergeByHand(ms, p, use);
    RecordEverywhere(p, found.value.(vv := vv), drives);
    ok := true;
    IsHandResolved(f, FleetOf(drives), p, use, found.value.(vv := vv));
  }

  lemma Entries(drives: map<DriveId, Drive>)
    ensures FleetOf(drives).Keys == drives.Keys
    ensures forall d :: d in drives ==> FleetOf(drives)[d].manifest == drives[d].manifest
  {
  }

  lemma Found(m: Manifest, p: Path)
    ensures Lookup(m, p) == if p in m then Some(m[p]) else None
  {
  }

  lemma IsHandResolved(f: Fleet, g: Fleet, p: Path, use: DriveId, entry: Meta)
    requires use in f && p in f[use].manifest
    requires entry == f[use].manifest[p].(vv := HandVector(ManifestsOf(f), p, use))
    requires g.Keys == f.Keys && forall d :: d in f ==> g[d] == Noted(f[d], p, entry)
    ensures g == HandResolved(f, p, use)
  {
    hide HandVector;
  }

  function Noted(r: Replica, p: Path, entry: Meta): Replica {
    Replica(r.disk, r.manifest[p := entry])
  }

  /** The entry recorded on the drives `ids`. */
  function Spread(f: Fleet, ids: seq<DriveId>, p: Path, entry: Meta): Fleet {
    if ids == [] then f
    else
      var last, before := ids[|ids| - 1], Spread(f, ids[..|ids| - 1], p, entry);
      if last in f then before[last := Noted(f[last], p, entry)] else before
  }

  lemma SpreadOne(f: Fleet, ids: seq<DriveId>, i: nat, p: Path, entry: Meta)
    requires i < |ids| && ids[i] in f && ids[i] !in ids[..i]
    ensures Spread(f, ids[..i], p, entry).Keys == f.Keys
    ensures var before := Spread(f, ids[..i], p, entry);
      Spread(f, ids[..i + 1], p, entry) == before[ids[i] := Noted(before[ids[i]], p, entry)]
  {
    hide Noted;
    assert ids[..i + 1][..i] == ids[..i];
    SpreadCells(f, ids[..i], p, entry);
  }

  lemma {:induction false} SpreadCells(f: Fleet, ids: seq<DriveId>, p: Path, entry: Meta)
    ensures Spread(f, ids, p, entry).Keys == f.Keys
    ensures forall d :: d in f ==>
      Spread(f, ids, p, entry)[d] == if d in ids then Noted(f[d], p, entry) else f[d]
  {
    hide Noted;
    if ids != [] {
      SpreadCells(f, ids[..|ids| - 1], p, entry);
      assert forall d :: d in ids <==> d in ids[..|ids| - 1] || d == ids[|ids| - 1];
    }
  }

  method RecordEverywhere(p: Path, entry: Meta, drives: map<DriveId, Drive>)
    requires Wired(drives)
    modifies set d | d in drives :: drives[d]
    ensures Wired(drives) && LogsOf(drives) == old(LogsOf(drives))
    ensures FleetOf(drives).Keys == old(FleetOf(drives)).Keys
    ensures forall d :: d in old(FleetOf(drives)) ==> FleetOf(drives)[d] == Noted(old(FleetOf(drives))[d], p, entry)
  {
    hide *;
    Entries(drives);
    ghost var f, logs := FleetOf(drives), LogsOf(drives);
    var ids := Sorted(drives.Keys);
    SpreadNone(f, ids, p, entry);
    for i := 0 to |ids|
      invariant Wired(drives) && LogsOf(drives) == logs
      invariant FleetOf(drives) == Spread(f, ids[..i], p, entry)
    {
      assert ids[i] in ids;
      Fresh(ids, i);
      SpreadOne(f, ids, i, p, entry);
      RecordOne(p, entry, ids[i], drives);
    }
    assert ids[..|ids|] == ids;
    SpreadCells(f, ids, p, entry);
  }

  lemma Fresh(ids: seq<DriveId>, i: nat)
    requires i < |ids| && forall k, j :: 0 <= k < j < |ids| ==> ids[k] != ids[j]
    ensures ids[i] !in ids[..i]
  {
  }

  lemma SpreadNone(f: Fleet, ids: seq<DriveId>, p: Path, entry: Meta)
    ensures Spread(f, ids[..0], p, entry) == f
  {
  }

  method RecordOne(p: Path, entry: Meta, id: DriveId, drives: map<DriveId, Drive>)
    requires Wired(drives) && id in drives
    modifies drives[id]
    ensures Wired(drives) && LogsOf(drives) == old(LogsOf(drives))
    ensures FleetOf(drives) == old(FleetOf(drives))[id := Noted(old(FleetOf(drives))[id], p, entry)]
  {
    ghost var f := FleetOf(drives);
    drives[id].UpsertFile(p, entry);
    OnlyOneChanged(f, FleetOf(drives), id);
  }

  /** Afterwards the path is in no conflict, and no sync has anything to do for it. */
  lemma HandResolvedIsQuiet(f: Fleet, p: Path, use: DriveId, res: seq<Resolution>, t: DriveId)
    requires use in f && p in f[use].manifest
    ensures var ms := ManifestsOf(HandResolved(f, p, use));
      !InConflict(Versions(ms, p)) && OpFor(ms, res, t, p).None?
  {
    hide HandVector;
    hide OpFor;
    hide Clash;
    var ms := ManifestsOf(HandResolved(f, p, use));
    var entry := f[use].manifest[p].(vv := HandVector(ManifestsOf(f), p, use));
    assert forall d :: d in ms ==> p in ms[d] && ms[d][p] == entry;
    SameIsQuiet(ms, p, entry, res, t);
    NoClash(entry);
  }

  lemma NoClash(m: Meta)
    ensures !Clash(m, m)
  {
    OrderDecidesLeq(m.vv, m.vv);
    LeqReflexive(m.vv);
  }

  /** Where all drives hold one entry, there is nothing to do. */
  lemma SameIsQuiet(ms: Manifests, p: Path, entry: Meta, res: seq<Resolution>, t: DriveId)
    requires forall d :: d in ms ==> p in ms[d] && ms[d][p] == entry
    ensures OpFor(ms, res, t, p).None?
  {
    hide Tombstones;
    hide SourceOf;
    hide JoinAt;
    hide Leq;
    hide Order;
    hide Quorum;
    OrderDecidesLeq(entry.vv, entry.vv);
    LeqReflexive(entry.vv);
    if !entry.tombstone {
      QuorumIsMajority(ms, p);
      assert TombstonedOn(ms, p) == {};
    }
  }

  lemma {:induction false} MergedFrom(ms: Manifests, ids: seq<DriveId>, p: Path, start: Clocks, k: string)
    ensures var c := Clock(Merged(ms, ids, p, start), k);
      c == Clock(start, k) || exists d :: d in ms && p in ms[d] && c == Clock(ms[d][p].vv, k)
  {
    if ids != [] {
      var front, d := ids[..|ids| - 1], ids[|ids| - 1];
      MergedFrom(ms, front, p, start, k);
      if d in ms && p in ms[d] {
        ClockOfJoin(Merged(ms, front, p, start), ms[d][p].vv, k);
      }
    }
  }

  /** The new vector supersedes every version there was, unless the winner's clock wraps around. */
  lemma HandVectorAdvances(ms: Manifests, p: Path, use: DriveId)
    requires use in ms && p in ms[use]
    ensures (forall d :: d in ms && p in ms[d] ==> Order(HandVector(ms, p, use), ms[d][p].vv) == Dominates)
       <==> Clock(JoinAt(ms, p, use), use) + 1 < TWO_64
  {
    hide Order;
    hide Leq;
    hide Bumped;
    hide Merged;
    var joined, vv := JoinAt(ms, p, use), HandVector(ms, p, use);
    BumpAdvances(joined, use);
    OrderDecidesLeq(vv, joined);
    JoinAtIsLub(ms, p, use, joined);
    forall d | d in ms && p in ms[d]
      ensures Clock(joined, use) + 1 < TWO_64 ==> Order(vv, ms[d][p].vv) == Dominates
    {
      OrderDecidesLeq(vv, ms[d][p].vv);
      if Clock(joined, use) + 1 < TWO_64 {
        LeqTransitive(ms[d][p].vv, joined, vv);
        if Leq(vv, ms[d][p].vv) {
          LeqTransitive(vv, ms[d][p].vv, joined);
        }
      }
    }
    MergedFrom(ms, Ids(ms), p, ms[use][p].vv, use);
    var d :| d in ms && p in ms[d] && Clock(joined, use) == Clock(ms[d][p].vv, use);
    if Clock(joined, use) + 1 == TWO_64 {
      FallsBehind(joined, use, ms[d][p].vv);
    }
  }

  lemma FallsBehind(joined: Clocks, use: DriveId, other: Clocks)
    requires Clock(joined, use) + 1 == TWO_64 && Clock(other, use) == Clock(joined, use)
    ensures Order(Bumped(joined, use), other) != Dominates
  {
    OrderDecidesLeq(Bumped(joined, use), other);
    assert Clock(Bumped(joined, use), use) == 0;
  }

  /** No version of the path has a greater clock for `k` than the one on drive `d`. */
  ghost predicate Greatest(ms: Manifests, p: Path, k: string, d: DriveId) {
    d in ms && p in ms[d] && forall e :: e in ms && p in ms[e] ==> Clock(ms[e][p].vv, k) <= Clock(ms[d][p].vv, k)
  }

  lemma JoinedClock(ms: Manifests, p: Path, use: DriveId, k: string) returns (d: DriveId)
    requires use in ms && p in ms[use]
    ensures Greatest(ms, p, k, d) && Clock(JoinAt(ms, p, use), k) == Clock(ms[d][p].vv, k)
  {
    hide Merged;
    hide Leq;
    MergedFrom(ms, Ids(ms), p, ms[use][p].vv, k);
    JoinAtIsLub(ms, p, use, map[]);
    var joined := JoinAt(ms, p, use);
    d :| d in ms && p in ms[d] && Clock(joined, k) == Clock(ms[d][p].vv, k);
    forall e | e in ms && p in ms[e]
      ensures Clock(ms[e][p].vv, k) <= Clock(ms[d][p].vv, k)
    {
      LeqAt(ms[e][p].vv, joined, k);
    }
  }

  lemma LeqAt(a: Clocks, b: Clocks, k: string)
    requires Leq(a, b)
    ensures Clock(a, k) <= Clock(b, k)
  {
  }

  /** The new vector, clock by clock: the greatest there is in any version, one more for the winner's own, modulo
      2^64. */
  lemma HandVectorIs(ms: Manifests, p: Path, use: DriveId, k: string) returns (d: DriveId)
    requires use in ms && p in ms[use]
    ensures Greatest(ms, p, k, d)
    ensures Clock(HandVector(ms, p, use), k)
      == if k == use then (Clock(ms[d][p].vv, k) + 1) % 0x1_0000_0000_0000_0000 else Clock(ms[d][p].vv, k)
  {
    hide JoinAt;
    hide Greatest;
    d := JoinedClock(ms, p, use, k);
    BumpedClocks(JoinAt(ms, p, use), use);
  }

  /** Settled by hand, every drive has the winner's entry with the new vector, and nothing else has changed. */
  lemma HandResolvedIs(f: Fleet, p: Path, use: DriveId, d: DriveId, q: Path)
    requires use in f && p in f[use].manifest
    ensures var g := HandResolved(f, p, use);
      && g.Keys == f.Keys
      && (d in f ==> g[d].disk == f[d].disk && p in g[d].manifest)
      && (d in f && q != p ==> Lookup(g[d].manifest, q) == Lookup(f[d].manifest, q))
      && (d in f ==> g[d].manifest[p] == f[use].manifest[p].(vv := HandVector(ManifestsOf(f), p, use)))
  {
    hide HandVector;
  }

  ghost predicate MatchesAt(h: Bytes -> Digest, r: Replica, p: Path) {
    && (p in r.disk <==> Live(r.manifest, p))
    && (p in r.disk ==> h(r.disk[p]) == r.manifest[p].hash)
  }

  /** Settling a conflict by hand moves no bytes, now or at the next sync: a drive ends up with what its
      manifest then says exactly if it already had it. */
  lemma HandResolvedMovesNothing(
    h: Bytes -> Digest, f: Fleet, p: Path, use: DriveId, res: seq<Resolution>, g: Fleet, t: DriveId)
    requires use in f && p in f[use].manifest && t in f && Reached(HandResolved(f, p, use), res, g)
    ensures t in g && Lookup(g[t].disk, p) == Lookup(f[t].disk, p)
    ensures var entry := f[use].manifest[p];
      MatchesAt(h, g[t], p) <==>
        if entry.tombstone then p !in f[t].disk else p in f[t].disk && h(f[t].disk[p]) == entry.hash
  {
    hide HandVector;
    hide OpFor;
    HandResolvedIsQuiet(f, p, use, res, t);
    assert CellAt(HandResolved(f, p, use), res, g, t, p, true);
  }

  lemma OnlyOneChanged(before: Fleet, after: Fleet, id: DriveId)
    requires id in before && after.Keys == before.Keys
    requires forall d :: d in before && d != id ==> after[d] == before[d]
    ensures after == before[id := after[id]]
  {
  }
}
