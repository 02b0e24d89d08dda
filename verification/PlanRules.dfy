/** The planner's decisions, one drive and one path at a time: which version is the source, and which
    operation, if any, brings a drive up to it. */
module PlanRules {
  import opened Base
  import opened SyncOps
  import opened VersionVectors
  import opened Drives
  import opened ConflictResolver

  // ----- Folds over the drives in id order --------------------------------------------------

  /** `start` merged with every vector the drives `ids` hold for `p`. */
  function Merged(ms: Manifests, ids: seq<DriveId>, p: Path, start: Clocks): Clocks {
    if ids == [] then start
    else
      var d, before := ids[|ids| - 1], Merged(ms, ids[..|ids| - 1], p, start);
      if d in ms && p in ms[d] then Join(before, ms[d][p].vv) else before
  }

  /** How many drives hold a tombstone, the first of them, and the merge of their vectors. */
  datatype Tombs = Tombs(count: nat, source: DriveId, vv: Clocks)

  function Tombstones(ms: Manifests, ids: seq<DriveId>, p: Path): Tombs {
    if ids == [] then Tombs(0, "", map[])
    else
      var d, before := ids[|ids| - 1], Tombstones(ms, ids[..|ids| - 1], p);
      if d !in ms || p !in ms[d] || !ms[d][p].tombstone then before
      else if before.source == "" then Tombs(before.count + 1, d, ms[d][p].vv)
      else Tombs(before.count + 1, before.source, Join(before.vv, ms[d][p].vv))
  }

  /** The running choice of a source: a later version replaces it only if it dominates. */
  function Dominant(ms: Manifests, ids: seq<DriveId>, p: Path): Option<DriveId>
    ensures Dominant(ms, ids, p).Some? ==>
      var d := Dominant(ms, ids, p).value; d in ids && d in ms && p in ms[d]
  {
    if ids == [] then None
    else
      var d, before := ids[|ids| - 1], Dominant(ms, ids[..|ids| - 1], p);
      if d !in ms || p !in ms[d] then before
      else if before.None? then Some(d)
      else if Order(ms[d][p].vv, ms[before.value][p].vv) == Dominates then Some(d)
      else before
  }

  // ----- The source -------------------------------------------------------------------------

  function Ids(ms: Manifests): seq<DriveId> {
    Sorted(ms.Keys)
  }

  /** More than half of all drives hold a tombstone for the path. */
  predicate Quorum(ms: Manifests, p: Path) {
    Tombstones(ms, Ids(ms), p).count * 2 > |ms|
  }

  /** A resolution's winner is used for a path if its version there is concurrent with another. It
      need not be the resolution of that path. */
  predicate Applies(ms: Manifests, w: DriveId, p: Path) {
    && w != "" && w in ms && p in ms[w]
    && exists d :: d in ms && Rivals(ms, w, d, p)
  }

  /** Two drives hold concurrent versions of the path. */
  predicate Rivals(ms: Manifests, w: DriveId, d: DriveId, p: Path)
    requires w in ms && p in ms[w] && d in ms
  {
    d != w && p in ms[d] && Order(ms[w][p].vv, ms[d][p].vv) == Concurrent
  }

  function Resolved(ms: Manifests, res: seq<Resolution>, p: Path): Option<DriveId>
    ensures Resolved(ms, res, p).Some? ==> Applies(ms, Resolved(ms, res, p).value, p)
  {
    if res == [] then None
    else if Applies(ms, res[0].winner, p) then Some(res[0].winner)
    else Resolved(ms, res[1..], p)
  }

  function SourceOf(ms: Manifests, res: seq<Resolution>, p: Path): (s: Option<DriveId>)
    ensures s.Some? ==> s.value in ms && p in ms[s.value]
  {
    var chosen := Resolved(ms, res, p);
    if chosen.Some? then chosen else Dominant(ms, Ids(ms), p)
  }

  /** The vector that every operation on `p` from source `s` installs. */
  function JoinAt(ms: Manifests, p: Path, s: DriveId): Clocks
    requires s in ms && p in ms[s]
  {
    Merged(ms, Ids(ms), p, ms[s][p].vv)
  }

  // ----- The operation ----------------------------------------------------------------------

  function RemovalFor(ms: Manifests, t: DriveId, p: Path, source: DriveId, vv: Clocks): Option<SyncOp> {
    if t in ms && Live(ms[t], p) then Some(SyncOp(REMOVE, source, t, p, None, vv)) else None
  }

  /** The operation planned for drive `t` and path `p` when no rename is involved. */
  function OpFor(ms: Manifests, res: seq<Resolution>, t: DriveId, p: Path): Option<SyncOp> {
    if Quorum(ms, p) then
      var tombs := Tombstones(ms, Ids(ms), p);
      RemovalFor(ms, t, p, tombs.source, tombs.vv)
    else
      match SourceOf(ms, res, p)
      case None => None
      case Some(s) =>
        var src, joined := ms[s][p], JoinAt(ms, p, s);
        if t == s || t !in ms then None
        else if src.tombstone then RemovalFor(ms, t, p, s, joined)
        else if !Live(ms[t], p) then Some(SyncOp(COPY, s, t, p, None, joined))
        else if Order(src.vv, ms[t][p].vv) == Dominates || src.hash != ms[t][p].hash then
          Some(SyncOp(REPLACE, s, t, p, None, joined))
        else None
  }

  // ----- What the decisions mean ------------------------------------------------------------

  /** The merge is the least upper bound of the start and of every version. */
  lemma {:induction false} MergedIsLub(ms: Manifests, ids: seq<DriveId>, p: Path, start: Clocks, c: Clocks)
    ensures Leq(start, Merged(ms, ids, p, start))
    ensures forall d :: d in ids && d in ms && p in ms[d] ==> Leq(ms[d][p].vv, Merged(ms, ids, p, start))
    ensures Leq(start, c) && (forall d :: d in ids && d in ms && p in ms[d] ==> Leq(ms[d][p].vv, c)) ==>
      Leq(Merged(ms, ids, p, start), c)
  {
    hide Leq;
    hide Join;
    if ids == [] {
      LeqReflexive(start);
    } else {
      var front, d := ids[..|ids| - 1], ids[|ids| - 1];
      var before, all := Merged(ms, front, p, start), Merged(ms, ids, p, start);
      MergedIsLub(ms, front, p, start, c);
      LeqReflexive(before);
      if d in ms && p in ms[d] {
        JoinIsLeastUpperBound(before, ms[d][p].vv, c);
      }
      LeqTransitive(start, before, all);
      forall e | e in ids && e in ms && p in ms[e]
        ensures Leq(ms[e][p].vv, all)
      {
        if e in front {
          LeqTransitive(ms[e][p].vv, before, all);
        }
      }
    }
  }

  lemma JoinAtIsLub(ms: Manifests, p: Path, s: DriveId, c: Clocks)
    requires s in ms && p in ms[s]
    ensures forall d :: d in ms && p in ms[d] ==> Leq(ms[d][p].vv, JoinAt(ms, p, s))
    ensures (forall d :: d in ms && p in ms[d] ==> Leq(ms[d][p].vv, c)) ==> Leq(JoinAt(ms, p, s), c)
  {
    hide Leq;
    MergedIsLub(ms, Ids(ms), p, ms[s][p].vv, c);
  }

  /** A source that dominates a version makes the join dominate it too. */
  lemma JoinDominates(ms: Manifests, s: DriveId, t: DriveId, p: Path)
    requires s in ms && p in ms[s] && t in ms && p in ms[t]
    requires Order(ms[s][p].vv, ms[t][p].vv) == Dominates
    ensures Order(JoinAt(ms, p, s), ms[t][p].vv) == Dominates
  {
    hide Order;
    hide Leq;
    hide JoinAt;
    var joined := JoinAt(ms, p, s);
    JoinAtIsLub(ms, p, s, map[]);
    OrderDecidesLeq(ms[s][p].vv, ms[t][p].vv);
    OrderDecidesLeq(joined, ms[t][p].vv);
    assert Leq(ms[s][p].vv, joined);
    if Leq(joined, ms[t][p].vv) {
      LeqTransitive(ms[s][p].vv, joined, ms[t][p].vv);
    }
  }

  /** No operation outside the tombstone quorum moves any drive's clock for the path back: what it
      installs is at or above every version, and below everything else that is. */
  lemma NoRegress(ms: Manifests, res: seq<Resolution>, t: DriveId, p: Path, c: Clocks)
    requires !Quorum(ms, p) && OpFor(ms, res, t, p).Some?
    ensures var vv := OpFor(ms, res, t, p).value.vv;
      && (forall d :: d in ms && p in ms[d] ==> Leq(ms[d][p].vv, vv))
      && ((forall d :: d in ms && p in ms[d] ==> Leq(ms[d][p].vv, c)) ==> Leq(vv, c))
  {
    hide Leq;
    hide Quorum;
    hide Tombstones;
    hide SourceOf;
    hide JoinAt;
    hide Order;
    JoinAtIsLub(ms, p, SourceOf(ms, res, p).value, c);
  }

  ghost predicate Covered(ms: Manifests, ids: seq<DriveId>, p: Path, k: string, n: u64) {
    n == 0 || exists d :: d in ids && d in ms && p in ms[d] && ms[d][p].tombstone && n <= Clock(ms[d][p].vv, k)
  }

  /** The quorum's vector knows of a clock value exactly if some tombstone does. */
  lemma {:induction false} TombstoneClock(ms: Manifests, ids: seq<DriveId>, p: Path, k: string, n: u64)
    requires "" !in ms
    ensures n <= Clock(Tombstones(ms, ids, p).vv, k) <==> Covered(ms, ids, p, k, n)
    ensures Tombstones(ms, ids, p).source == "" ==> Tombstones(ms, ids, p).vv == map[]
  {
    if ids != [] {
      var front, d := ids[..|ids| - 1], ids[|ids| - 1];
      var before := Tombstones(ms, front, p);
      TombstoneClock(ms, front, p, k, n);
      assert forall e :: e in ids <==> e in front || e == d;
      if d in ms && p in ms[d] && ms[d][p].tombstone {
        ClockOfJoin(before.vv, ms[d][p].vv, k);
      }
    }
  }

  /** A quorum removal keeps the live drive's clocks exactly if each of them is matched by some
      tombstone; otherwise the installed vector falls behind the one it replaces. */
  lemma QuorumRegress(ms: Manifests, res: seq<Resolution>, t: DriveId, p: Path)
    requires "" !in ms && Quorum(ms, p) && OpFor(ms, res, t, p).Some?
    ensures Leq(ms[t][p].vv, OpFor(ms, res, t, p).value.vv)
       <==> forall k :: Covered(ms, Ids(ms), p, k, Clock(ms[t][p].vv, k))
  {
    var vv := OpFor(ms, res, t, p).value.vv;
    forall k
      ensures Clock(ms[t][p].vv, k) <= Clock(vv, k) <==> Covered(ms, Ids(ms), p, k, Clock(ms[t][p].vv, k))
    {
      TombstoneClock(ms, Ids(ms), p, k, Clock(ms[t][p].vv, k));
    }
  }

  function TombstonedOn(ms: Manifests, p: Path): set<DriveId> {
    set d | d in ms && p in ms[d] && ms[d][p].tombstone
  }

  lemma {:induction false} TombstonesCounted(ms: Manifests, ids: seq<DriveId>, p: Path)
    requires forall i, j :: 0 <= i < j < |ids| ==> ids[i] != ids[j]
    ensures Tombstones(ms, ids, p).count == |set d | d in ids && d in TombstonedOn(ms, p)|
  {
    var here := set d | d in ids && d in TombstonedOn(ms, p);
    if ids != [] {
      var front, d := ids[..|ids| - 1], ids[|ids| - 1];
      TombstonesCounted(ms, front, p);
      var there := set e | e in front && e in TombstonedOn(ms, p);
      assert forall e :: e in ids <==> e in front || e == d;
      assert d !in front;
      assert here == if d in TombstonedOn(ms, p) then there + {d} else there;
    } else {
      assert here == {};
    }
  }

  /** The quorum branch is taken exactly when a strict majority of the drives holds a tombstone. */
  lemma QuorumIsMajority(ms: Manifests, p: Path)
    ensures Quorum(ms, p) <==> |TombstonedOn(ms, p)| * 2 > |ms|
  {
    TombstonesCounted(ms, Ids(ms), p);
    assert (set d | d in Ids(ms) && d in TombstonedOn(ms, p)) == TombstonedOn(ms, p);
  }

  // ----- Dominance: the resolver and the planner --------------------------------------------

  /** While no version seen so far knows of all the others, the running choice does not either; once
      one does, the first such one stays. */
  lemma {:induction false} DominantPrefix(ms: Manifests, ids: seq<DriveId>, p: Path)
    requires StrictlySorted(ids)
    ensures var v, c := Versions(ms, p), Dominant(ms, ids, p);
      && (c.None? <==> forall d :: d in ids ==> d !in v)
      && (c.Some? && !Supreme(v, c.value) ==> forall d :: d in ids ==> !Supreme(v, d))
      && (c.Some? && Supreme(v, c.value) ==> forall d :: d in ids && Supreme(v, d) && d != c.value ==> Less(c.value, d))
  {
    if ids != [] {
      var v, front, d := Versions(ms, p), ids[..|ids| - 1], ids[|ids| - 1];
      DominantPrefix(ms, front, p);
      var before := Dominant(ms, front, p);
      forall e | e in front
        ensures Less(e, d)
      {
        var k :| 0 <= k < |front| && front[k] == e;
        assert ids[k] == e;
      }
      if d in v && before.Some? {
        SupremeStep(v, before.value, d);
      }
    }
  }

  lemma SupremeStep(v: VersionMap, c: DriveId, d: DriveId)
    requires c in v && d in v
    ensures Supreme(v, c) ==> Order(v[d].vv, v[c].vv) != Dominates
    ensures Supreme(v, d) && !Supreme(v, c) ==> Order(v[d].vv, v[c].vv) == Dominates
  {
    OrderDecidesLeq(v[d].vv, v[c].vv);
    if Supreme(v, d) && Leq(v[d].vv, v[c].vv) {
      forall e | e in v
        ensures Leq(v[e].vv, v[c].vv)
      {
        LeqTransitive(v[e].vv, v[d].vv, v[c].vv);
      }
    }
  }

  /** Whenever a version knows of all the others, the resolver's candidate scan and the planner's
      one-pass fold pick the same drive: the first in id order. */
  lemma DominanceAgrees(ms: Manifests, res: seq<Resolution>, p: Path, total: nat, r: Resolution)
    requires (exists d :: Supreme(Versions(ms, p), d)) && Resolved(ms, res, p).None?
    requires IsResolution(Versions(ms, p), total, r)
    ensures r.strategy == DominantVersion && SourceOf(ms, res, p) == Some(r.winner)
  {
    DominantPrefix(ms, Ids(ms), p);
    var v, c := Versions(ms, p), Dominant(ms, Ids(ms), p);
    var d :| Supreme(v, d);
    LessTotal(r.winner, c.value);
  }

  /** A path known to some drive always has a source. */
  lemma SourceExists(ms: Manifests, res: seq<Resolution>, p: Path)
    ensures SourceOf(ms, res, p).Some? <==> p in AllPaths(ms)
  {
    DominantExists(ms, Ids(ms), p);
    if p in AllPaths(ms) {
      var d :| d in ms && p in ms[d];
      assert d in Ids(ms);
    }
  }

  lemma {:induction false} DominantExists(ms: Manifests, ids: seq<DriveId>, p: Path)
    ensures Dominant(ms, ids, p).None? <==> forall d :: d in ids && d in ms ==> p !in ms[d]
  {
    if ids != [] {
      DominantExists(ms, ids[..|ids| - 1], p);
      assert forall e :: e in ids <==> e in ids[..|ids| - 1] || e == ids[|ids| - 1];
    }
  }
}
