/** Rounds after rounds: the first one makes the drives agree, the later ones only carry version
    vectors up to their join, and there is a last one that does. */
module Quiescence {
  import opened Base
  import opened SyncOps
  import opened VersionVectors
  import opened Drives
  import opened CrashSafety
  import opened Executor
  import opened ConflictResolver
  import opened RenameDetection
  import opened PlanRules
  import opened Convergence

  /** `after` holds the manifests that a round planned for `ms` leads to. */
  ghost predicate RoundOn(ms: Manifests, res: seq<Resolution>, after: Manifests) {
    after.Keys == ms.Keys && forall t, p :: t in ms ==> Lookup(after[t], p) == EntryAfter(ms, res, t, p)
  }

  /** The path is live on all drives with one hash, or on none. */
  ghost predicate Uniform(ms: Manifests, p: Path) {
    forall d, e :: d in ms && e in ms && Live(ms[d], p) ==> Live(ms[e], p) && ms[e][p].hash == ms[d][p].hash
  }

  ghost predicate Settled(ms: Manifests) {
    forall p :: Uniform(ms, p)
  }

  /** `c` knows of every version of the path. */
  ghost predicate UpperBound(ms: Manifests, p: Path, c: Clocks) {
    forall d :: d in ms && p in ms[d] ==> Leq(ms[d][p].vv, c)
  }

  /** The drive's live version of the path does not know of all the others. */
  ghost predicate Behind(ms: Manifests, t: DriveId, p: Path) {
    t in ms && Live(ms[t], p) && !UpperBound(ms, p, ms[t][p].vv)
  }

  ghost function Lag(ms: Manifests): set<(DriveId, Path)> {
    set t, p | t in ms && p in ms[t] && Behind(ms, t, p) :: (t, p)
  }

  /** The drives and paths that a round works on. */
  ghost function Touched(ms: Manifests, res: seq<Resolution>): set<(DriveId, Path)> {
    set t, p | t in ms && p in AllPaths(ms) && OpFor(ms, res, t, p).Some? :: (t, p)
  }

  // ----- The first round --------------------------------------------------------------------

  lemma ReachedIsRound(f: Fleet, res: seq<Resolution>, g: Fleet)
    requires Reached(f, res, g)
    ensures RoundOn(ManifestsOf(f), res, ManifestsOf(g))
  {
    hide EntryAfter;
    hide FileAfter;
    forall t, p | t in f
      ensures Lookup(g[t].manifest, p) == EntryAfter(ManifestsOf(f), res, t, p)
    {
      assert CellAt(f, res, g, t, p, true);
    }
  }

  /** What an entry is after the round, in terms of the path's source. */
  lemma EntryAfterSource(ms: Manifests, res: seq<Resolution>, t: DriveId, p: Path)
    requires t in ms
    ensures var e, s := EntryAfter(ms, res, t, p), SourceOf(ms, res, p);
      if Quorum(ms, p) || s.None? || ms[s.value][p].tombstone then e.None? || e.value.tombstone
      else e.Some? && !e.value.tombstone && e.value.hash == ms[s.value][p].hash
  {
    hide OpFor;
    hide Quorum;
    hide SourceOf;
    OpForSource(ms, res, t, p);
    if OpFor(ms, res, t, p).Some? {
      OpForFacts(ms, res, t, p);
    }
  }

  lemma RoundSettles(ms: Manifests, res: seq<Resolution>, after: Manifests)
    requires RoundOn(ms, res, after)
    ensures Settled(after)
  {
    hide EntryAfter;
    hide SourceOf;
    hide Quorum;
    forall p, d, e | d in after && e in after && Live(after[d], p)
      ensures Live(after[e], p) && after[e][p].hash == after[d][p].hash
    {
      EntryAfterSource(ms, res, d, p);
      EntryAfterSource(ms, res, e, p);
      assert Lookup(after[d], p) == EntryAfter(ms, res, d, p);
      assert Lookup(after[e], p) == EntryAfter(ms, res, e, p);
    }
  }

  // ----- The later rounds -------------------------------------------------------------------

  /** Settled drives call for no rename, whatever they have deleted. */
  lemma SettledMeansNoRenames(ms: Manifests)
    requires Settled(ms)
    ensures NoRenames(ms)
  {
    forall s, t, p, q
      ensures !IsRename(ms, s, t, p, q)
    {
      assert Uniform(ms, q);
    }
  }

  lemma LiveMeansNoQuorum(ms: Manifests, p: Path)
    requires Uniform(ms, p) && exists d :: d in ms && Live(ms[d], p)
    ensures !Quorum(ms, p)
  {
    hide Quorum;
    QuorumIsMajority(ms, p);
    assert TombstonedOn(ms, p) == {};
  }

  /** On settled drives an operation is planned exactly where the source's vector dominates, and it
      replaces bytes by the same bytes and lifts the vector strictly, to the path's join. */
  lemma SettledOp(ms: Manifests, res: seq<Resolution>, t: DriveId, p: Path)
    requires Uniform(ms, p) && t in ms
    ensures var s := SourceOf(ms, res, p);
      OpFor(ms, res, t, p).Some? <==>
        Live(ms[t], p) && s.Some? && Live(ms[s.value], p) && Order(ms[s.value][p].vv, ms[t][p].vv) == Dominates
    ensures OpFor(ms, res, t, p).Some? ==> Lifts(ms, t, p, OpFor(ms, res, t, p).value)
  {
    hide Quorum;
    hide Tombstones;
    hide SourceOf;
    hide JoinAt;
    hide Order;
    SourceExists(ms, res, p);
    var s := SourceOf(ms, res, p);
    if s.Some? && Live(ms[t], p) {
      LiveMeansNoQuorum(ms, p);
      assert Live(ms[s.value], p);
      OrderDecidesLeq(ms[s.value][p].vv, ms[t][p].vv);
      if Order(ms[s.value][p].vv, ms[t][p].vv) == Dominates {
        Lifted(ms, s.value, t, p);
      }
    }
  }

  ghost predicate Lifts(ms: Manifests, t: DriveId, p: Path, op: SyncOp) {
    && op.kind == REPLACE && op.source in ms && p in ms[op.source] && t in ms && Live(ms[t], p)
    && ms[op.source][p].hash == ms[t][p].hash
    && op.vv == JoinAt(ms, p, op.source) && Order(op.vv, ms[t][p].vv) == Dominates && Behind(ms, t, p)
  }

  lemma Lifted(ms: Manifests, s: DriveId, t: DriveId, p: Path)
    requires s in ms && p in ms[s] && t in ms && Live(ms[t], p)
    requires Order(ms[s][p].vv, ms[t][p].vv) == Dominates
    ensures Order(JoinAt(ms, p, s), ms[t][p].vv) == Dominates && Behind(ms, t, p)
  {
    hide Order;
    hide Leq;
    hide JoinAt;
    JoinDominates(ms, s, t, p);
    OrderDecidesLeq(ms[s][p].vv, ms[t][p].vv);
  }

  /** An entry after a settled round: as it was, or as it was in all but its vector, which is the join. */
  lemma SettledEntry(ms: Manifests, res: seq<Resolution>, t: DriveId, p: Path)
    requires Uniform(ms, p) && t in ms
    ensures var e := EntryAfter(ms, res, t, p);
      && (OpFor(ms, res, t, p).None? ==> e == Lookup(ms[t], p))
      && (OpFor(ms, res, t, p).Some? ==>
            && e.Some? && p in ms[t] && Leq(ms[t][p].vv, e.value.vv)
            && UpperBound(ms, p, e.value.vv) && forall c :: UpperBound(ms, p, c) ==> Leq(e.value.vv, c))
  {
    hide OpFor;
    hide Order;
    hide Leq;
    hide JoinAt;
    var op := OpFor(ms, res, t, p);
    if op.Some? {
      SettledOp(ms, res, t, p);
      OpForFacts(ms, res, t, p);
      forall c
        ensures UpperBound(ms, p, op.value.vv)
        ensures UpperBound(ms, p, c) ==> Leq(op.value.vv, c)
      {
        JoinAtIsLub(ms, p, op.value.source, c);
      }
      OrderDecidesLeq(op.value.vv, ms[t][p].vv);
    }
  }

  /** Settled rounds do not change what the join of a path is. */
  lemma JoinIsKept(ms: Manifests, res: seq<Resolution>, after: Manifests, p: Path, c: Clocks)
    requires Uniform(ms, p) && RoundOn(ms, res, after)
    ensures UpperBound(ms, p, c) <==> UpperBound(after, p, c)
  {
    hide OpFor;
    hide EntryAfter;
    hide Leq;
    forall d | d in ms
      ensures p in ms[d] <==> p in after[d]
      ensures p in ms[d] ==> Leq(ms[d][p].vv, after[d][p].vv)
      ensures p in ms[d] && UpperBound(ms, p, c) ==> Leq(after[d][p].vv, c)
    {
      SettledEntry(ms, res, d, p);
      assert Lookup(after[d], p) == EntryAfter(ms, res, d, p);
      if p in ms[d] {
        LeqReflexive(ms[d][p].vv);
      }
    }
    if UpperBound(after, p, c) {
      forall d | d in ms && p in ms[d]
        ensures Leq(ms[d][p].vv, c)
      {
        LeqTransitive(ms[d][p].vv, after[d][p].vv, c);
      }
    }
  }

  /** A settled round takes exactly the drives and paths that it works on out of the lag. */
  lemma RoundShrinksLag(ms: Manifests, res: seq<Resolution>, after: Manifests)
    requires Settled(ms) && RoundOn(ms, res, after)
    ensures Touched(ms, res) <= Lag(ms)
    ensures Lag(after) == Lag(ms) - Touched(ms, res)
  {
    hide OpFor;
    hide EntryAfter;
    hide AllPaths;
    hide Behind;
    forall t, p | t in ms
      ensures (t, p) in Touched(ms, res) ==> (t, p) in Lag(ms)
      ensures (t, p) in Lag(after) <==> (t, p) in Lag(ms) && (t, p) !in Touched(ms, res)
    {
      InLag(ms, t, p);
      InLag(after, t, p);
      InTouched(ms, res, t, p);
      CellLag(ms, res, after, t, p);
    }
    forall x | x in Touched(ms, res)
      ensures x in Lag(ms)
    {
      assert (x.0, x.1) in Touched(ms, res);
    }
  }

  lemma InLag(ms: Manifests, t: DriveId, p: Path)
    ensures (t, p) in Lag(ms) <==> Behind(ms, t, p)
  {
  }

  lemma InTouched(ms: Manifests, res: seq<Resolution>, t: DriveId, p: Path)
    ensures (t, p) in Touched(ms, res) <==> OpFor(ms, res, t, p).Some?
  {
    hide OpFor;
    if OpFor(ms, res, t, p).Some? {
      OpForFacts(ms, res, t, p);
    }
  }

  lemma CellLag(ms: Manifests, res: seq<Resolution>, after: Manifests, t: DriveId, p: Path)
    requires Settled(ms) && RoundOn(ms, res, after) && t in ms
    ensures OpFor(ms, res, t, p).Some? ==> Behind(ms, t, p)
    ensures Behind(after, t, p) <==> Behind(ms, t, p) && OpFor(ms, res, t, p).None?
  {
    hide OpFor;
    hide EntryAfter;
    hide Leq;
    hide UpperBound;
    hide Order;
    hide JoinAt;
    assert Uniform(ms, p);
    SettledOp(ms, res, t, p);
    SettledEntry(ms, res, t, p);
    assert Lookup(after[t], p) == EntryAfter(ms, res, t, p);
    if p in after[t] {
      JoinIsKept(ms, res, after, p, after[t][p].vv);
    }
  }

  // ----- Whole runs -------------------------------------------------------------------------

  /** Round after round, with whatever resolutions. */
  ghost predicate Rounds(mss: seq<Manifests>, rs: seq<seq<Resolution>>) {
    && |mss| == |rs| + 1
    && forall i :: 0 <= i < |rs| ==> RoundOn(mss[i], rs[i], mss[i + 1])
  }

  ghost function Work(mss: seq<Manifests>, rs: seq<seq<Resolution>>): nat
    requires |mss| == |rs| + 1
    decreases |rs|
  {
    if rs == [] then 0
    else Work(mss[..|rs|], rs[..|rs| - 1]) + |Touched(mss[|rs| - 1], rs[|rs| - 1])|
  }

  lemma {:induction false} AllSettled(mss: seq<Manifests>, rs: seq<seq<Resolution>>)
    requires Rounds(mss, rs) && Settled(mss[0])
    ensures forall i :: 0 <= i < |mss| ==> Settled(mss[i])
  {
    hide RoundOn;
    hide Settled;
    forall i | 1 <= i < |mss|
      ensures Settled(mss[i])
    {
      RoundSettles(mss[i - 1], rs[i - 1], mss[i]);
    }
  }

  /** Over any number of settled rounds, the work done is exactly the lag that has gone. */
  lemma {:induction false} WorkIsLagLost(mss: seq<Manifests>, rs: seq<seq<Resolution>>)
    requires Rounds(mss, rs) && Settled(mss[0])
    ensures Work(mss, rs) + |Lag(mss[|rs|])| == |Lag(mss[0])|
    decreases |rs|
  {
    hide RoundOn;
    hide Settled;
    hide Lag;
    hide Touched;
    if rs != [] {
      var n := |rs|;
      WorkIsLagLost(mss[..n], rs[..n - 1]);
      AllSettled(mss, rs);
      var ms, after := mss[n - 1], mss[n];
      RoundShrinksLag(ms, rs[n - 1], after);
      assert mss[..n][n - 1] == ms;
      Difference(Lag(ms), Touched(ms, rs[n - 1]));
    }
  }

  lemma Difference<T>(a: set<T>, b: set<T>)
    requires b <= a
    ensures |a - b| == |a| - |b|
  {
    assert a == (a - b) + b;
  }

  /** No drive is worked on twice for the same path. */
  lemma {:induction false} TouchedOnce(mss: seq<Manifests>, rs: seq<seq<Resolution>>, i: nat, j: nat)
    requires Rounds(mss, rs) && Settled(mss[0]) && i < j < |rs|
    ensures Touched(mss[i], rs[i]) !! Touched(mss[j], rs[j])
  {
    hide RoundOn;
    hide Settled;
    hide Lag;
    hide Touched;
    AllSettled(mss, rs);
    LagOnlyShrinks(mss, rs, i, j);
    RoundShrinksLag(mss[j], rs[j], mss[j + 1]);
  }

  lemma {:induction false} LagOnlyShrinks(mss: seq<Manifests>, rs: seq<seq<Resolution>>, i: nat, j: nat)
    requires Rounds(mss, rs) && Settled(mss[0]) && i < j <= |rs|
    ensures Lag(mss[j]) <= Lag(mss[i]) - Touched(mss[i], rs[i])
    decreases j
  {
    hide RoundOn;
    hide Settled;
    hide Lag;
    hide Touched;
    AllSettled(mss, rs);
    RoundShrinksLag(mss[j - 1], rs[j - 1], mss[j]);
    if i < j - 1 {
      LagOnlyShrinks(mss, rs, i, j - 1);
    }
  }

  /** Whatever the resolutions, among more rounds than there is lag at the start one has nothing to do. */
  lemma SomeRoundIsQuiet(mss: seq<Manifests>, rs: seq<seq<Resolution>>)
    requires Rounds(mss, rs) && Settled(mss[0]) && |rs| > |Lag(mss[0])|
    ensures exists i :: 0 <= i < |rs| && Touched(mss[i], rs[i]) == {} && mss[i + 1] == mss[i]
  {
    hide RoundOn;
    hide Settled;
    hide Lag;
    hide Touched;
    if forall i :: 0 <= i < |rs| ==> Touched(mss[i], rs[i]) != {} {
      BusyWork(mss, rs);
      WorkIsLagLost(mss, rs);
    }
    var i :| 0 <= i < |rs| && Touched(mss[i], rs[i]) == {};
    QuietRound(mss[i], rs[i], mss[i + 1]);
  }

  /** Rounds on the same manifests have the same resolutions. */
  ghost predicate Consistent(mss: seq<Manifests>, rs: seq<seq<Resolution>>)
    requires |mss| == |rs| + 1
  {
    forall i :: 0 <= i < |rs| - 1 && mss[i + 1] == mss[i] ==> rs[i + 1] == rs[i]
  }

  lemma {:induction false} QuietStays(mss: seq<Manifests>, rs: seq<seq<Resolution>>, i: nat, j: nat)
    requires Rounds(mss, rs) && Consistent(mss, rs) && i <= j < |rs| && Touched(mss[i], rs[i]) == {}
    ensures Touched(mss[j], rs[j]) == {}
    decreases j
  {
    hide RoundOn;
    hide Touched;
    if i < j {
      QuietStays(mss, rs, i, j - 1);
      QuietRound(mss[j - 1], rs[j - 1], mss[j]);
    }
  }

  /** Where the manifests decide the resolutions, every round from a certain one on has nothing to do:
      as many rounds are busy as there is lag at the start, at the most, and they are the first ones. */
  lemma QuietForEver(mss: seq<Manifests>, rs: seq<seq<Resolution>>, i: nat)
    requires Rounds(mss, rs) && Consistent(mss, rs) && Settled(mss[0]) && |Lag(mss[0])| <= i < |rs|
    ensures Touched(mss[i], rs[i]) == {} && mss[i + 1] == mss[i]
  {
    hide RoundOn;
    hide Settled;
    hide Lag;
    hide Touched;
    var first, those := mss[..i + 2], rs[..i + 1];
    assert Rounds(first, those);
    if k :| 0 <= k <= i && Touched(mss[k], rs[k]) == {} {
      QuietStays(mss, rs, k, i);
    } else {
      forall k | 0 <= k < |those|
        ensures Touched(first[k], those[k]) != {}
      {
        assert first[k] == mss[k];
      }
      BusyWork(first, those);
      WorkIsLagLost(first, those);
    }
    QuietRound(mss[i], rs[i], mss[i + 1]);
  }

  lemma {:induction false} BusyWork(mss: seq<Manifests>, rs: seq<seq<Resolution>>)
    requires |mss| == |rs| + 1 && forall i :: 0 <= i < |rs| ==> Touched(mss[i], rs[i]) != {}
    ensures Work(mss, rs) >= |rs|
    decreases |rs|
  {
    hide Touched;
    if rs != [] {
      BusyWork(mss[..|rs|], rs[..|rs| - 1]);
    }
  }

  lemma QuietRound(ms: Manifests, res: seq<Resolution>, after: Manifests)
    requires RoundOn(ms, res, after) && Touched(ms, res) == {}
    ensures after == ms
  {
    hide OpFor;
    hide Touched;
    forall t | t in ms
      ensures after[t] == ms[t]
    {
      forall p
        ensures Lookup(after[t], p) == Lookup(ms[t], p)
      {
        InTouched(ms, res, t, p);
      }
      SameMap(after[t], ms[t]);
    }
  }

  /** If some drive already knows of all versions and no resolution interferes, one round is enough
      for the path. */
  lemma OneRoundSuffices(ms: Manifests, res: seq<Resolution>, after: Manifests, p: Path, c: DriveId)
    requires Settled(ms) && RoundOn(ms, res, after)
    requires Supreme(Versions(ms, p), c) && Resolved(ms, res, p).None?
    ensures forall t :: !Behind(after, t, p)
  {
    hide RoundOn;
    hide OpFor;
    hide EntryAfter;
    hide Order;
    hide Leq;
    hide Dominant;
    var s := SupremeSource(ms, res, p, c);
    SameDrives(ms, res, after);
    forall t | t in ms
      ensures !Behind(after, t, p)
    {
      assert Uniform(ms, p);
      CellLag(ms, res, after, t, p);
      SettledOp(ms, res, t, p);
      if Behind(ms, t, p) {
        SupremeIsAhead(ms, s, t, p);
        assert Live(ms[s], p);
      }
    }
  }

  lemma SupremeSource(ms: Manifests, res: seq<Resolution>, p: Path, c: DriveId) returns (s: DriveId)
    requires Supreme(Versions(ms, p), c) && Resolved(ms, res, p).None?
    ensures SourceOf(ms, res, p) == Some(s) && Supreme(Versions(ms, p), s)
  {
    DominantPrefix(ms, Ids(ms), p);
    assert c in Ids(ms);
    s := Dominant(ms, Ids(ms), p).value;
  }

  lemma SameDrives(ms: Manifests, res: seq<Resolution>, after: Manifests)
    requires RoundOn(ms, res, after)
    ensures after.Keys == ms.Keys
  {
  }

  lemma SupremeIsAhead(ms: Manifests, s: DriveId, t: DriveId, p: Path)
    requires Supreme(Versions(ms, p), s) && t in ms && p in ms[t]
    ensures Behind(ms, t, p) ==> Order(ms[s][p].vv, ms[t][p].vv) == Dominates
  {
    hide Order;
    hide Leq;
    var v := Versions(ms, p);
    OrderDecidesLeq(ms[s][p].vv, ms[t][p].vv);
    assert t in v;
    if Leq(ms[s][p].vv, ms[t][p].vv) {
      forall d | d in ms && p in ms[d]
        ensures Leq(ms[d][p].vv, ms[t][p].vv)
      {
        assert d in v;
        LeqTransitive(ms[d][p].vv, ms[s][p].vv, ms[t][p].vv);
      }
    }
  }

  /** Outside the quorum, whatever a round works on knows of all versions of the path afterwards. */
  lemma TouchedKnowsAll(ms: Manifests, res: seq<Resolution>, after: Manifests, t: DriveId, p: Path)
    requires RoundOn(ms, res, after) && !Quorum(ms, p) && OpFor(ms, res, t, p).Some?
    ensures Supreme(Versions(after, p), t)
  {
    hide EntryAfter;
    hide Leq;
    hide Quorum;
    hide SourceOf;
    hide JoinAt;
    hide Order;
    var s := SourceOf(ms, res, p).value;
    var joined := JoinAt(ms, p, s);
    var v := Versions(after, p);
    JoinAtIsLub(ms, p, s, joined);
    LeqReflexive(joined);
    forall d | d in ms
      ensures p in after[d] ==> Leq(after[d][p].vv, joined)
      ensures OpFor(ms, res, d, p).Some? ==> p in after[d] && after[d][p].vv == joined
    {
      InstalledVector(ms, res, d, p, s);
      assert Lookup(after[d], p) == EntryAfter(ms, res, d, p);
    }
  }

  lemma InstalledVector(ms: Manifests, res: seq<Resolution>, d: DriveId, p: Path, s: DriveId)
    requires d in ms && !Quorum(ms, p) && SourceOf(ms, res, p) == Some(s)
    ensures var e, op := EntryAfter(ms, res, d, p), OpFor(ms, res, d, p);
      if op.None? then e == Lookup(ms[d], p) else e.Some? && e.value.vv == JoinAt(ms, p, s)
  {
    hide Quorum;
    hide Tombstones;
    hide SourceOf;
    hide JoinAt;
    hide Order;
  }

  /** After a round that worked on the path, one more round finishes it, unless a resolution steps in
      or the path was removed by quorum. */
  lemma TwoRoundsSuffice(
    ms: Manifests, res: seq<Resolution>, after: Manifests, res': seq<Resolution>, last: Manifests, t: DriveId, p: Path)
    requires RoundOn(ms, res, after) && RoundOn(after, res', last)
    requires !Quorum(ms, p) && OpFor(ms, res, t, p).Some? && Resolved(after, res', p).None?
    ensures forall u :: !Behind(last, u, p)
  {
    hide RoundOn;
    hide OpFor;
    hide Behind;
    hide Quorum;
    RoundSettles(ms, res, after);
    TouchedKnowsAll(ms, res, after, t, p);
    OneRoundSuffices(after, res', last, p, t);
  }

  // ----- The drives themselves --------------------------------------------------------------

  /** On settled drives a round moves no bytes at all. */
  lemma SettledFile(h: Bytes -> Digest, f: Fleet, res: seq<Resolution>, t: DriveId, p: Path)
    requires Sane(h, f) && CollisionFree(h, f) && Settled(ManifestsOf(f)) && t in f
    ensures FileAfter(f, res, t, p) == Lookup(f[t].disk, p)
  {
    hide OpFor;
    hide Order;
    hide JoinAt;
    hide Behind;
    var ms := ManifestsOf(f);
    assert Uniform(ms, p);
    SettledOp(ms, res, t, p);
    assert Matches(h, f[t]);
    var op := OpFor(ms, res, t, p);
    if op.Some? {
      OpForFacts(ms, res, t, p);
      assert Matches(h, f[op.value.source]);
    }
  }

  lemma SettledDisks(h: Bytes -> Digest, f: Fleet, res: seq<Resolution>, g: Fleet)
    requires Sane(h, f) && CollisionFree(h, f) && Settled(ManifestsOf(f)) && Reached(f, res, g)
    ensures SameDisks(f, g)
  {
    hide EntryAfter;
    hide FileAfter;
    hide Settled;
    hide Sane;
    hide CollisionFree;
    forall t | t in f
      ensures g[t].disk == f[t].disk
    {
      forall p
        ensures Lookup(g[t].disk, p) == Lookup(f[t].disk, p)
      {
        SettledFile(h, f, res, t, p);
        assert CellAt(f, res, g, t, p, true);
      }
      SameMap(g[t].disk, f[t].disk);
    }
  }

  ghost predicate SameDisks(f: Fleet, g: Fleet) {
    g.Keys == f.Keys && forall t :: t in f ==> g[t].disk == f[t].disk
  }

  /** A round brings no contents that were not on some drive before. */
  lemma NoNewContents(h: Bytes -> Digest, f: Fleet, res: seq<Resolution>, g: Fleet)
    requires Sane(h, f) && CollisionFree(h, f) && Reached(f, res, g)
    ensures CollisionFree(h, g)
  {
    hide EntryAfter;
    hide FileAfter;
    hide Quorum;
    hide SourceOf;
    hide Sane;
    hide OnlyPreimage;
    forall t, p | t in g && p in g[t].disk
      ensures OnlyPreimage(h, g[t].disk[p])
    {
      SharedFile(h, f, res, t, p);
      assert CellAt(f, res, g, t, p, true);
    }
  }

  /** Rounds on the drives, each carried out in some order and with some directories. */
  ghost predicate FleetRun(h: Bytes -> Digest, fs: seq<Fleet>, rs: seq<seq<Resolution>>, plans: seq<seq<SyncOp>>) {
    && |fs| == |rs| + 1 == |plans| + 1
    && forall i :: 0 <= i < |rs| ==> FleetRound(h, fs[i], rs[i], plans[i], fs[i + 1])
  }

  ghost predicate FleetRound(h: Bytes -> Digest, f: Fleet, res: seq<Resolution>, plan: seq<SyncOp>, g: Fleet) {
    CarriesOut(plan, ManifestsOf(f), res) && g == ApplyAll(h, f, plan)
  }

  ghost predicate Good(h: Bytes -> Digest, f: Fleet) {
    Sane(h, f) && CollisionFree(h, f)
  }

  lemma RoundKeepsGood(h: Bytes -> Digest, f: Fleet, res: seq<Resolution>, plan: seq<SyncOp>, g: Fleet)
    requires Good(h, f) && FleetRound(h, f, res, plan, g)
    ensures Good(h, g) && Converged(g) && RoundOn(ManifestsOf(f), res, ManifestsOf(g)) && Settled(ManifestsOf(g))
    ensures Settled(ManifestsOf(f)) ==> SameDisks(f, g)
  {
    hide CarriesOut;
    hide Sane;
    hide CollisionFree;
    hide Converged;
    hide Reached;
    hide RoundOn;
    hide Settled;
    hide SameDisks;
    hide ManifestsOf;
    RoundOutcome(h, f, res, plan);
    ReachedConverges(h, f, res, g);
    ReachedIsRound(f, res, g);
    RoundSettles(ManifestsOf(f), res, ManifestsOf(g));
    NoNewContents(h, f, res, g);
    if Settled(ManifestsOf(f)) {
      SettledDisks(h, f, res, g);
    }
  }

  lemma {:induction false} RunStaysGood(
    h: Bytes -> Digest, fs: seq<Fleet>, rs: seq<seq<Resolution>>, plans: seq<seq<SyncOp>>, i: nat)
    requires FleetRun(h, fs, rs, plans) && Good(h, fs[0]) && i < |fs|
    ensures Good(h, fs[i])
    ensures i > 0 ==> Settled(ManifestsOf(fs[i])) && Converged(fs[i]) && SameDisks(fs[1], fs[i])
  {
    hide Good;
    hide FleetRound;
    hide Settled;
    hide Converged;
    if i > 0 {
      RunStaysGood(h, fs, rs, plans, i - 1);
      RoundKeepsGood(h, fs[i - 1], rs[i - 1], plans[i - 1], fs[i]);
    }
  }

  /** From the first round on: the drives agree, their files stay as they are, there is nothing to
      rename, and every file operation replaces bytes by equal ones under a strictly later vector. */
  lemma LaterRounds(
    h: Bytes -> Digest, fs: seq<Fleet>, rs: seq<seq<Resolution>>, plans: seq<seq<SyncOp>>, i: nat, op: SyncOp)
    requires FleetRun(h, fs, rs, plans) && Good(h, fs[0]) && 1 <= i < |fs|
    ensures Good(h, fs[i]) && Converged(fs[i]) && SameDisks(fs[1], fs[i]) && NoRenames(ManifestsOf(fs[i]))
    ensures i < |rs| && op in plans[i] && op.kind != MKDIR ==>
      Lifts(ManifestsOf(fs[i]), op.target, op.path, op)
  {
    hide Good;
    hide Settled;
    hide Converged;
    hide SameDisks;
    hide NoRenames;
    hide Lifts;
    hide OpFor;
    RunStaysGood(h, fs, rs, plans, i);
    SettledMeansNoRenames(ManifestsOf(fs[i]));
    if i < |rs| && op in plans[i] && op.kind != MKDIR {
      assert FleetRound(h, fs[i], rs[i], plans[i], fs[i + 1]);
      SettledPlan(ManifestsOf(fs[i]), rs[i], plans[i], op);
    }
  }

  lemma SettledPlan(ms: Manifests, res: seq<Resolution>, plan: seq<SyncOp>, op: SyncOp)
    requires Settled(ms) && CarriesOut(plan, ms, res) && op in plan && op.kind != MKDIR
    ensures Lifts(ms, op.target, op.path, op)
  {
    hide OpFor;
    hide Lifts;
    assert Uniform(ms, op.path);
    var i: nat :| i < |plan| && plan[i] == op;
    OpForFacts(ms, res, op.target, op.path);
    SettledOp(ms, res, op.target, op.path);
  }

  /** Rounds that start on settled drives, each resolved as its manifests decide, come to rest: from
      one on that the lag at the start bounds, every round works on nothing and changes nothing. */
  lemma BoundedQuiescence(
    h: Bytes -> Digest, fs: seq<Fleet>, rs: seq<seq<Resolution>>, plans: seq<seq<SyncOp>>, i: nat)
    requires FleetRun(h, fs, rs, plans) && Good(h, fs[0]) && Settled(ManifestsOf(fs[0]))
    requires forall k :: 0 <= k < |rs| - 1 && ManifestsOf(fs[k + 1]) == ManifestsOf(fs[k]) ==> rs[k + 1] == rs[k]
    requires |Lag(ManifestsOf(fs[0]))| <= i < |rs|
    ensures Touched(ManifestsOf(fs[i]), rs[i]) == {} && OnlyDirectories(plans[i]) && fs[i + 1] == fs[i]
  {
    hide Good;
    hide Settled;
    hide Converged;
    hide SameDisks;
    hide Lag;
    hide Touched;
    hide FleetRound;
    hide OnlyDirectories;
    hide RoundOn;
    hide ManifestsOf;
    var mss := seq(|fs|, k requires 0 <= k < |fs| => ManifestsOf(fs[k]));
    forall k | 0 <= k < |rs|
      ensures RoundOn(mss[k], rs[k], mss[k + 1])
    {
      RunStaysGood(h, fs, rs, plans, k);
      RoundKeepsGood(h, fs[k], rs[k], plans[k], fs[k + 1]);
    }
    assert Rounds(mss, rs) && Consistent(mss, rs);
    QuietForEver(mss, rs, i);
    QuietPlan(h, fs[i], rs[i], plans[i], fs[i + 1]);
  }

  lemma QuietPlan(h: Bytes -> Digest, f: Fleet, res: seq<Resolution>, plan: seq<SyncOp>, g: Fleet)
    requires FleetRound(h, f, res, plan, g) && Touched(ManifestsOf(f), res) == {}
    ensures OnlyDirectories(plan) && g == f
  {
    hide OpFor;
    hide Touched;
    var ms := ManifestsOf(f);
    forall i | 0 <= i < |plan|
      ensures plan[i].kind == MKDIR
    {
      InTouched(ms, res, plan[i].target, plan[i].path);
    }
    DirectoriesOnly(h, f, plan);
  }
}
