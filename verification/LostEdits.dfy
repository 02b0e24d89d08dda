/** What becomes of an edit. A scan records changed contents under the old vector, so neither detection
    nor planning can tell an edited file from one that was not. */
module LostEdits {
  import opened Base
  import opened SyncOps
  import opened VersionVectors
  import opened Drives
  import opened ConflictResolver
  import opened PlanRules
  import opened Merkle
  import opened Scan
  import opened ScanProperties

  /** The drives that track the path. */
  function Keepers(ms: Manifests, p: Path): set<DriveId> {
    set d | d in ms && p in ms[d]
  }

  /** Every drive that tracks the path has it live, under one vector. */
  ghost predicate InStep(ms: Manifests, p: Path) {
    forall d, e :: d in Keepers(ms, p) && e in Keepers(ms, p) ==>
      Live(ms[d], p) && Order(ms[d][p].vv, ms[e][p].vv) == Equal
  }

  /** Where the vectors are in step there is no conflict, whatever the contents. */
  lemma InStepIsCalm(ms: Manifests, p: Path)
    requires InStep(ms, p)
    ensures !InConflict(Versions(ms, p))
  {
    hide Order;
    forall d | d in Versions(ms, p)
      ensures d in Keepers(ms, p)
    {
    }
  }

  lemma {:induction false} FirstStays(ms: Manifests, ids: seq<DriveId>, p: Path)
    requires InStep(ms, p) && StrictlySorted(ids)
    ensures var c := Dominant(ms, ids, p);
      && (c.None? <==> forall d :: d in ids ==> d !in Keepers(ms, p))
      && (c.Some? ==> forall d :: d in ids && d in Keepers(ms, p) && d != c.value ==> Less(c.value, d))
  {
    hide Order;
    if ids != [] {
      var front, d := ids[..|ids| - 1], ids[|ids| - 1];
      FirstStays(ms, front, p);
      forall e | e in front
        ensures Less(e, d)
      {
        var k :| 0 <= k < |front| && front[k] == e;
        assert ids[k] == e;
      }
      assert forall e :: e in ids <==> e in front || e == d;
      var before := Dominant(ms, front, p);
      if before.Some? && d in Keepers(ms, p) {
        assert before.value in Keepers(ms, p);
        assert Order(ms[d][p].vv, ms[before.value][p].vv) == Equal;
      }
    }
  }

  /** The source is the first drive, in id order, that has the path. */
  lemma FirstKeeperWins(ms: Manifests, res: seq<Resolution>, p: Path, d: DriveId)
    requires InStep(ms, p) && IsLeast(d, Keepers(ms, p))
    ensures SourceOf(ms, res, p) == Some(d) && !Quorum(ms, p)
  {
    hide Order;
    hide Quorum;
    FirstStays(ms, Ids(ms), p);
    NoRivals(ms, res, p);
    QuorumIsMajority(ms, p);
    assert d in Ids(ms);
    assert forall e :: e in ms && p in ms[e] ==> e in Keepers(ms, p);
    assert TombstonedOn(ms, p) == {};
    LessTotal(d, Dominant(ms, Ids(ms), p).value);
  }

  lemma {:induction false} NoRivals(ms: Manifests, res: seq<Resolution>, p: Path)
    requires InStep(ms, p)
    ensures Resolved(ms, res, p).None?
  {
    hide Order;
    if res != [] {
      NoRivals(ms, res[1..], p);
      forall w, e | w in ms && p in ms[w] && e in ms
        ensures !Rivals(ms, w, e, p)
      {
        assert w in Keepers(ms, p);
        assert p in ms[e] ==> e in Keepers(ms, p);
      }
    }
  }

  /** An edit, scanned: if the size or the modification time has changed, the digest of the new contents is recorded,
      otherwise the old one stays; and the vectors stay in step. */
  lemma EditIsScanned(
    h: Bytes -> Digest, g: string -> Digest, root: string, ms: Manifests, e: Item, d: DriveId, p: Path)
    requires ValidNames(e) && NeverEmpty(g) && e.Dir? && !Hidden(root) && forall x :: h(x) != ""
    requires InStep(ms, p) && d in ms && p in ms[d] && p in Visible(root, ".", e)
    requires Visible(root, ".", e)[p].stat
    requires Visible(root, ".", e)[p].readable || UpToDate(ms[d], p, Visible(root, ".", e)[p])
    ensures var after := ms[d := Scanned(h, g, root, ms[d], e, d)];
      && InStep(after, p) && Keepers(after, p) == Keepers(ms, p) && !InConflict(Versions(after, p))
      && after[d][p].hash ==
           if UpToDate(ms[d], p, Visible(root, ".", e)[p]) then ms[d][p].hash else h(Visible(root, ".", e)[p].content)
  {
    hide Build;
    hide Visible;
    hide Scanned;
    hide Leaves;
    hide Bumped;
    hide Order;
    hide InConflict;
    var m' := Scanned(h, g, root, ms[d], e, d);
    EntriesScanned(h, g, root, ms[d], e, d, p);
    InLookup(m', p);
    var after := ms[d := m'];
    assert d in Keepers(ms, p);
    assert m'[p].vv == ms[d][p].vv && Live(m', p);
    InStepIsCalm(after, p);
  }
}
