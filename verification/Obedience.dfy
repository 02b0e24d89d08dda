/** Whether the planner follows the resolver. Resolutions carry no path, a winner counts only where some
    version is concurrent with its own, and a quorum of tombstones comes first: so it may not. */
module Obedience {
  import opened Base
  import opened SyncOps
  import opened VersionVectors
  import opened Drives
  import opened ConflictResolver
  import opened PlanRules

  /** The first resolution whose winner can be used for the path. */
  ghost predicate FirstUsable(ms: Manifests, res: seq<Resolution>, p: Path, i: nat) {
    && i < |res| && Applies(ms, res[i].winner, p)
    && forall j :: 0 <= j < i ==> !Applies(ms, res[j].winner, p)
  }

  lemma {:induction false} ResolvedIsFirst(ms: Manifests, res: seq<Resolution>, p: Path, i: nat)
    requires FirstUsable(ms, res, p, i)
    ensures Resolved(ms, res, p) == Some(res[i].winner)
  {
    hide Applies;
    if i > 0 {
      ResolvedIsFirst(ms, res[1..], p, i - 1);
    }
  }

  lemma FirstExists(ms: Manifests, res: seq<Resolution>, p: Path, k: nat) returns (i: nat)
    requires k < |res| && Applies(ms, res[k].winner, p)
    ensures i <= k && FirstUsable(ms, res, p, i)
  {
    hide Applies;
    i := 0;
    while !Applies(ms, res[i].winner, p)
      invariant i <= k && forall j :: 0 <= j < i ==> !Applies(ms, res[j].winner, p)
      decreases k - i
    {
      i := i + 1;
    }
  }

  /** No version dominates the planner's running choice. */
  lemma {:induction false} NoneDominatesChoice(ms: Manifests, ids: seq<DriveId>, p: Path, d: DriveId)
    requires d in ids && d in ms && p in ms[d]
    ensures Dominant(ms, ids, p).Some? && Order(ms[d][p].vv, ms[Dominant(ms, ids, p).value][p].vv) != Dominates
  {
    hide Order;
    var front, e := ids[..|ids| - 1], ids[|ids| - 1];
    if d in front {
      NoneDominatesChoice(ms, front, p, d);
      var before, choice := Dominant(ms, front, p).value, Dominant(ms, ids, p).value;
      Outranked(ms[d][p].vv, ms[choice][p].vv, ms[before][p].vv);
    } else {
      OrderDecidesLeq(ms[d][p].vv, ms[d][p].vv);
      LeqReflexive(ms[d][p].vv);
    }
  }

  lemma Outranked(a: Clocks, b: Clocks, c: Clocks)
    ensures Order(a, b) == Dominates && Order(b, c) == Dominates ==> Order(a, c) == Dominates
  {
    hide Leq;
    hide Order;
    OrderDecidesLeq(a, b);
    OrderDecidesLeq(b, c);
    OrderDecidesLeq(a, c);
    if Leq(b, a) && Leq(c, b) {
      LeqTransitive(c, b, a);
      if Leq(a, c) {
        LeqTransitive(a, c, b);
      }
    }
  }

  /** A winner that has no rival and does not know of all versions is dominated by one. */
  lemma Dominated(ms: Manifests, w: DriveId, p: Path) returns (d: DriveId)
    requires w != "" && w in ms && p in ms[w] && !Applies(ms, w, p) && !Supreme(Versions(ms, p), w)
    ensures d in ms && p in ms[d] && Order(ms[d][p].vv, ms[w][p].vv) == Dominates
  {
    hide Order;
    hide Leq;
    var v := Versions(ms, p);
    d :| d in v && !Leq(v[d].vv, v[w].vv);
    OrderDecidesLeq(ms[d][p].vv, ms[w][p].vv);
    OrderDecidesLeq(ms[w][p].vv, ms[d][p].vv);
    LeqReflexive(ms[w][p].vv);
    assert !Rivals(ms, w, d, p);
  }

  /** The planner's source for a path is the winner of the path's own resolution if and only if: the
      winner dominates or equals all versions, and no resolution at all is usable for the path; or
      some version is concurrent with the winner's, and the first usable resolution names it. */
  lemma FollowsOwnResolution(ms: Manifests, res: seq<Resolution>, p: Path, k: nat)
    requires k < |res| && res[k].winner != "" && IsResolution(Versions(ms, p), |ms|, res[k])
    ensures SourceOf(ms, res, p) == Some(res[k].winner) <==>
      if res[k].strategy == DominantVersion then forall i :: 0 <= i < |res| ==> !Applies(ms, res[i].winner, p)
      else
        && Applies(ms, res[k].winner, p)
        && exists i :: 0 <= i <= k && FirstUsable(ms, res, p, i) && res[i].winner == res[k].winner
  {
    hide Applies;
    hide Dominant;
    hide Order;
    hide Leq;
    hide IsResolution;
    hide Supreme;
    var w := res[k].winner;
    WinnerHolds(ms, p, res[k]);
    NoneUsable(ms, res, p);
    if res[k].strategy == DominantVersion {
      NewestIsChoice(ms, p, res[k]);
    } else if Applies(ms, w, p) {
      var i := FirstExists(ms, res, p, k);
      ResolvedIsFirst(ms, res, p, i);
    } else {
      var d := Dominated(ms, w, p);
      NoneDominatesChoice(ms, Ids(ms), p, d);
    }
  }

  lemma NewestIsChoice(ms: Manifests, p: Path, r: Resolution)
    requires r.strategy == DominantVersion && IsResolution(Versions(ms, p), |ms|, r)
    ensures Dominant(ms, Ids(ms), p) == Some(r.winner) && !Applies(ms, r.winner, p)
  {
    hide Applies;
    hide Dominant;
    hide Leq;
    DominantPrefix(ms, Ids(ms), p);
    LessTotal(r.winner, Dominant(ms, Ids(ms), p).value);
    SupremeHasNoRival(ms, r.winner, p);
  }

  lemma WinnerHolds(ms: Manifests, p: Path, r: Resolution)
    requires IsResolution(Versions(ms, p), |ms|, r) && r.winner != ""
    ensures r.winner in ms && p in ms[r.winner] && r.winner in Ids(ms)
    ensures r.strategy == DominantVersion || forall d :: !Supreme(Versions(ms, p), d)
  {
  }

  lemma SupremeHasNoRival(ms: Manifests, w: DriveId, p: Path)
    requires Supreme(Versions(ms, p), w)
    ensures !Applies(ms, w, p)
  {
    hide Order;
    hide Leq;
    var v := Versions(ms, p);
    forall d | d in ms && p in ms[d]
      ensures !Rivals(ms, w, d, p)
    {
      assert d in v;
      OrderDecidesLeq(ms[w][p].vv, ms[d][p].vv);
    }
  }

  lemma {:induction false} NoneUsable(ms: Manifests, res: seq<Resolution>, p: Path)
    ensures Resolved(ms, res, p).None? <==> forall i :: 0 <= i < |res| ==> !Applies(ms, res[i].winner, p)
  {
    hide Applies;
    if res != [] {
      NoneUsable(ms, res[1..], p);
      assert forall i :: 1 <= i < |res| ==> res[i] == res[1..][i - 1];
      assert forall i :: 0 <= i < |res| - 1 ==> res[1..][i] == res[i + 1];
    }
  }

  /** Where a quorum of tombstones takes the path, it goes against the path's resolution if and only if
      the winner is live; the winner then knows of all versions, and its file is removed. */
  lemma QuorumOverrides(ms: Manifests, res: seq<Resolution>, p: Path, r: Resolution)
    requires Quorum(ms, p) && r.winner != "" && IsResolution(Versions(ms, p), |ms|, r)
    ensures r.winner in ms && p in ms[r.winner]
    ensures !ms[r.winner][p].tombstone
      <==> OpFor(ms, res, r.winner, p).Some? && OpFor(ms, res, r.winner, p).value.kind == REMOVE
    ensures !ms[r.winner][p].tombstone ==> r.strategy == DominantVersion
  {
    hide Quorum;
    hide Supreme;
    hide Tombstones;
    WinnerHolds(ms, p, r);
    QuorumIsMajority(ms, p);
    TombstonesApart(ms, p, ms[r.winner][p].hash);
  }

  /** Tombstones and live versions of one content are on different drives. */
  lemma TombstonesApart(ms: Manifests, p: Path, hash: Digest)
    ensures |Holders(Versions(ms, p), hash)| + |TombstonedOn(ms, p)| <= |ms|
    ensures (forall d :: d in Versions(ms, p) ==> !Versions(ms, p)[d].tombstone) ==> |TombstonedOn(ms, p)| == 0
  {
    var v, tombs := Versions(ms, p), TombstonedOn(ms, p);
    var live := Holders(v, hash);
    assert live !! tombs;
    SubsetSize(live + tombs, ms.Keys);
    assert |ms.Keys| == |ms|;
    assert forall d :: d in tombs ==> d in v && v[d].tombstone;
    if forall d :: d in v ==> !v[d].tombstone {
      assert tombs == {};
    }
  }

  lemma SubsetSize<T>(a: set<T>, b: set<T>)
    requires a <= b
    ensures |a| <= |b|
  {
    assert b == a + (b - a);
  }

  /** Nothing preserves all versions where the resolver asks for that: some drive's version is the
      source, and replaces every live version with another digest. */
  lemma CopyAllIsNotKept(ms: Manifests, res: seq<Resolution>, p: Path, r: Resolution, t: DriveId)
    requires IsResolution(Versions(ms, p), |ms|, r) && r.strategy == CopyAllVersions && p in AllPaths(ms)
    ensures SourceOf(ms, res, p).Some?
    ensures var s := SourceOf(ms, res, p).value;
      t in ms && t != s && p in ms[t] && ms[t][p].hash != ms[s][p].hash ==>
        OpFor(ms, res, t, p).Some? && OpFor(ms, res, t, p).value.kind == REPLACE
  {
    hide Quorum;
    hide Supreme;
    hide Leader;
    hide SourceOf;
    SourceExists(ms, res, p);
    QuorumIsMajority(ms, p);
    var v := Versions(ms, p);
    assert forall d :: d in ms && p in ms[d] ==> d in v;
    assert TombstonedOn(ms, p) == {};
  }

  function Version(author: DriveId, hash: Digest, mtime: u64): Meta {
    BLANK.(hash := hash, mtime := mtime, vv := map[author := 1])
  }

  /** Two drives, two paths, each changed on both; "A" wrote "p" last and "B" wrote "q" last. */
  function TwoConflicts(): Manifests {
    map["A" := map["p" := Version("A", "pa", 2), "q" := Version("A", "qa", 1)],
        "B" := map["p" := Version("B", "pb", 1), "q" := Version("B", "qb", 2)]]
  }

  lemma LastWriter(v: VersionMap, total: nat, winner: DriveId, loser: DriveId)
    requires v.Keys == {winner, loser} && winner != loser && winner != "" && loser != ""
    requires v[winner].vv == map[winner := 1] && v[loser].vv == map[loser := 1]
    requires !v[winner].tombstone && !v[loser].tombstone && v[winner].hash != v[loser].hash
    requires v[winner].mtime > v[loser].mtime
    requires total >= 2
    ensures InConflict(v) && IsResolution(v, total, Resolution(winner, LastWriteWins))
  {
    assert Ahead(v[winner].vv, v[loser].vv) by { assert Clock(v[winner].vv, winner) > Clock(v[loser].vv, winner); }
    assert Ahead(v[loser].vv, v[winner].vv) by { assert Clock(v[loser].vv, loser) > Clock(v[winner].vv, loser); }
    assert Clash(v[winner], v[loser]);
    AheadIsNotLeq(v[winner].vv, v[loser].vv);
    AheadIsNotLeq(v[loser].vv, v[winner].vv);
    forall d
      ensures !Supreme(v, d)
    {
      assert winner in v && loser in v;
    }
    forall hash
      ensures !Majority(v, total, hash)
    {
      if winner in Holders(v, hash) {
        assert Holders(v, hash) == {winner};
      } else {
        assert Holders(v, hash) <= {loser};
        assert Holders(v, hash) == {} || Holders(v, hash) == {loser};
      }
    }
  }

  /** With two conflicts at once, the resolver says "B" for "q", and the planner takes "A". */
  lemma PlannerMayDisobey()
    ensures var ms, res := TwoConflicts(), [Resolution("A", LastWriteWins), Resolution("B", LastWriteWins)];
      && InConflict(Versions(ms, "p")) && IsResolution(Versions(ms, "p"), 2, res[0])
      && InConflict(Versions(ms, "q")) && IsResolution(Versions(ms, "q"), 2, res[1])
      && SourceOf(ms, res, "q") == Some("A")
  {
    hide IsResolution;
    hide InConflict;
    var ms, res := TwoConflicts(), [Resolution("A", LastWriteWins), Resolution("B", LastWriteWins)];
    LastWriter(Versions(ms, "p"), 2, "A", "B");
    LastWriter(Versions(ms, "q"), 2, "B", "A");
    var a, b := ms["A"]["q"], ms["B"]["q"];
    assert Ahead(a.vv, b.vv) by { assert Clock(a.vv, "A") > Clock(b.vv, "A"); }
    assert Ahead(b.vv, a.vv) by { assert Clock(b.vv, "B") > Clock(a.vv, "B"); }
    assert Rivals(ms, "A", "B", "q");
    assert FirstUsable(ms, res, "q", 0);
    ResolvedIsFirst(ms, res, "q", 0);
  }

  // ----- One conflict is enough ---------------------------------------------------------------

  const OLD: Clocks := map["A" := 1]

  /** "A" deleted the file; "B" and "C", knowing of that, each wrote it again. */
  function WrittenAgain(): Manifests {
    map["A" := map["p" := BLANK.(vv := OLD, tombstone := true)],
        "B" := map["p" := BLANK.(hash := "b", vv := OLD["B" := 1])],
        "C" := map["p" := BLANK.(hash := "c", vv := OLD["C" := 1])]]
  }

  lemma WrittenAgainOrder(v: VersionMap)
    requires v.Keys == {"A", "B", "C"}
    requires v["A"].vv == OLD && v["B"].vv == OLD["B" := 1] && v["C"].vv == OLD["C" := 1]
    ensures Order(v["B"].vv, v["A"].vv) == Dominates && Order(v["C"].vv, v["B"].vv) == Concurrent
    ensures !Leq(v["B"].vv, v["A"].vv) && !Leq(v["C"].vv, v["B"].vv) && !Leq(v["B"].vv, v["C"].vv)
    ensures Order(v["A"].vv, v["B"].vv) != Concurrent && Order(v["A"].vv, v["C"].vv) != Concurrent
  {
    var a, b, c := v["A"].vv, v["B"].vv, v["C"].vv;
    assert Clock(b, "B") > Clock(a, "B") && Clock(b, "B") > Clock(c, "B") && Clock(c, "C") > Clock(b, "C");
    assert Leq(a, b) && Leq(a, c);
    OrderDecidesLeq(b, a);
    OrderDecidesLeq(a, b);
    OrderDecidesLeq(a, c);
    OrderDecidesLeq(c, b);
  }

  lemma WrittenAgainResolution(v: VersionMap)
    requires v.Keys == {"A", "B", "C"}
    requires v["A"].vv == OLD && v["B"].vv == OLD["B" := 1] && v["C"].vv == OLD["C" := 1]
    requires v["A"].tombstone && !v["B"].tombstone && !v["C"].tombstone && v["B"].hash != v["C"].hash
    ensures InConflict(v) && IsResolution(v, 3, Resolution("A", TombstoneWins))
  {
    hide Order;
    hide Leq;
    WrittenAgainOrder(v);
    assert Clash(v["C"], v["B"]);
    forall d
      ensures !Supreme(v, d)
    {
      assert "B" in v && "C" in v;
    }
    forall hash
      ensures !Majority(v, 3, hash)
    {
      if "B" in Holders(v, hash) {
        assert Holders(v, hash) == {"B"};
      } else {
        assert Holders(v, hash) <= {"C"};
        SubsetSize(Holders(v, hash), {"C"});
      }
    }
  }

  lemma ThreeInOrder(keys: set<DriveId>)
    requires keys == {"A", "B", "C"}
    ensures Sorted(keys) == ["A", "B", "C"]
  {
    assert Less("A", "B") && Less("B", "C") && Less("A", "C");
    var r := Sorted(keys);
    assert r[0] in r && r[1] in r && r[2] in r && "A" in r && "B" in r && "C" in r;
    LessTotal(r[0], r[1]);
    LessTotal(r[1], r[2]);
    LessTotal("A", "B");
    LessTotal("B", "C");
    LessTotal("A", "C");
  }

  lemma ChoiceStep(ms: Manifests, ids: seq<DriveId>, d: DriveId, p: Path)
    requires d in ms && p in ms[d]
    ensures var before := Dominant(ms, ids, p);
      Dominant(ms, ids + [d], p)
        == if before.Some? && Order(ms[d][p].vv, ms[before.value][p].vv) != Dominates then before else Some(d)
  {
    hide Order;
    assert (ids + [d])[..|ids|] == ids;
  }

  /** The planner's choice among three drives. */
  lemma ChoiceOfThree(ms: Manifests, p: Path)
    requires ms.Keys == {"A", "B", "C"} && p in ms["A"] && p in ms["B"] && p in ms["C"]
    ensures var ab := if Order(ms["B"][p].vv, ms["A"][p].vv) == Dominates then "B" else "A";
      Dominant(ms, Ids(ms), p) == Some(if Order(ms["C"][p].vv, ms[ab][p].vv) == Dominates then "C" else ab)
  {
    hide Order;
    hide Dominant;
    ThreeInOrder(ms.Keys);
    NoChoice(ms, p);
    ChoiceStep(ms, [], "A", p);
    ChoiceStep(ms, ["A"], "B", p);
    ChoiceStep(ms, ["A", "B"], "C", p);
    assert [] + ["A"] == ["A"] && ["A"] + ["B"] == ["A", "B"] && ["A", "B"] + ["C"] == ["A", "B", "C"];
  }

  lemma NoChoice(ms: Manifests, p: Path)
    ensures Dominant(ms, [], p) == None
  {
  }

  /** The resolver says that the deletion wins, and the planner restores what "B" has. */
  lemma DeletionIsOverridden()
    ensures var ms, r := WrittenAgain(), Resolution("A", TombstoneWins);
      && InConflict(Versions(ms, "p")) && IsResolution(Versions(ms, "p"), |ms|, r)
      && !Quorum(ms, "p") && SourceOf(ms, [r], "p") == Some("B")
  {
    hide *;
    var ms, r := WrittenAgain(), Resolution("A", TombstoneWins);
    WrittenAgainDrives();
    WrittenAgainResolution(Versions(ms, "p"));
    WrittenAgainSource(ms, [r]);
  }

  lemma WrittenAgainDrives()
    ensures var ms := WrittenAgain();
      && ms.Keys == {"A", "B", "C"} && |ms| == 3 && TombstonedOn(ms, "p") == {"A"}
      && var v := Versions(ms, "p");
         && v.Keys == {"A", "B", "C"}
         && v["A"].vv == OLD && v["B"].vv == OLD["B" := 1] && v["C"].vv == OLD["C" := 1]
         && v["A"].tombstone && !v["B"].tombstone && !v["C"].tombstone && v["B"].hash != v["C"].hash
  {
    assert WrittenAgain().Keys == {"A", "B", "C"};
  }

  lemma WrittenAgainSource(ms: Manifests, res: seq<Resolution>)
    requires ms.Keys == {"A", "B", "C"} && |ms| == 3 && TombstonedOn(ms, "p") == {"A"}
    requires var v := Versions(ms, "p");
      && v.Keys == {"A", "B", "C"}
      && v["A"].vv == OLD && v["B"].vv == OLD["B" := 1] && v["C"].vv == OLD["C" := 1]
    requires |res| == 1 && res[0].winner == "A"
    ensures !Quorum(ms, "p") && SourceOf(ms, res, "p") == Some("B")
  {
    hide Order;
    hide Leq;
    hide Quorum;
    hide Dominant;
    hide Applies;
    hide TombstonedOn;
    QuorumIsMajority(ms, "p");
    WrittenAgainOrder(Versions(ms, "p"));
    ChoiceOfThree(ms, "p");
    OnlyRivals(ms, "A", "p");
    NoneUsable(ms, res, "p");
  }

  lemma OnlyRivals(ms: Manifests, w: DriveId, p: Path)
    requires forall d :: d in Versions(ms, p) && d != w && w in Versions(ms, p) ==>
      Order(Versions(ms, p)[w].vv, Versions(ms, p)[d].vv) != Concurrent
    ensures !Applies(ms, w, p)
  {
    hide Order;
    assert forall d :: d in ms && p in ms[d] ==> d in Versions(ms, p);
  }

  /** "C" has seen what "A" and "B" each wrote to "p", and on "q" "A" wrote last. */
  function MergedLater(): Manifests {
    map["A" := map["p" := Version("A", "pa", 1), "q" := Version("A", "qa", 2)],
        "B" := map["p" := Version("B", "pb", 1), "q" := Version("B", "qb", 1)],
        "C" := map["p" := BLANK.(hash := "pc", vv := OLD["B" := 1]["C" := 1])]]
  }

  /** The winner for "q" is taken for "p" too, and what "C" made of both versions is lost. */
  lemma NewestIsOverridden()
    ensures var ms, res := MergedLater(), [Resolution("C", DominantVersion), Resolution("A", LastWriteWins)];
      && InConflict(Versions(ms, "p")) && IsResolution(Versions(ms, "p"), |ms|, res[0])
      && InConflict(Versions(ms, "q")) && IsResolution(Versions(ms, "q"), |ms|, res[1])
      && SourceOf(ms, res, "p") == Some("A")
  {
    hide *;
    var ms, res := MergedLater(), [Resolution("C", DominantVersion), Resolution("A", LastWriteWins)];
    MergedLaterDrives();
    LastWriter(Versions(ms, "q"), 3, "A", "B");
    NewestVersion(Versions(ms, "p"));
    NewestOrder(Versions(ms, "p"));
    SupremeHasNoRival(ms, "C", "p");
    RivalApplies(ms, "A", "B", "p");
    SecondUsable(ms, res, "p");
  }

  lemma MergedLaterDrives()
    ensures var ms := MergedLater(); ms.Keys == {"A", "B", "C"} && |ms| == 3
    ensures var v := Versions(MergedLater(), "p");
      && v.Keys == {"A", "B", "C"} && v["C"].vv == OLD["B" := 1]["C" := 1]
      && v["A"].vv == map["A" := 1] && v["B"].vv == map["B" := 1]
    ensures var v := Versions(MergedLater(), "q");
      && v.Keys == {"A", "B"} && v["A"].vv == map["A" := 1] && v["B"].vv == map["B" := 1]
      && !v["A"].tombstone && !v["B"].tombstone && v["A"].hash != v["B"].hash && v["A"].mtime > v["B"].mtime
  {
    assert MergedLater().Keys == {"A", "B", "C"};
  }

  lemma RivalApplies(ms: Manifests, w: DriveId, d: DriveId, p: Path)
    requires var v := Versions(ms, p);
      w in v && d in v && w != d && w != "" && Order(v[w].vv, v[d].vv) == Concurrent
    ensures Applies(ms, w, p)
  {
    hide Order;
    assert Rivals(ms, w, d, p);
  }

  lemma SecondUsable(ms: Manifests, res: seq<Resolution>, p: Path)
    requires |res| == 2 && !Applies(ms, res[0].winner, p) && Applies(ms, res[1].winner, p)
    ensures SourceOf(ms, res, p) == Some(res[1].winner)
  {
    hide Applies;
    assert FirstUsable(ms, res, p, 1);
    ResolvedIsFirst(ms, res, p, 1);
  }

  lemma NewestOrder(v: VersionMap)
    requires v.Keys == {"A", "B", "C"} && v["C"].vv == OLD["B" := 1]["C" := 1]
    requires v["A"].vv == map["A" := 1] && v["B"].vv == map["B" := 1]
    ensures Order(v["A"].vv, v["B"].vv) == Concurrent && Leq(v["A"].vv, v["C"].vv) && Leq(v["B"].vv, v["C"].vv)
    ensures !Leq(v["C"].vv, v["A"].vv) && !Leq(v["C"].vv, v["B"].vv)
  {
    var a, b, c := v["A"].vv, v["B"].vv, v["C"].vv;
    assert Clock(a, "A") > Clock(b, "A") && Clock(b, "B") > Clock(a, "B");
    assert Clock(c, "C") > Clock(a, "C") && Clock(c, "C") > Clock(b, "C");
    OrderDecidesLeq(a, b);
  }

  lemma NewestVersion(v: VersionMap)
    requires v.Keys == {"A", "B", "C"} && v["C"].vv == OLD["B" := 1]["C" := 1]
    requires v["A"].vv == map["A" := 1] && v["B"].vv == map["B" := 1]
    ensures InConflict(v) && IsResolution(v, 3, Resolution("C", DominantVersion)) && Supreme(v, "C")
  {
    hide Order;
    NewestOrder(v);
    assert Clash(v["A"], v["B"]);
    LeqReflexive(v["C"].vv);
    forall d | Supreme(v, d)
      ensures d == "C"
    {
      assert "C" in v && d in v;
    }
  }

  // ----- The quorum comes first ---------------------------------------------------------------

  /** "A" and "B" deleted the file; "C", knowing of that, wrote it again. */
  function WrittenOnOne(): Manifests {
    map["A" := map["p" := BLANK.(vv := OLD, tombstone := true)],
        "B" := map["p" := BLANK.(vv := OLD, tombstone := true)],
        "C" := map["p" := BLANK.(hash := "c", vv := OLD["C" := 1])]]
  }

  /** The resolver chooses the only live version, which knows of both deletions, and the planner has
      it removed. */
  lemma NewestIsRemoved()
    ensures var ms, r := WrittenOnOne(), Resolution("C", DominantVersion);
      && InConflict(Versions(ms, "p")) && IsResolution(Versions(ms, "p"), |ms|, r) && !ms["C"]["p"].tombstone
      && OpFor(ms, [r], "C", "p").Some? && OpFor(ms, [r], "C", "p").value.kind == REMOVE
  {
    hide Order;
    hide Leq;
    hide Quorum;
    hide OpFor;
    hide InConflict;
    hide IsResolution;
    var ms, r := WrittenOnOne(), Resolution("C", DominantVersion);
    var v := Versions(ms, "p");
    assert ms.Keys == {"A", "B", "C"} && |ms| == 3 && v.Keys == {"A", "B", "C"};
    OnlyNewest(v);
    assert TombstonedOn(ms, "p") == {"A", "B"};
    QuorumIsMajority(ms, "p");
    QuorumOverrides(ms, [r], "p", r);
  }

  lemma OnlyNewest(v: VersionMap)
    requires v.Keys == {"A", "B", "C"} && v["A"].vv == v["B"].vv == OLD && v["C"].vv == OLD["C" := 1]
    requires v["A"].tombstone && v["B"].tombstone && !v["C"].tombstone
    ensures InConflict(v) && IsResolution(v, 3, Resolution("C", DominantVersion))
  {
    hide Order;
    var a, c := v["A"].vv, v["C"].vv;
    assert Clock(c, "C") > Clock(a, "C");
    assert Leq(a, c) && !Leq(c, a);
    OrderDecidesLeq(c, a);
    assert Clash(v["C"], v["A"]);
    LeqReflexive(c);
    forall d | Supreme(v, d)
      ensures d == "C"
    {
      assert "C" in v && d in v;
    }
  }
}
