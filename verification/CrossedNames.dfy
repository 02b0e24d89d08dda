/** Two small fleets: one file renamed on one drive, which a sync carries over, and one renamed in
    opposite directions on two, which a sync swaps. */
module CrossedNames {
  import opened Base
  import opened SyncOps
  import opened Drives
  import opened CrashSafety
  import opened Executor
  import opened ConflictResolver
  import opened RenameDetection
  import opened PlanRules
  import opened SyncPlanner
  import opened PlanProperties
  import opened Convergence
  import opened PlanMeaning
  import opened RenameConvergence

  // ----- Renames that cross -----------------------------------------------------------------

  function Entry(hash: Digest, tombstone: bool): Meta {
    BLANK.(hash := hash, tombstone := tombstone)
  }

  /** One file, renamed in opposite directions on two drives. */
  function Crossed(h: Bytes -> Digest, x: Bytes): Fleet {
    map["A" := Replica(map["q" := x], map["q" := Entry(h(x), false), "p" := Entry(h(x), true)]),
        "B" := Replica(map["p" := x], map["p" := Entry(h(x), false), "q" := Entry(h(x), true)])]
  }

  lemma CrossedManifests(h: Bytes -> Digest, x: Bytes)
    ensures var ms := ManifestsOf(Crossed(h, x));
      && ms.Keys == {"A", "B"} && ms["A"].Keys == ms["B"].Keys == {"p", "q"} && AllPaths(ms) == {"p", "q"}
      && Live(ms["A"], "q") && !Live(ms["A"], "p") && Live(ms["B"], "p") && !Live(ms["B"], "q")
      && ms["A"]["q"].hash == ms["B"]["p"].hash
  {
    var f := Crossed(h, x);
    assert "A" in f && "B" in f;
    var ms := ManifestsOf(f);
    assert ms["A"] == f["A"].manifest && ms["B"] == f["B"].manifest;
  }

  /** Each drive calls for its own name on the other, and that is all. */
  lemma CrossedCalls(h: Bytes -> Digest, x: Bytes, s: DriveId, t: DriveId, p: Path, q: Path)
    ensures IsRename(ManifestsOf(Crossed(h, x)), s, t, p, q)
       <==> (s, t, p, q) == ("B", "A", "q", "p") || (s, t, p, q) == ("A", "B", "p", "q")
  {
    hide Crossed;
    hide ManifestsOf;
    hide AllPaths;
    CrossedManifests(h, x);
  }

  /** Nothing is above anything else among these paths. */
  lemma FlatTree(ms: Manifests)
    requires forall p :: p in AllPaths(ms) ==> '/' !in p
    ensures LiveTree(ms)
  {
    forall p, q | p in LivePaths(ms) && q in LivePaths(ms)
      ensures p !in AncestorDirs(q)
    {
      assert q in AllPaths(ms);
      if p in AncestorDirs(q) {
        HasSlash(p, q);
      }
    }
  }

  lemma HasSlash(p: Path, q: Path)
    requires p in AncestorDirs(q)
    ensures '/' in q
  {
    AncestorsAreAbove(q, p);
    assert q[|p|] in q;
  }

  lemma CrossedIsFlat(h: Bytes -> Digest, x: Bytes)
    ensures LiveTree(ManifestsOf(Crossed(h, x))) && "" !in ManifestsOf(Crossed(h, x))
  {
    hide Crossed;
    hide ManifestsOf;
    hide AllPaths;
    CrossedManifests(h, x);
    FlatTree(ManifestsOf(Crossed(h, x)));
  }

  /** Each name is the old one on one drive and the new one on the other. */
  lemma CrossedIsChained(h: Bytes -> Digest, x: Bytes)
    ensures Paired(ManifestsOf(Crossed(h, x))) && Chained(ManifestsOf(Crossed(h, x)))
  {
    hide Crossed;
    hide ManifestsOf;
    hide IsRename;
    var ms := ManifestsOf(Crossed(h, x));
    forall s, t, p, q
      ensures IsRename(ms, s, t, p, q) <==> (s, t, p, q) == ("B", "A", "q", "p") || (s, t, p, q) == ("A", "B", "p", "q")
    {
      CrossedCalls(h, x, s, t, p, q);
    }
    assert IsRename(ms, "B", "A", "q", "p") && IsRename(ms, "A", "B", "p", "q");
  }

  /** Every plan for crossed names, carried out, makes the two drives trade places: they are as far apart
      as before. */
  lemma CrossedStaysApart(h: Bytes -> Digest, x: Bytes, res: seq<Resolution>, plan: seq<SyncOp>)
    requires IsPlanOf(ManifestsOf(Crossed(h, x)), res, plan)
    ensures Sane(h, Crossed(h, x)) && Paired(ManifestsOf(Crossed(h, x))) && Chained(ManifestsOf(Crossed(h, x)))
    ensures var g := ApplyAll(h, Crossed(h, x), plan);
      && "A" in g && "q" !in g["A"].disk && Lookup(g["A"].disk, "p") == Some(x)
      && "B" in g && "p" !in g["B"].disk && Lookup(g["B"].disk, "q") == Some(x)
      && !Converged(g)
  {
    hide IsPlanOf;
    hide ApplyAll;
    hide Sane;
    hide ManifestsOf;
    hide Converged;
    hide Paired;
    hide Chained;
    hide LiveTree;
    hide IsRename;
    CrossedIsSane(h, x);
    CrossedIsFlat(h, x);
    CrossedIsChained(h, x);
    CrossedCalls(h, x, "B", "A", "q", "p");
    CrossedCalls(h, x, "A", "B", "p", "q");
    RenameIsDone(h, Crossed(h, x), res, plan, "B", "A", "q", "p");
    RenameIsDone(h, Crossed(h, x), res, plan, "A", "B", "p", "q");
    ChainedKeepsApart(h, Crossed(h, x), res, plan);
  }

  lemma CrossedIsSane(h: Bytes -> Digest, x: Bytes)
    ensures Sane(h, Crossed(h, x))
  {
    hide ManifestsOf;
    hide AllPaths;
    CrossedManifests(h, x);
    var f := Crossed(h, x);
    assert f.Keys == {"A", "B"};
    assert Matches(h, f["A"]) && Matches(h, f["B"]);
  }

  // ----- A rename that is carried over --------------------------------------------------------

  /** "A" has renamed "p" to "q"; "B" still has the old name. */
  function RenamedOnce(h: Bytes -> Digest, x: Bytes): Fleet {
    map["A" := Replica(map["q" := x], map["q" := Entry(h(x), false), "p" := TOMB_A]),
        "B" := Replica(map["p" := x], map["p" := Entry(h(x), false)])]
  }

  lemma RenamedOnceManifests(h: Bytes -> Digest, x: Bytes)
    ensures var ms := ManifestsOf(RenamedOnce(h, x));
      && ms.Keys == {"A", "B"} && ms["A"].Keys == {"p", "q"} && ms["B"].Keys == {"p"} && AllPaths(ms) == {"p", "q"}
      && Live(ms["A"], "q") && ms["A"]["p"] == TOMB_A && Live(ms["B"], "p") && ms["B"]["p"].vv == map[]
      && ms["A"]["q"].hash == ms["B"]["p"].hash == h(x)
  {
    var f := RenamedOnce(h, x);
    assert "A" in f && "B" in f;
    var ms := ManifestsOf(f);
    assert ms["A"] == f["A"].manifest && ms["B"] == f["B"].manifest;
  }

  lemma RenamedOnceCalls(h: Bytes -> Digest, x: Bytes, s: DriveId, t: DriveId, p: Path, q: Path)
    ensures IsRename(ManifestsOf(RenamedOnce(h, x)), s, t, p, q) <==> (s, t, p, q) == ("A", "B", "p", "q")
  {
    hide RenamedOnce;
    hide ManifestsOf;
    hide AllPaths;
    RenamedOnceManifests(h, x);
  }

  lemma RenamedOnceSources(h: Bytes -> Digest, x: Bytes)
    ensures var ms := ManifestsOf(RenamedOnce(h, x));
      && SourceOf(ms, [], "p") == Some("A") && SourceOf(ms, [], "q") == Some("A")
      && !Quorum(ms, "p") && !Quorum(ms, "q")
  {
    hide RenamedOnce;
    hide ManifestsOf;
    hide Quorum;
    hide SourceOf;
    hide AllPaths;
    RenamedOnceManifests(h, x);
    var ms := ManifestsOf(RenamedOnce(h, x));
    NewerOnA(ms, "p");
    NewerOnA(ms, "q");
  }

  /** There is a rename, it fits, and so one sync makes the drives agree. */
  lemma RenamedOnceConverges(h: Bytes -> Digest, x: Bytes, plan: seq<SyncOp>)
    requires OnlyPreimage(h, x) && IsPlanOf(ManifestsOf(RenamedOnce(h, x)), [], plan)
    ensures IsRename(ManifestsOf(RenamedOnce(h, x)), "A", "B", "p", "q")
    ensures Paired(ManifestsOf(RenamedOnce(h, x))) && SourceStays(ManifestsOf(RenamedOnce(h, x)), [])
    ensures RenamesFit(ManifestsOf(RenamedOnce(h, x)), [])
    ensures Converged(ApplyAll(h, RenamedOnce(h, x), plan))
  {
    hide *;
    RenamedOnceCalls(h, x, "A", "B", "p", "q");
    RenamedOnceIsFit(h, x);
    RenamedOnceIsSane(h, x);
    RenameRoundExactly(h, RenamedOnce(h, x), [], plan);
  }

  lemma RenamedOnceIsFit(h: Bytes -> Digest, x: Bytes)
    ensures var ms := ManifestsOf(RenamedOnce(h, x));
      Paired(ms) && SourceStays(ms, []) && RenamesFit(ms, []) && LiveTree(ms)
  {
    hide RenamedOnce;
    hide ManifestsOf;
    hide IsRename;
    hide SourceOf;
    hide Quorum;
    hide LiveTree;
    var ms := ManifestsOf(RenamedOnce(h, x));
    RenamedOnceManifests(h, x);
    RenamedOnceSources(h, x);
    forall s, t, p, q
      ensures IsRename(ms, s, t, p, q) ==> (s, t, p, q) == ("A", "B", "p", "q")
    {
      RenamedOnceCalls(h, x, s, t, p, q);
    }
    FlatTree(ms);
  }

  lemma RenamedOnceIsSane(h: Bytes -> Digest, x: Bytes)
    requires OnlyPreimage(h, x)
    ensures Sane(h, RenamedOnce(h, x)) && CollisionFree(h, RenamedOnce(h, x)) && "" !in RenamedOnce(h, x)
  {
    hide OnlyPreimage;
    hide ManifestsOf;
    hide AllPaths;
    RenamedOnceManifests(h, x);
    var f := RenamedOnce(h, x);
    assert f.Keys == {"A", "B"};
    assert Matches(h, f["A"]) && Matches(h, f["B"]);
  }
}
