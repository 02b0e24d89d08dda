/** What sorting and coalescing make of a rename-free plan: when it still does what was emitted, and when
    the drives still come to agree. */
module PlanMeaning {
  import opened Base
  import opened SyncOps
  import opened VersionVectors
  import opened Drives
  import opened CrashSafety
  import opened Executor
  import opened ConflictResolver
  import opened RenameDetection
  import opened PlanRules
  import opened PlanOrder
  import opened SyncPlanner
  import opened PlanProperties
  import opened Burial
  import opened Convergence

  // ----- Which operations a plan holds ------------------------------------------------------

  /** What the planner emits for a round without renames carries that round out. */
  lemma EmissionCarriesOut(ms: Manifests, res: seq<Resolution>, r: RenameMap)
    requires NoneRenamed(r)
    ensures CarriesOut(Emitted(ms, res, r), ms, res)
  {
    hide OpFor;
    hide Emitted;
    var ops := Emitted(ms, res, r);
    forall i | 0 <= i < |ops| && ops[i].kind != MKDIR
      ensures OpFor(ms, res, ops[i].target, ops[i].path) == Some(ops[i])
    {
      PlainOp(ms, res, r, i);
    }
    forall t, p | OpFor(ms, res, t, p).Some?
      ensures OpFor(ms, res, t, p).value in ops
    {
      var k := PlannedPlace(ms, res, r, t, p);
    }
    forall i, j | 0 <= i < j < |ops| && ops[i].kind != MKDIR && ops[j].kind != MKDIR
      ensures ops[i].Key() != ops[j].Key()
    {
      EmittedFileKeys(ms, res, r, i, j);
    }
  }

  lemma RearrangedCarriesOut(
    ops: seq<SyncOp>, sorted: seq<SyncOp>, order: seq<nat>, ms: Manifests, res: seq<Resolution>)
    requires CarriesOut(ops, ms, res) && Rearranges(sorted, ops, order)
    ensures CarriesOut(sorted, ms, res)
  {
    hide OpFor;
    DistinctBelow(order, |ops|);
    forall t, p | OpFor(ms, res, t, p).Some?
      ensures OpFor(ms, res, t, p).value in sorted
    {
      var i: nat :| i < |ops| && ops[i] == OpFor(ms, res, t, p).value;
      assert i in order;
      var k :| 0 <= k < |order| && order[k] == i;
      assert sorted[k] == ops[i];
    }
    forall i, j | 0 <= i < j < |sorted| && sorted[i].kind != MKDIR && sorted[j].kind != MKDIR
      ensures sorted[i].Key() != sorted[j].Key()
    {
      assert order[i] != order[j];
    }
  }

  lemma SortedCarriesOut(ms: Manifests, res: seq<Resolution>, r: RenameMap, sorted: seq<SyncOp>)
    requires NoneRenamed(r) && KahnOrdered(Emitted(ms, res, r), sorted)
    ensures CarriesOut(sorted, ms, res)
    ensures forall op :: op in sorted <==> op in Emitted(ms, res, r)
  {
    hide Emitted;
    hide CarriesOut;
    hide KahnOrdered;
    hide Rearranges;
    hide NoneRenamed;
    hide Acyclic;
    var order := AcyclicOrder(Emitted(ms, res, r), sorted);
    EmissionCarriesOut(ms, res, r);
    RearrangedCarriesOut(Emitted(ms, res, r), sorted, order, ms, res);
    SameMembers(sorted, Emitted(ms, res, r), order);
  }

  lemma SameMembers(sorted: seq<SyncOp>, ops: seq<SyncOp>, order: seq<nat>)
    requires Rearranges(sorted, ops, order)
    ensures forall op :: op in sorted <==> op in ops
  {
    hide Rearranges;
    RearrangedMultiset(sorted, ops, order);
    forall op
      ensures op in sorted <==> op in ops
    {
      assert op in sorted <==> op in multiset(sorted);
      assert op in ops <==> op in multiset(ops);
    }
  }

  /** A plan without renames is part of the round, and lacks exactly the buried operations. */
  lemma PlanIsUnburied(ms: Manifests, res: seq<Resolution>, r: RenameMap, sorted: seq<SyncOp>)
    requires NoneRenamed(r) && KahnOrdered(Emitted(ms, res, r), sorted)
    ensures PartOf(KeepLast(sorted), ms, res)
    ensures forall t, p :: OpFor(ms, res, t, p).Some? ==>
      (OpFor(ms, res, t, p).value in KeepLast(sorted) <==> !Buried(ms, res, t, p))
  {
    hide Emitted;
    hide OpFor;
    hide Buried;
    hide KahnOrdered;
    hide KeepLast;
    hide NoneRenamed;
    SortedCarriesOut(ms, res, r, sorted);
    KeptPart(sorted, ms, res);
    forall t, p | OpFor(ms, res, t, p).Some?
      ensures OpFor(ms, res, t, p).value in KeepLast(sorted) <==> !Buried(ms, res, t, p)
    {
      PlannedPath(ms, res, t, p);
      if Buried(ms, res, t, p) {
        BuriedIsDropped(ms, res, r, sorted, t, p);
      } else {
        UnburiedIsKept(ms, res, r, sorted, t, p);
      }
    }
  }

  lemma KeptPart(sorted: seq<SyncOp>, ms: Manifests, res: seq<Resolution>)
    requires PartOf(sorted, ms, res)
    ensures PartOf(KeepLast(sorted), ms, res)
  {
    hide OpFor;
    var plan := KeepLast(sorted);
    KeepLastKeys(sorted);
    forall i | 0 <= i < |plan|
      ensures plan[i].kind == MKDIR || OpFor(ms, res, plan[i].target, plan[i].path) == Some(plan[i])
    {
      KeepLastIsLast(sorted, plan[i]);
    }
  }

  lemma UnburiedIsKept(
    ms: Manifests, res: seq<Resolution>, r: RenameMap, sorted: seq<SyncOp>, t: DriveId, p: Path)
    requires NoneRenamed(r) && CarriesOut(sorted, ms, res) && (forall op :: op in sorted ==> op in Emitted(ms, res, r))
    requires OpFor(ms, res, t, p).Some? && !Buried(ms, res, t, p)
    ensures OpFor(ms, res, t, p).value in KeepLast(sorted)
  {
    hide Emitted;
    hide Buried;
    hide KeepLast;
    PlannedPath(ms, res, t, p);
    hide OpFor;
    var op := OpFor(ms, res, t, p).value;
    var c: nat :| c < |sorted| && sorted[c] == op;
    forall b | c < b < |sorted|
      ensures sorted[b].Key() != (t, p)
    {
      if sorted[b].kind == MKDIR {
        assert sorted[b] in Emitted(ms, res, r);
        var i: nat :| i < |Emitted(ms, res, r)| && Emitted(ms, res, r)[i] == sorted[b];
        DirHasCopy(ms, res, r, i);
      }
    }
    NoneLater(sorted, c, (t, p));
    KeepLastIsLast(sorted, op);
  }

  lemma NoneLater(ops: seq<SyncOp>, c: nat, key: (DriveId, Path))
    requires c < |ops| && forall b :: c < b < |ops| ==> ops[b].Key() != key
    ensures !HasKey(ops[c + 1..], key)
  {
  }

  // ----- What the plan does -----------------------------------------------------------------

  /** Every operation changes its target's entry. */
  lemma EntryChanges(ms: Manifests, res: seq<Resolution>, t: DriveId, p: Path)
    requires OpFor(ms, res, t, p).Some? && t in ms
    ensures EntryAfter(ms, res, t, p) != Lookup(ms[t], p)
  {
    hide Quorum;
    hide Tombstones;
    hide SourceOf;
    hide JoinAt;
    hide Order;
    OpForFacts(ms, res, t, p);
    var op := OpFor(ms, res, t, p).value;
    if op.kind == REPLACE {
      var s := op.source;
      OrderDecidesLeq(ms[t][p].vv, ms[t][p].vv);
      if Order(ms[s][p].vv, ms[t][p].vv) == Dominates {
        JoinDominates(ms, s, t, p);
      }
    }
  }

  /** Coalescing keeps what a rename-free plan does if and only if no operation's path is a directory
      above a path that is to be copied to the same drive. */
  lemma PlanKeepsMeaning(h: Bytes -> Digest, f: Fleet, res: seq<Resolution>, r: RenameMap, sorted: seq<SyncOp>)
    requires Sane(h, f) && NoneRenamed(r) && KahnOrdered(Emitted(ManifestsOf(f), res, r), sorted)
    ensures var ms := ManifestsOf(f);
      ApplyAll(h, f, KeepLast(sorted)) == ApplyAll(h, f, Emitted(ms, res, r)) <==> NothingBuried(ms, res)
    ensures CarriesOut(KeepLast(sorted), ManifestsOf(f), res) <==> NothingBuried(ManifestsOf(f), res)
  {
    hide *;
    var ms := ManifestsOf(f);
    EmissionCarriesOut(ms, res, r);
    WholeUnlessBuried(ms, res, r, sorted);
    if NothingBuried(ms, res) {
      OrderDoesNotMatter(h, f, res, KeepLast(sorted), Emitted(ms, res, r));
    } else {
      var t, d := SomeBuried(ms, res);
      PlanIsUnburied(ms, res, r, sorted);
      BuriedCellStays(h, f, res, KeepLast(sorted), t, d);
      RoundOutcome(h, f, res, Emitted(ms, res, r));
      CellDiffers(f, res, ApplyAll(h, f, KeepLast(sorted)), ApplyAll(h, f, Emitted(ms, res, r)), t, d);
    }
  }

  lemma SomeBuried(ms: Manifests, res: seq<Resolution>) returns (t: DriveId, d: Path)
    requires !NothingBuried(ms, res)
    ensures Buried(ms, res, t, d) && OpFor(ms, res, t, d).Some?
  {
    hide OpFor;
    t, d :| Buried(ms, res, t, d);
  }

  lemma WholeUnlessBuried(ms: Manifests, res: seq<Resolution>, r: RenameMap, sorted: seq<SyncOp>)
    requires NoneRenamed(r) && KahnOrdered(Emitted(ms, res, r), sorted)
    ensures CarriesOut(KeepLast(sorted), ms, res) <==> NothingBuried(ms, res)
  {
    hide OpFor;
    hide KahnOrdered;
    hide KeepLast;
    hide PartOf;
    hide NoneRenamed;
    hide Emitted;
    PlanIsUnburied(ms, res, r, sorted);
    if !NothingBuried(ms, res) {
      var t, d := SomeBuried(ms, res);
    }
  }

  /** A cell whose operation was dropped stays as it was. */
  lemma BuriedCellStays(
    h: Bytes -> Digest, f: Fleet, res: seq<Resolution>, plan: seq<SyncOp>, t: DriveId, p: Path)
    requires Sane(h, f) && PartOf(plan, ManifestsOf(f), res)
    requires OpFor(ManifestsOf(f), res, t, p).Some? && OpFor(ManifestsOf(f), res, t, p).value !in plan
    ensures t in f && ApplyAll(h, f, plan).Keys == f.Keys && CellAt(f, res, ApplyAll(h, f, plan), t, p, false)
  {
    hide OpFor;
    hide ApplyAll;
    hide EntryAfter;
    hide FileAfter;
    OpForFacts(ManifestsOf(f), res, t, p);
    PrefixReached(h, f, res, plan, |plan|);
    assert plan[..|plan|] == plan;
    assert !DoneIn(plan, t, p);
    assert CellAt(f, res, ApplyAll(h, f, plan), t, p, DoneIn(plan, t, p));
  }

  lemma CellDiffers(f: Fleet, res: seq<Resolution>, a: Fleet, b: Fleet, t: DriveId, p: Path)
    requires t in f && a.Keys == f.Keys && CellAt(f, res, a, t, p, false) && Reached(f, res, b)
    requires OpFor(ManifestsOf(f), res, t, p).Some?
    ensures a != b
  {
    hide OpFor;
    hide EntryAfter;
    hide FileAfter;
    EntryChanges(ManifestsOf(f), res, t, p);
    assert CellAt(f, res, b, t, p, true);
  }

  // ----- Whether the drives come to agree ---------------------------------------------------

  /** The operation changes the file, and not only the entry's vector. */
  ghost predicate Moves(ms: Manifests, res: seq<Resolution>, t: DriveId, p: Path) {
    && OpFor(ms, res, t, p).Some? && t in ms
    && var op := OpFor(ms, res, t, p).value;
       op.kind == REPLACE && op.source in ms && p in ms[op.source] && p in ms[t] ==>
         ms[op.source][p].hash != ms[t][p].hash
  }

  /** A buried operation would have moved bytes. */
  ghost predicate BytesBuried(ms: Manifests, res: seq<Resolution>) {
    exists t, p :: Buried(ms, res, t, p) && Moves(ms, res, t, p)
  }

  /** An operation that moves no bytes finds the round's bytes in place. */
  lemma NothingToMove(h: Bytes -> Digest, f: Fleet, res: seq<Resolution>, t: DriveId, p: Path)
    requires Sane(h, f) && CollisionFree(h, f) && t in f
    requires OpFor(ManifestsOf(f), res, t, p).Some? && !Moves(ManifestsOf(f), res, t, p)
    ensures Lookup(f[t].disk, p) == Shared(f, res, p)
  {
    hide OpFor;
    var ms := ManifestsOf(f);
    OpForFacts(ms, res, t, p);
    SharedFile(h, f, res, t, p);
    ReplacesLive(ms, res, t, p);
    var op := OpFor(ms, res, t, p).value;
    assert Matches(h, f[t]) && Matches(h, f[op.source]);
  }

  lemma ReplacesLive(ms: Manifests, res: seq<Resolution>, t: DriveId, p: Path)
    requires OpFor(ms, res, t, p).Some?
    ensures t in ms && (OpFor(ms, res, t, p).value.kind == REPLACE <==>
      Live(ms[t], p) && OpFor(ms, res, t, p).value.kind != REMOVE)
  {
    hide Quorum;
    hide Tombstones;
    hide SourceOf;
    hide JoinAt;
    hide Order;
  }

  /** Where an operation would move bytes, some drive that is left alone holds something else. */
  lemma Opposed(ms: Manifests, res: seq<Resolution>, t: DriveId, p: Path) returns (e: DriveId)
    requires Moves(ms, res, t, p)
    ensures t in ms && e in ms && OpFor(ms, res, e, p).None?
    ensures Live(ms[e], p) && Live(ms[t], p) ==> ms[e][p].hash != ms[t][p].hash
    ensures Live(ms[e], p) || Live(ms[t], p)
  {
    hide OpFor;
    hide Quorum;
    OpForFacts(ms, res, t, p);
    ReplacesLive(ms, res, t, p);
    if Quorum(ms, p) {
      e := Deleted(ms, res, t, p);
    } else {
      OpForSource(ms, res, t, p);
      SourceExists(ms, res, p);
      e := SourceOf(ms, res, p).value;
      SourceLeftAlone(ms, res, p);
    }
  }

  lemma Deleted(ms: Manifests, res: seq<Resolution>, t: DriveId, p: Path) returns (e: DriveId)
    requires Quorum(ms, p) && OpFor(ms, res, t, p).Some?
    ensures e in ms && OpFor(ms, res, e, p).None? && !Live(ms[e], p) && t in ms && Live(ms[t], p)
  {
    hide Quorum;
    hide Tombstones;
    QuorumIsMajority(ms, p);
    assert TombstonedOn(ms, p) != {};
    e :| e in TombstonedOn(ms, p);
  }

  lemma SourceLeftAlone(ms: Manifests, res: seq<Resolution>, p: Path)
    requires !Quorum(ms, p) && SourceOf(ms, res, p).Some?
    ensures SourceOf(ms, res, p).value in ms && OpFor(ms, res, SourceOf(ms, res, p).value, p).None?
  {
    hide Quorum;
    hide SourceOf;
    hide JoinAt;
  }

  lemma OpposedFiles(h: Bytes -> Digest, f: Fleet, res: seq<Resolution>, t: DriveId, p: Path) returns (e: DriveId)
    requires Sane(h, f) && Moves(ManifestsOf(f), res, t, p)
    ensures t in f && e in f && OpFor(ManifestsOf(f), res, e, p).None?
    ensures Lookup(f[e].disk, p) != Lookup(f[t].disk, p)
  {
    hide OpFor;
    e := Opposed(ManifestsOf(f), res, t, p);
    assert Matches(h, f[t]) && Matches(h, f[e]);
  }

  /** After part of a round, a drive holds the round's bytes unless its operation is missing. */
  lemma PartFile(h: Bytes -> Digest, f: Fleet, res: seq<Resolution>, plan: seq<SyncOp>, t: DriveId, p: Path)
    requires Sane(h, f) && CollisionFree(h, f) && PartOf(plan, ManifestsOf(f), res) && t in f
    ensures var g, op := ApplyAll(h, f, plan), OpFor(ManifestsOf(f), res, t, p);
      && g.Keys == f.Keys
      && (op.None? || op.value in plan ==> Lookup(g[t].disk, p) == Shared(f, res, p))
      && (op.None? || op.value !in plan ==> Lookup(g[t].disk, p) == Lookup(f[t].disk, p))
  {
    hide OpFor;
    hide ApplyAll;
    hide EntryAfter;
    hide Shared;
    PartDone(f, res, plan, t, p);
    PrefixReached(h, f, res, plan, |plan|);
    assert plan[..|plan|] == plan;
    assert CellAt(f, res, ApplyAll(h, f, plan), t, p, DoneIn(plan, t, p));
    SharedFile(h, f, res, t, p);
  }

  lemma PartDone(f: Fleet, res: seq<Resolution>, plan: seq<SyncOp>, t: DriveId, p: Path)
    requires PartOf(plan, ManifestsOf(f), res) && t in f
    ensures var op := OpFor(ManifestsOf(f), res, t, p);
      DoneIn(plan, t, p) <==> op.Some? && op.value in plan
  {
    hide OpFor;
    var op := OpFor(ManifestsOf(f), res, t, p);
    if op.Some? {
      OpForFacts(ManifestsOf(f), res, t, p);
    }
    if op.Some? && op.value in plan {
      var i: nat :| i < |plan| && plan[i] == op.value;
      assert plan[i].Key() == (t, p);
    }
  }

  /** After part of a round, every disk still matches its manifest. */
  lemma PartIsSane(h: Bytes -> Digest, f: Fleet, res: seq<Resolution>, plan: seq<SyncOp>)
    requires Sane(h, f) && PartOf(plan, ManifestsOf(f), res)
    ensures Sane(h, ApplyAll(h, f, plan))
  {
    hide OpFor;
    hide ApplyAll;
    hide EntryAfter;
    hide FileAfter;
    hide DoneIn;
    hide PartOf;
    hide IsTmp;
    PrefixReached(h, f, res, plan, |plan|);
    assert plan[..|plan|] == plan;
    var g := ApplyAll(h, f, plan);
    forall t | t in g
      ensures Matches(h, g[t]) && forall p :: p in g[t].manifest ==> p in AllPaths(ManifestsOf(f))
    {
      forall p
        ensures p in g[t].disk <==> Live(g[t].manifest, p)
        ensures p in g[t].disk ==> h(g[t].disk[p]) == g[t].manifest[p].hash
        ensures p in g[t].manifest ==> p in AllPaths(ManifestsOf(f))
      {
        assert CellAt(f, res, g, t, p, DoneIn(plan, t, p));
        EntryMatchesFile(h, f, res, t, p);
        assert Matches(h, f[t]);
        assert p in ManifestsOf(f)[t] ==> p in AllPaths(ManifestsOf(f));
      }
    }
    KeptSane(h, f, g);
  }

  /** Part of a round brings no contents that were not on some drive before. */
  lemma PartKeepsContents(h: Bytes -> Digest, f: Fleet, res: seq<Resolution>, plan: seq<SyncOp>)
    requires Sane(h, f) && CollisionFree(h, f) && PartOf(plan, ManifestsOf(f), res)
    ensures CollisionFree(h, ApplyAll(h, f, plan))
  {
    hide OpFor;
    hide ApplyAll;
    hide Sane;
    hide OnlyPreimage;
    hide PartOf;
    hide DoneIn;
    var g := ApplyAll(h, f, plan);
    PrefixReached(h, f, res, plan, |plan|);
    assert plan[..|plan|] == plan;
    forall t, p | t in g && p in g[t].disk
      ensures OnlyPreimage(h, g[t].disk[p])
    {
      assert CellAt(f, res, g, t, p, DoneIn(plan, t, p));
    }
  }

  /** An operation that would have moved bytes is not among these. */
  ghost predicate BytesMissing(ms: Manifests, res: seq<Resolution>, plan: seq<SyncOp>) {
    exists t, p :: Moves(ms, res, t, p) && OpFor(ms, res, t, p).value !in plan
  }

  /** Part of a round makes the drives agree if and only if it lacks no operation that moves bytes. */
  lemma PartConverges(h: Bytes -> Digest, f: Fleet, res: seq<Resolution>, plan: seq<SyncOp>)
    requires Sane(h, f) && CollisionFree(h, f) && PartOf(plan, ManifestsOf(f), res)
    ensures Converged(ApplyAll(h, f, plan)) <==> !BytesMissing(ManifestsOf(f), res, plan)
  {
    hide OpFor;
    hide Sane;
    hide CollisionFree;
    hide PartOf;
    hide Shared;
    hide ApplyAll;
    hide Moves;
    var ms, g := ManifestsOf(f), ApplyAll(h, f, plan);
    forall t, p | Moves(ms, res, t, p)
      ensures OpFor(ms, res, t, p).Some?
    {
      MovesOp(ms, res, t, p);
    }
    if t, p :| Moves(ms, res, t, p) && OpFor(ms, res, t, p).value !in plan {
      var e := OpposedFiles(h, f, res, t, p);
      PartFile(h, f, res, plan, t, p);
      PartFile(h, f, res, plan, e, p);
      Disagree(g, t, e, p);
    } else {
      forall t, p | t in f
        ensures t in g && Lookup(g[t].disk, p) == Shared(f, res, p)
      {
        PartFile(h, f, res, plan, t, p);
        if OpFor(ms, res, t, p).Some? && !Moves(ms, res, t, p) {
          NothingToMove(h, f, res, t, p);
        }
      }
      SameKeys(h, f, res, plan);
      Agree(f, g, res);
    }
  }

  /** One round without renames, sorted and coalesced, on flat disks makes the drives agree if and only
      if no operation that moves bytes is buried; the disks match their manifests in any case. */
  lemma PlanConverges(h: Bytes -> Digest, f: Fleet, res: seq<Resolution>, r: RenameMap, sorted: seq<SyncOp>)
    requires Sane(h, f) && CollisionFree(h, f)
    requires NoneRenamed(r) && KahnOrdered(Emitted(ManifestsOf(f), res, r), sorted)
    ensures Converged(ApplyAll(h, f, KeepLast(sorted))) <==> !BytesBuried(ManifestsOf(f), res)
    ensures Sane(h, ApplyAll(h, f, KeepLast(sorted)))
  {
    hide *;
    PlanIsUnburied(ManifestsOf(f), res, r, sorted);
    PartIsSane(h, f, res, KeepLast(sorted));
    PartConverges(h, f, res, KeepLast(sorted));
    MissingIsBuried(ManifestsOf(f), res, KeepLast(sorted));
  }

  lemma MissingIsBuried(ms: Manifests, res: seq<Resolution>, plan: seq<SyncOp>)
    requires forall t, p :: OpFor(ms, res, t, p).Some? ==>
      (OpFor(ms, res, t, p).value in plan <==> !Buried(ms, res, t, p))
    ensures BytesMissing(ms, res, plan) <==> BytesBuried(ms, res)
  {
    hide OpFor;
    hide Buried;
    forall t, p | Moves(ms, res, t, p)
      ensures OpFor(ms, res, t, p).Some?
    {
      MovesOp(ms, res, t, p);
    }
  }

  lemma SameKeys(h: Bytes -> Digest, f: Fleet, res: seq<Resolution>, plan: seq<SyncOp>)
    requires Sane(h, f) && PartOf(plan, ManifestsOf(f), res)
    ensures ApplyAll(h, f, plan).Keys == f.Keys
  {
    hide PartOf;
    hide ApplyAll;
    PrefixReached(h, f, res, plan, |plan|);
    assert plan[..|plan|] == plan;
  }

  lemma MovesOp(ms: Manifests, res: seq<Resolution>, t: DriveId, p: Path)
    requires Moves(ms, res, t, p)
    ensures OpFor(ms, res, t, p).Some?
  {
  }

  lemma Disagree(g: Fleet, t: DriveId, e: DriveId, p: Path)
    requires t in g && e in g && Lookup(g[t].disk, p) != Lookup(g[e].disk, p)
    ensures !Converged(g)
  {
    if p in g[t].disk {
      assert !(p in g[e].disk && g[e].disk[p] == g[t].disk[p]);
    }
  }

  lemma Agree(f: Fleet, g: Fleet, res: seq<Resolution>)
    requires g.Keys == f.Keys && forall t, p :: t in f ==> Lookup(g[t].disk, p) == Shared(f, res, p)
    ensures Converged(g)
  {
    hide Shared;
    forall p, d, e | d in g && e in g && p in g[d].disk
      ensures p in g[e].disk && g[e].disk[p] == g[d].disk[p]
    {
      assert Lookup(g[d].disk, p) == Shared(f, res, p) == Lookup(g[e].disk, p);
    }
  }

  // ----- Plans with renames -----------------------------------------------------------------

  /** No operation on a file is followed by another of its drive and path. */
  ghost predicate NoneOutdone(ops: seq<SyncOp>) {
    forall i, j :: 0 <= i < j < |ops| && ops[i].Key() == ops[j].Key() ==> ops[i].kind == MKDIR
  }

  /** Whatever was renamed and whatever is above what: a file operation is dropped if and only if a directory of
      its drive and path is to be made after it. */
  lemma DroppedForDirectory(ms: Manifests, res: seq<Resolution>, r: RenameMap, sorted: seq<SyncOp>, c: nat)
    requires KahnOrdered(Emitted(ms, res, r), sorted) && c < |sorted| && sorted[c].kind != MKDIR
    ensures sorted[c] !in KeepLast(sorted)
      <==> exists b :: c < b < |sorted| && sorted[b].kind == MKDIR && sorted[b].Key() == sorted[c].Key()
  {
    hide Emitted;
    hide KahnReached;
    hide KeepLast;
    var ops := Emitted(ms, res, r);
    var order, reached :| Rearranges(sorted, ops, order) && KahnReached(ops, order, reached);
    DistinctBelow(order, |ops|);
    forall b | 0 <= b < |sorted| && b != c && sorted[b].kind != MKDIR
      ensures sorted[b].Key() != sorted[c].Key()
    {
      var i, j := order[b], order[c];
      assert i != j;
      EmittedFileKeys(ms, res, r, if i < j then i else j, if i < j then j else i);
    }
    OnlyOnce(sorted, c);
  }

  /** What occurs once is kept unless its key comes again. */
  lemma OnlyOnce(sorted: seq<SyncOp>, c: nat)
    requires c < |sorted| && sorted[c].kind != MKDIR
    requires forall b :: 0 <= b < |sorted| && b != c && sorted[b].kind != MKDIR ==> sorted[b].Key() != sorted[c].Key()
    ensures sorted[c] !in KeepLast(sorted)
      <==> exists b :: c < b < |sorted| && sorted[b].kind == MKDIR && sorted[b].Key() == sorted[c].Key()
  {
    hide KeepLast;
    KeepLastIsLast(sorted, sorted[c]);
    var rest, key := sorted[c + 1..], sorted[c].Key();
    if HasKey(rest, key) {
      var i :| 0 <= i < |rest| && rest[i].Key() == key;
      assert sorted[c + 1 + i] == rest[i];
    }
    if b :| c < b < |sorted| && sorted[b].kind == MKDIR && sorted[b].Key() == key {
      assert rest[b - (c + 1)] == sorted[b];
    }
    assert forall i :: 0 <= i < |sorted| && sorted[i] == sorted[c] ==> i == c;
  }

  /** If none is, coalescing keeps what the plan does, with or without renames. */
  lemma {:induction false} CoalescedMeaning(h: Bytes -> Digest, f: Fleet, ops: seq<SyncOp>)
    requires NoneOutdone(ops)
    ensures ApplyAll(h, f, KeepLast(ops)) == ApplyAll(h, f, ops)
    decreases |ops|
  {
    hide Applied;
    hide ApplyAll;
    hide KeepLast;
    hide HasKey;
    KeepLastHead(ops);
    if ops != [] {
      var op, rest := ops[0], ops[1..];
      assert [] + [op] == [op] && ops == [op] + rest;
      ApplyLast(h, f, [], op);
      ApplyNone(h, f);
      ApplySplit(h, f, [op], rest);
      CoalescedMeaning(h, Applied(h, f, op), rest);
      if HasKey(rest, op.Key()) {
        OutdoneIsDir(ops);
        DirChangesNothing(h, f, op);
      } else {
        ApplySplit(h, f, [op], KeepLast(rest));
      }
    }
  }

  lemma KeepLastHead(ops: seq<SyncOp>)
    ensures ops == [] ==> KeepLast(ops) == []
    ensures ops != [] && HasKey(ops[1..], ops[0].Key()) ==> KeepLast(ops) == KeepLast(ops[1..])
    ensures ops != [] && !HasKey(ops[1..], ops[0].Key()) ==> KeepLast(ops) == [ops[0]] + KeepLast(ops[1..])
  {
    hide HasKey;
  }

  lemma ApplyNone(h: Bytes -> Digest, f: Fleet)
    ensures ApplyAll(h, f, []) == f
  {
  }

  lemma OutdoneIsDir(ops: seq<SyncOp>)
    requires NoneOutdone(ops) && ops != [] && HasKey(ops[1..], ops[0].Key())
    ensures ops[0].kind == MKDIR
  {
    var i :| 0 <= i < |ops[1..]| && ops[1..][i].Key() == ops[0].Key();
    assert ops[i + 1] == ops[1..][i];
  }

  // ----- Trees of live paths ----------------------------------------------------------------

  /** Where no live path is above another, nothing is buried. */
  lemma LiveTreeBuriesNothing(ms: Manifests, res: seq<Resolution>)
    requires LiveTree(ms)
    ensures NothingBuried(ms, res)
  {
    hide OpFor;
    hide LivePaths;
    forall t, d, p
      ensures !Buries(ms, res, t, d, p)
    {
      if OpFor(ms, res, t, d).Some? && OpFor(ms, res, t, p).Some? {
        PlannedLive(ms, res, t, d);
        PlannedLive(ms, res, t, p);
      }
    }
  }

  lemma FileIsLive(h: Bytes -> Digest, f: Fleet, res: seq<Resolution>, t: DriveId, p: Path)
    requires Sane(h, f) && t in f
    ensures p in f[t].disk || FileAfter(f, res, t, p).Some? ==> p in LivePaths(ManifestsOf(f))
  {
    hide OpFor;
    var ms := ManifestsOf(f);
    var op := OpFor(ms, res, t, p);
    assert Matches(h, f[t]);
    assert Live(ms[t], p) ==> p in LivePaths(ms);
    if op.Some? {
      OpForFacts(ms, res, t, p);
      if op.value.kind != REMOVE {
        assert Live(ms[op.value.source], p);
      }
    }
  }

  /** Where no live path is above another, no drive ever holds a file above another file during a
      round, in whatever order it is carried out. */
  lemma DisksStayTrees(
    h: Bytes -> Digest, f: Fleet, res: seq<Resolution>, plan: seq<SyncOp>, k: nat, t: DriveId, p: Path, q: Path)
    requires Sane(h, f) && LiveTree(ManifestsOf(f)) && PartOf(plan, ManifestsOf(f), res) && k <= |plan|
    requires t in f && t in ApplyAll(h, f, plan[..k])
    requires p in ApplyAll(h, f, plan[..k])[t].disk && q in ApplyAll(h, f, plan[..k])[t].disk
    ensures p !in AncestorDirs(q)
  {
    hide OpFor;
    hide ApplyAll;
    hide EntryAfter;
    hide FileAfter;
    hide DoneIn;
    hide LivePaths;
    hide Sane;
    hide PartOf;
    PrefixReached(h, f, res, plan, k);
    var g := ApplyAll(h, f, plan[..k]);
    assert CellAt(f, res, g, t, p, DoneIn(plan[..k], t, p)) && CellAt(f, res, g, t, q, DoneIn(plan[..k], t, q));
    FileIsLive(h, f, res, t, p);
    FileIsLive(h, f, res, t, q);
  }

  // ----- Any plan -------------------------------------------------------------------------------

  lemma PlanParts(ms: Manifests, res: seq<Resolution>, plan: seq<SyncOp>) returns (r: RenameMap, sorted: seq<SyncOp>)
    requires IsPlanOf(ms, res, plan)
    ensures Sound(ms, r) && forall s, t :: Covers(ms, r, s, t)
    ensures KahnOrdered(Emitted(ms, res, r), sorted) && plan == KeepLast(sorted)
  {
    hide Sound;
    hide Covers;
    hide Emitted;
    hide KahnOrdered;
    hide KeepLast;
    r, sorted :| PlanFrom(ms, res, r, sorted, plan);
  }

  lemma SortedPlace(ops: seq<SyncOp>, sorted: seq<SyncOp>, op: SyncOp) returns (i: nat)
    requires KahnOrdered(ops, sorted) && op in sorted
    ensures i < |ops| && ops[i] == op
  {
    var k :| 0 <= k < |sorted| && sorted[k] == op;
    var order, reached :| Rearranges(sorted, ops, order) && KahnReached(ops, order, reached);
    i := order[k];
  }

  lemma NothingDetected(ms: Manifests, r: RenameMap)
    requires Sound(ms, r) && NoRenames(ms)
    ensures NoneRenamed(r)
  {
    hide IsRename;
  }

  /** What is known of any plan for drives in which nothing was renamed. */
  lemma CalmPlan(h: Bytes -> Digest, f: Fleet, res: seq<Resolution>, plan: seq<SyncOp>)
    requires IsPlanOf(ManifestsOf(f), res, plan) && NoRenames(ManifestsOf(f)) && Sane(h, f) && CollisionFree(h, f)
    ensures PartOf(plan, ManifestsOf(f), res)
    ensures CarriesOut(plan, ManifestsOf(f), res) <==> NothingBuried(ManifestsOf(f), res)
    ensures Sane(h, ApplyAll(h, f, plan))
    ensures Converged(ApplyAll(h, f, plan)) <==> !BytesBuried(ManifestsOf(f), res)
  {
    hide *;
    var r, sorted := PlanParts(ManifestsOf(f), res, plan);
    NothingDetected(ManifestsOf(f), r);
    PlanIsUnburied(ManifestsOf(f), res, r, sorted);
    PlanKeepsMeaning(h, f, res, r, sorted);
    PlanConverges(h, f, res, r, sorted);
  }

  // ----- A file that has become a directory --------------------------------------------------

  const TOMB_A: Meta := BLANK.(vv := map["A" := 1], tombstone := true)

  /** On "A" the file "a" was deleted and "a/b" created; "B" still has the file "a". */
  function BecameDir(h: Bytes -> Digest, x: Bytes, y: Bytes): Fleet {
    map["A" := Replica(map["a/b" := x], map["a" := TOMB_A, "a/b" := BLANK.(hash := h(x))]),
        "B" := Replica(map["a" := y], map["a" := BLANK.(hash := h(y))])]
  }

  lemma BecameDirManifests(h: Bytes -> Digest, x: Bytes, y: Bytes)
    ensures var ms := ManifestsOf(BecameDir(h, x, y));
      && ms.Keys == {"A", "B"} && ms["A"].Keys == {"a", "a/b"} && ms["B"].Keys == {"a"}
      && ms["A"]["a"] == TOMB_A && Live(ms["A"], "a/b") && Live(ms["B"], "a")
      && ms["B"]["a"].vv == map[] && AllPaths(ms) == {"a", "a/b"}
      && ms["A"]["a/b"].hash == h(x) && ms["B"]["a"].hash == h(y)
  {
    var f := BecameDir(h, x, y);
    assert "A" in f && "B" in f;
    var ms := ManifestsOf(f);
    assert ms["A"] == f["A"].manifest && ms["B"] == f["B"].manifest;
  }

  lemma BecameDirCalm(h: Bytes -> Digest, x: Bytes, y: Bytes)
    requires h(x) != h(y)
    ensures var ms := ManifestsOf(BecameDir(h, x, y));
      NoRenames(ms) && forall p :: !InConflict(Versions(ms, p))
  {
    hide BecameDir;
    hide ManifestsOf;
    BecameDirManifests(h, x, y);
    var ms := ManifestsOf(BecameDir(h, x, y));
    forall p
      ensures !InConflict(Versions(ms, p))
    {
      var v := Versions(ms, p);
      if p == "a" {
        assert v["A"] == TOMB_A && v["B"].vv == map[] && !v["B"].tombstone;
        assert Ahead(v["A"].vv, v["B"].vv) by { assert Clock(v["A"].vv, "A") > Clock(v["B"].vv, "A"); }
        assert !Ahead(v["B"].vv, v["A"].vv);
        assert forall d :: d in v ==> d == "A" || d == "B";
      } else {
        assert forall d :: d in v ==> d == "A";
      }
    }
  }

  lemma BecameDirSource(h: Bytes -> Digest, x: Bytes, y: Bytes)
    ensures var ms := ManifestsOf(BecameDir(h, x, y));
      && SourceOf(ms, [], "a") == Some("A") && SourceOf(ms, [], "a/b") == Some("A")
      && !Quorum(ms, "a") && !Quorum(ms, "a/b")
  {
    hide BecameDir;
    hide ManifestsOf;
    hide Quorum;
    hide SourceOf;
    hide AllPaths;
    BecameDirManifests(h, x, y);
    var ms := ManifestsOf(BecameDir(h, x, y));
    NewerOnA(ms, "a");
    NewerOnA(ms, "a/b");
  }

  /** Of two drives, "A" knows more about the path, and one at the most has deleted it. */
  lemma NewerOnA(ms: Manifests, p: Path)
    requires ms.Keys == {"A", "B"} && p in ms["A"]
    requires p in ms["B"] ==> ms["A"][p].vv == map["A" := 1] && ms["B"][p].vv == map[]
    requires !(ms["A"][p].tombstone && p in ms["B"] && ms["B"][p].tombstone)
    ensures SourceOf(ms, [], p) == Some("A") && !Quorum(ms, p)
  {
    hide SourceOf;
    hide Quorum;
    var v := Versions(ms, p);
    assert v.Keys <= {"A", "B"} && "A" in v;
    assert forall d :: d in v ==> d == "A" || d == "B";
    LeqReflexive(v["A"].vv);
    if p in ms["B"] {
      assert Clock(v["A"].vv, "A") == 1 && Clock(v["B"].vv, "A") == 0;
    }
    OnlySupreme(ms, p, "A");
    FewTombstones(ms, p);
  }

  lemma FewTombstones(ms: Manifests, p: Path)
    requires ms.Keys == {"A", "B"} && !(p in ms["A"] && ms["A"][p].tombstone && p in ms["B"] && ms["B"][p].tombstone)
    ensures !Quorum(ms, p)
  {
    hide Quorum;
    QuorumIsMajority(ms, p);
    assert |ms| == |ms.Keys| == 2;
    var tombs := TombstonedOn(ms, p);
    if "A" in tombs {
      assert tombs == {"A"};
    } else {
      assert tombs <= {"B"};
      assert tombs == {} || tombs == {"B"};
    }
  }

  lemma OnlySupreme(ms: Manifests, p: Path, c: DriveId)
    requires Supreme(Versions(ms, p), c) && forall d :: Supreme(Versions(ms, p), d) ==> d == c
    ensures SourceOf(ms, [], p) == Some(c)
  {
    hide Leq;
    DominantPrefix(ms, Ids(ms), p);
    assert c in Ids(ms);
  }

  lemma BecameDirOps(h: Bytes -> Digest, x: Bytes, y: Bytes)
    ensures var ms := ManifestsOf(BecameDir(h, x, y));
      && OpFor(ms, [], "B", "a").Some? && OpFor(ms, [], "B", "a").value.kind == REMOVE
      && Buries(ms, [], "B", "a", "a/b") && Moves(ms, [], "B", "a")
  {
    hide BecameDir;
    hide ManifestsOf;
    hide Quorum;
    hide SourceOf;
    hide JoinAt;
    hide Tombstones;
    BecameDirManifests(h, x, y);
    BecameDirSource(h, x, y);
    AboveAB();
  }

  lemma AboveAB()
    ensures "a" in AncestorDirs("a/b")
  {
    assert "a/b"[..2] == "a/" && "a/b"[..1] == "a";
    assert ParentDir("a/b") == "a";
  }

  /** No conflict, no rename, disks that match: and no plan makes the drives agree. The removal of the
      file "a" is dropped for the sake of the directory "a". */
  lemma BecameDirDiverges(h: Bytes -> Digest, x: Bytes, y: Bytes, plan: seq<SyncOp>)
    requires h(x) != h(y) && OnlyPreimage(h, x) && OnlyPreimage(h, y)
    ensures Sane(h, BecameDir(h, x, y)) && CollisionFree(h, BecameDir(h, x, y))
    ensures IsPlanOf(ManifestsOf(BecameDir(h, x, y)), [], plan) ==> !Converged(ApplyAll(h, BecameDir(h, x, y), plan))
  {
    hide Sane;
    hide CollisionFree;
    hide Converged;
    hide KahnOrdered;
    hide KeepLast;
    hide Emitted;
    hide ApplyAll;
    hide OpFor;
    hide Buries;
    hide Moves;
    hide NoRenames;
    hide Covers;
    hide Sound;
    var f := BecameDir(h, x, y);
    var ms := ManifestsOf(f);
    BecameDirFits(h, x, y);
    if IsPlanOf(ms, [], plan) {
      var r, sorted :| PlanFrom(ms, [], r, sorted, plan);
      BecameDirCalm(h, x, y);
      BecameDirOps(h, x, y);
      NothingDetected(ms, r);
      assert Buried(ms, [], "B", "a");
      PlanConverges(h, f, [], r, sorted);
    }
  }

  lemma BecameDirFits(h: Bytes -> Digest, x: Bytes, y: Bytes)
    requires OnlyPreimage(h, x) && OnlyPreimage(h, y)
    ensures Sane(h, BecameDir(h, x, y)) && CollisionFree(h, BecameDir(h, x, y))
  {
    hide OnlyPreimage;
    hide ManifestsOf;
    hide AllPaths;
    BecameDirManifests(h, x, y);
    var f := BecameDir(h, x, y);
    assert f.Keys == {"A", "B"};
    assert Matches(h, f["A"]) && Matches(h, f["B"]);
  }
}
