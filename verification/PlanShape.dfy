/** The shape of a plan: what is emitted and in which order, what sorting makes of it, and what
    coalescing leaves. */
module PlanShape {
  import opened Base
  import opened SyncOps
  import opened Drives
  import opened ConflictResolver
  import opened RenameDetection
  import opened PlanRules
  import opened PlanOrder
  import opened SyncPlanner
  import opened Directories
  import opened PlanProperties

  /** `places` are the positions in `whole` that `part` keeps, in order. */
  ghost predicate Keeps(whole: seq<SyncOp>, part: seq<SyncOp>, places: seq<nat>) {
    && |places| == |part|
    && (forall k :: 0 <= k < |places| ==> places[k] < |whole| && part[k] == whole[places[k]])
    && (forall k, l :: 0 <= k < l < |places| ==> places[k] < places[l])
  }

  // ----- The order of the emission ----------------------------------------------------------

  /** Renames before the rest, by target and old name; the rest by path and target. */
  ghost predicate Precedes(x: SyncOp, y: SyncOp) {
    if x.kind == RENAME && y.kind == RENAME then Less(x.target, y.target) || (x.target == y.target && Less(x.path, y.path))
    else if x.kind != RENAME && y.kind != RENAME then Less(x.path, y.path) || (x.path == y.path && Less(x.target, y.target))
    else x.kind == RENAME
  }

  ghost predicate InPlace(ops: seq<SyncOp>) {
    forall i, j :: 0 <= i < j < |ops| ==> Precedes(ops[i], ops[j])
  }

  lemma InPlaceTogether(a: seq<SyncOp>, b: seq<SyncOp>)
    requires InPlace(a) && InPlace(b) && forall x, y :: x in a && y in b ==> Precedes(x, y)
    ensures InPlace(a + b)
  {
    hide Precedes;
    var c := a + b;
    forall i, j | 0 <= i < j < |c|
      ensures Precedes(c[i], c[j])
    {
      if i < |a| <= j {
        assert c[i] in a && c[j] in b;
      }
    }
  }

  lemma LastOfSorted(s: seq<string>, front: seq<string>, last: string)
    requires StrictlySorted(s) && s != [] && front == s[..|s| - 1] && last == s[|s| - 1]
    ensures StrictlySorted(front) && forall x :: x in front ==> Less(x, last)
    ensures forall x :: x in s <==> x in front || x == last
  {
    forall x | x in front
      ensures Less(x, last)
    {
      var k :| 0 <= k < |front| && front[k] == x;
      assert s[k] == x;
    }
  }

  lemma {:induction false} RowInPlace(ms: Manifests, res: seq<Resolution>, handled: Handled, ids: seq<DriveId>, p: Path)
    requires StrictlySorted(ids)
    ensures InPlace(RowOps(ms, res, handled, ids, p))
    ensures forall x :: x in RowOps(ms, res, handled, ids, p) ==> x.target in ids && x.path == p && x.kind != RENAME
  {
    hide OpFor;
    hide InPlace;
    if ids == [] {
      NothingInPlace();
    } else {
      var front, t := ids[..|ids| - 1], ids[|ids| - 1];
      LastOfSorted(ids, front, t);
      RowInPlace(ms, res, handled, front, p);
      OpForShape(ms, res, t, p);
      OneInPlace(OneOp(ms, res, handled, t, p));
      InPlaceTogether(RowOps(ms, res, handled, front, p), OneOp(ms, res, handled, t, p));
    }
  }

  lemma NothingInPlace()
    ensures InPlace([])
  {
  }

  lemma OneInPlace(ops: seq<SyncOp>)
    requires |ops| <= 1
    ensures InPlace(ops)
  {
  }

  lemma {:induction false} FilesInPlace(ms: Manifests, res: seq<Resolution>, handled: Handled, paths: seq<Path>)
    requires StrictlySorted(paths)
    ensures InPlace(FileOps(ms, res, handled, paths))
    ensures forall x :: x in FileOps(ms, res, handled, paths) ==> x.path in paths && x.kind != RENAME
  {
    hide RowOps;
    hide InPlace;
    if paths == [] {
      NothingInPlace();
    } else {
      var front, p := paths[..|paths| - 1], paths[|paths| - 1];
      LastOfSorted(paths, front, p);
      FilesInPlace(ms, res, handled, front);
      RowInPlace(ms, res, handled, Ids(ms), p);
      InPlaceTogether(FileOps(ms, res, handled, front), RowOps(ms, res, handled, Ids(ms), p));
    }
  }

  lemma {:induction false} RenameRowInPlace(ms: Manifests, t: DriveId, names: map<Path, Path>, olds: seq<Path>)
    requires StrictlySorted(olds) && forall p :: p in olds ==> p in names
    ensures InPlace(RenameRow(ms, t, names, olds))
    ensures forall x :: x in RenameRow(ms, t, names, olds) ==> x.kind == RENAME && x.target == t && x.path in olds
  {
    hide InPlace;
    hide MergedTwo;
    if olds == [] {
      NothingInPlace();
    } else {
      var front, p := olds[..|olds| - 1], olds[|olds| - 1];
      LastOfSorted(olds, front, p);
      RenameRowInPlace(ms, t, names, front);
      OneInPlace(RenameOps(ms, t, p, names[p]));
      InPlaceTogether(RenameRow(ms, t, names, front), RenameOps(ms, t, p, names[p]));
    }
  }

  lemma {:induction false} RenamesInPlace(ms: Manifests, r: RenameMap, ts: seq<DriveId>)
    requires StrictlySorted(ts) && forall t :: t in ts ==> t in r
    ensures InPlace(RenameAll(ms, r, ts))
    ensures forall x :: x in RenameAll(ms, r, ts) ==> x.kind == RENAME && x.target in ts
  {
    hide RenameRow;
    hide InPlace;
    if ts == [] {
      NothingInPlace();
    } else {
      var front, t := ts[..|ts| - 1], ts[|ts| - 1];
      LastOfSorted(ts, front, t);
      RenamesInPlace(ms, r, front);
      RenameRowInPlace(ms, t, r[t], Sorted(r[t].Keys));
      InPlaceTogether(RenameAll(ms, r, front), RenameRow(ms, t, r[t], Sorted(r[t].Keys)));
    }
  }

  /** Some rename works on the path under its old or its new name. */
  ghost predicate RenameTouches(ops: seq<SyncOp>, t: DriveId, p: Path) {
    exists y: SyncOp :: y in ops && y.kind == RENAME && y.target == t && (y.path == p || y.newPath == Some(p))
  }

  /** What is emitted, directories aside: first the renames, by target and old name, then the other
      operations, by path and target. An operation that is called for is emitted unless a rename works on
      its drive and path. */
  lemma EmissionOrder(ms: Manifests, res: seq<Resolution>, r: RenameMap)
    ensures InPlace(Emission(ms, res, r))
    ensures forall x: SyncOp :: x.kind != RENAME ==>
      (x in Emission(ms, res, r)
       <==> x.path in AllPaths(ms) && OpFor(ms, res, x.target, x.path) == Some(x)
            && !RenameTouches(Emission(ms, res, r), x.target, x.path))
  {
    hide OpFor;
    hide InPlace;
    hide RenameAll;
    hide FileOps;
    hide HandledBy;
    var renames := RenameAll(ms, r, Sorted(r.Keys));
    var handled := HandledBy(renames);
    var files := FileOps(ms, res, handled, Sorted(AllPaths(ms)));
    RenamesInPlace(ms, r, Sorted(r.Keys));
    FilesInPlace(ms, res, handled, Sorted(AllPaths(ms)));
    InPlaceTogether(renames, files);
    FileMembers(ms, res, handled, Sorted(AllPaths(ms)));
    forall x: SyncOp
      ensures x.Key() in handled <==> RenameTouches(renames + files, x.target, x.path)
    {
      HandledMeans(renames, files, x.target, x.path);
    }
  }

  lemma HandledMeans(renames: seq<SyncOp>, files: seq<SyncOp>, t: DriveId, p: Path)
    requires forall x :: x in renames ==> x.kind == RENAME
    requires forall x :: x in files ==> x.kind != RENAME
    ensures (t, p) in HandledBy(renames) <==> RenameTouches(renames + files, t, p)
  {
    if RenameTouches(renames + files, t, p) {
      var y: SyncOp :| y in renames + files && y.kind == RENAME && y.target == t && (y.path == p || y.newPath == Some(p));
      var i :| 0 <= i < |renames| && renames[i] == y;
    }
  }

  // ----- Directories ------------------------------------------------------------------------

  /** `op` brings a file to a path on drive `t` that has the directory `d` above it. */
  ghost predicate Wants(op: SyncOp, t: DriveId, d: Path) {
    && op.target == t && d != ""
    && ((op.kind == COPY && Above(d, op.path)) || (op.kind == RENAME && op.newPath.Some? && Above(d, op.newPath.value)))
  }

  /** `d` is a beginning of `p` before a slash. */
  ghost predicate Above(d: Path, p: Path) {
    |d| < |p| && p[..|d|] == d && p[|d|] == '/'
  }

  lemma WantsIs(op: SyncOp, d: Path)
    ensures d in DestinationDirs(op) <==> Wants(op, op.target, d)
  {
    hide AncestorDirs;
    if Destination(op).Some? {
      AncestorsExactly(Destination(op).value, d);
    }
  }

  /** A directory stands where it is first wanted: it has not been made before, the next operation that is no
      directory wants it, and of several such the longest comes first. */
  ghost predicate WellPlaced(ops: seq<SyncOp>) {
    forall i :: 0 <= i < |ops| && ops[i].kind == MKDIR ==>
      && ops[i] == SyncOp(MKDIR, "", ops[i].target, ops[i].path, None, map[]) && ops[i] !in ops[..i]
      && exists j :: i < j < |ops| && Wants(ops[j], ops[i].target, ops[i].path) && DirsBetween(ops, i, j)
  }

  /** Only directories stand from `i` up to `j`, each shorter than the one at `i`. */
  ghost predicate DirsBetween(ops: seq<SyncOp>, i: nat, j: nat)
    requires i < j < |ops|
  {
    forall k :: i < k < j ==> ops[k].kind == MKDIR && |ops[k].path| < |ops[i].path|
  }

  ghost predicate EachServed(ops: seq<SyncOp>) {
    forall j, d :: 0 <= j < |ops| && Wants(ops[j], ops[j].target, d) ==>
      SyncOp(MKDIR, "", ops[j].target, d, None, map[]) in ops[..j]
  }

  ghost predicate Shortening(ops: seq<SyncOp>, n: nat)
    requires n <= |ops|
  {
    forall i, j :: n <= i < j < |ops| ==> |ops[j].path| < |ops[i].path|
  }

  lemma {:induction false} AddedShorten(ops: seq<SyncOp>, t: DriveId, dirs: seq<Path>)
    requires forall i, j :: 0 <= i < j < |dirs| ==> |dirs[i]| > |dirs[j]|
    ensures |ops| <= |AddDirs(ops, t, dirs)| && Shortening(AddDirs(ops, t, dirs), |ops|)
    ensures forall i :: |ops| <= i < |AddDirs(ops, t, dirs)| ==> AddDirs(ops, t, dirs)[i].path in dirs
  {
    if dirs != [] {
      var front, d := dirs[..|dirs| - 1], dirs[|dirs| - 1];
      AddedShorten(ops, t, front);
      var before := AddDirs(ops, t, front);
      forall i | |ops| <= i < |before|
        ensures before[i].path in dirs && |d| < |before[i].path|
      {
        var k :| 0 <= k < |front| && front[k] == before[i].path;
        assert dirs[k] == front[k];
      }
    }
  }

  /** A list of operations is emitted with the directories it wants: the list itself, in its order, and each
      directory once, where it is first wanted. */
  lemma {:induction false} DirectoriesMeans(files: seq<SyncOp>) returns (places: seq<nat>)
    requires FilesOnly(files)
    ensures var ops := WithDirs(files);
      && Keeps(ops, files, places) && (forall i: nat :: i in places <==> i < |ops| && ops[i].kind != MKDIR)
      && WellPlaced(ops) && EachServed(ops)
  {
    hide WithDirs;
    hide DirsNeeded;
    hide DirsServed;
    hide WellPlaced;
    hide EachServed;
    WithDirsFacts(files);
    var ops := WithDirs(files);
    places := FilePlaces(ops);
    AllServed(ops);
    AllPlaced(files);
  }

  lemma {:induction false} FilePlaces(ops: seq<SyncOp>) returns (places: seq<nat>)
    ensures Keeps(ops, NonDirs(ops), places) && forall i: nat :: i in places <==> i < |ops| && ops[i].kind != MKDIR
  {
    hide Keeps;
    places := [];
    if ops == [] {
      KeepsNothing();
    } else {
      var front := ops[..|ops| - 1];
      var before := FilePlaces(front);
      KeepsInFront(ops, NonDirs(front), before);
      places := if ops[|ops| - 1].kind == MKDIR then before else before + [|ops| - 1];
      assert NonDirs(front) + [] == NonDirs(front);
      OneMorePlace(before, |ops| - 1);
    }
  }

  lemma KeepsNothing()
    ensures Keeps([], [], [])
  {
  }

  lemma KeepsInFront(ops: seq<SyncOp>, part: seq<SyncOp>, places: seq<nat>)
    requires ops != [] && Keeps(ops[..|ops| - 1], part, places)
    ensures Keeps(ops, part, places) && Keeps(ops, part + [ops[|ops| - 1]], places + [|ops| - 1])
    ensures forall i :: i in places ==> i < |ops| - 1
  {
  }

  lemma OneMorePlace(places: seq<nat>, n: nat)
    ensures forall i: nat :: i in places + [n] <==> i in places || i == n
  {
  }

  lemma AllServed(ops: seq<SyncOp>)
    requires DirsServed(ops)
    ensures EachServed(ops)
  {
    forall j, d | 0 <= j < |ops| && Wants(ops[j], ops[j].target, d)
      ensures SyncOp(MKDIR, "", ops[j].target, d, None, map[]) in ops[..j]
    {
      WantsIs(ops[j], d);
      assert MkDir(ops[j].target, d) in ops[..j];
    }
  }

  lemma {:induction false} AllPlaced(files: seq<SyncOp>)
    requires FilesOnly(files)
    ensures WellPlaced(WithDirs(files))
  {
    hide AddDirs;
    hide WellPlaced;
    hide DestinationDirs;
    if files == [] {
      NothingPlaced();
    } else {
      var front, op := files[..|files| - 1], files[|files| - 1];
      AllPlaced(front);
      var ops := WithDirs(front);
      var longer := AddDirs(ops, op.target, DestinationDirs(op));
      AddDirsExtends(ops, op.target, DestinationDirs(op));
      DestinationShortens(op);
      AddedShorten(ops, op.target, DestinationDirs(op));
      PlacedOne(ops, longer, op);
    }
  }

  lemma NothingPlaced()
    ensures WellPlaced([])
  {
  }

  lemma DestinationShortens(op: SyncOp)
    ensures forall i, j :: 0 <= i < j < |DestinationDirs(op)| ==> |DestinationDirs(op)[i]| > |DestinationDirs(op)[j]|
  {
    if Destination(op).Some? {
      AncestorsShorten(Destination(op).value);
    }
  }

  lemma AllBetween(longer: seq<SyncOp>, n: nat, op: SyncOp, i: nat)
    requires n <= i < |longer| && Shortening(longer, n)
    requires forall k :: n <= k < |longer| ==> longer[k].kind == MKDIR
    ensures DirsBetween(longer + [op], i, |longer|)
  {
  }

  lemma PlacedOne(ops: seq<SyncOp>, longer: seq<SyncOp>, op: SyncOp)
    requires WellPlaced(ops) && Extends(ops, op.target, DestinationDirs(op), longer) && op.kind != MKDIR
    requires Shortening(longer, |ops|)
    ensures WellPlaced(longer + [op])
  {
    hide DestinationDirs;
    hide Wants;
    hide Shortening;
    var all := longer + [op];
    forall k | |ops| <= k < |longer|
      ensures longer[k].kind == MKDIR
    {
      assert NewDir(longer, k, op.target, DestinationDirs(op));
    }
    forall i | 0 <= i < |all| && all[i].kind == MKDIR
      ensures all[i] == SyncOp(MKDIR, "", all[i].target, all[i].path, None, map[]) && all[i] !in all[..i]
      ensures exists j :: i < j < |all| && Wants(all[j], all[i].target, all[i].path) && DirsBetween(all, i, j)
    {
      assert all[..i] == longer[..i] && all[i] == longer[i];
      if i < |ops| {
        assert longer[..i] == longer[..|ops|][..i] == ops[..i];
        assert forall k :: 0 <= k < |ops| ==> all[k] == longer[..|ops|][k] == ops[k];
        var j :| i < j < |ops| && Wants(ops[j], ops[i].target, ops[i].path) && DirsBetween(ops, i, j);
        assert DirsBetween(all, i, j);
      } else {
        assert NewDir(longer, i, op.target, DestinationDirs(op));
        WantsIs(op, all[i].path);
        AllBetween(longer, |ops|, op, i);
        assert all[|longer|] == op;
      }
    }
  }

  // ----- Sorting ----------------------------------------------------------------------------

  /** On one drive `x` must come before `y`: a directory before what lies below it, a rename before what works on
      its new name, a copy or a replacement before a removal of the same path. */
  ghost predicate Must(x: SyncOp, y: SyncOp) {
    && x.target == y.target
    && match x.kind
       case MKDIR => |y.path| > |x.path| + 1 && y.path[..|x.path|] == x.path && y.path[|x.path|] == '/'
       case RENAME => x.newPath == Some(y.path)
       case REMOVE => false
       case _ => y.kind == REMOVE && y.path == x.path
  }

  lemma EdgeMeans(ops: seq<SyncOp>, i: nat, j: nat)
    requires i < |ops| && j < |ops|
    ensures Edge(ops, i, j) <==> i != j && Must(ops[i], ops[j])
  {
  }

  /** When the first `r` operations in `order` have been taken, the one at place `b` has nothing left to wait for;
      the last of them was what it had been waiting for, if it had been waiting. */
  ghost predicate Free(ops: seq<SyncOp>, order: seq<nat>, b: nat, r: nat)
    requires b < |order| && forall k :: 0 <= k < |order| ==> order[k] < |ops|
  {
    && r <= b
    && (forall i: nat :: i < |ops| && i != order[b] && Must(ops[i], ops[order[b]]) ==> i in order[..r])
    && (r > 0 ==> order[r - 1] != order[b] && Must(ops[order[r - 1]], ops[order[b]]))
  }

  /** Some operation among the last ones, from place `n` on, has to come before the one at place `b`. */
  ghost predicate Stuck(ops: seq<SyncOp>, order: seq<nat>, n: nat, b: nat)
    requires n <= b < |order| && forall k :: 0 <= k < |order| ==> order[k] < |ops|
  {
    exists a :: n <= a < |order| && a != b && Must(ops[order[a]], ops[order[b]])
  }

  /** A sorted plan holds every operation once. First come those that get free, in the order in which they do, and
      those that get free together in their old order; then, in their old order, those that never do. */
  lemma SortMeans(ops: seq<SyncOp>, sorted: seq<SyncOp>) returns (order: seq<nat>, reached: nat, times: seq<nat>)
    requires KahnOrdered(ops, sorted)
    ensures |order| == |sorted| == |ops| && |times| == reached <= |ops|
    ensures forall k :: 0 <= k < |ops| ==> order[k] < |ops| && sorted[k] == ops[order[k]]
    ensures forall k, l :: 0 <= k < l < |ops| ==> order[k] != order[l]
    ensures forall b :: 0 <= b < reached ==> Free(ops, order, b, times[b])
    ensures forall a, b :: 0 <= a < b < reached ==> times[a] < times[b] || (times[a] == times[b] && order[a] < order[b])
    ensures forall b :: reached <= b < |ops| ==> Stuck(ops, order, reached, b)
    ensures forall a, b :: reached <= a < b < |ops| ==> order[a] < order[b]
  {
    hide Must;
    hide EdgesLeadForward;
    hide Acyclic;
    hide Timed;
    hide Exhausted;
    hide Ascending;
    hide Rearranges;
    order, reached :| Rearranges(sorted, ops, order) && KahnReached(ops, order, reached);
    times :| Timed(ops, order[..reached], times);
    RearrangesMeans(sorted, ops, order);
    TimedMeans(ops, order, reached, times);
    forall b | reached <= b < |ops|
      ensures Stuck(ops, order, reached, b)
    {
      NeverFree(ops, order, reached, b);
    }
    LastAscend(order, reached);
  }

  lemma LastAscend(order: seq<nat>, n: nat)
    requires n <= |order| && Ascending(order[n..])
    ensures forall a, b :: n <= a < b < |order| ==> order[a] < order[b]
  {
    forall a, b | n <= a < b < |order|
      ensures order[a] < order[b]
    {
      assert order[n..][a - n] < order[n..][b - n];
    }
  }

  lemma RearrangesMeans(sorted: seq<SyncOp>, ops: seq<SyncOp>, order: seq<nat>)
    requires Rearranges(sorted, ops, order)
    ensures |order| == |sorted| == |ops|
    ensures forall k :: 0 <= k < |ops| ==> order[k] < |ops| && sorted[k] == ops[order[k]]
    ensures forall k, l :: 0 <= k < l < |ops| ==> order[k] != order[l]
  {
  }

  lemma TimedMeans(ops: seq<SyncOp>, order: seq<nat>, n: nat, times: seq<nat>)
    requires n <= |order| && (forall k :: 0 <= k < |order| ==> order[k] < |ops|)
    requires forall k, l :: 0 <= k < l < |order| ==> order[k] != order[l]
    requires Timed(ops, order[..n], times) && EdgesLeadForward(ops, order[..n])
    ensures |times| == n && forall b :: 0 <= b < n ==> Free(ops, order, b, times[b])
    ensures forall a, b :: 0 <= a < b < n ==> times[a] < times[b] || (times[a] == times[b] && order[a] < order[b])
  {
    hide Must;
    hide Edge;
    hide Preds;
    var queue := order[..n];
    forall b | 0 <= b < n
      ensures Free(ops, order, b, times[b])
    {
      assert ReadyAt(ops, queue, times[b], queue[b]);
      assert queue[b] == order[b];
      FreeAt(ops, order, n, b, times[b]);
    }
    forall a, b | 0 <= a < b < n
      ensures times[a] < times[b] || (times[a] == times[b] && order[a] < order[b])
    {
      assert queue[a] == order[a] && queue[b] == order[b];
    }
  }

  lemma FreeAt(ops: seq<SyncOp>, order: seq<nat>, n: nat, b: nat, r: nat)
    requires b < n <= |order| && (forall k :: 0 <= k < |order| ==> order[k] < |ops|)
    requires forall k, l :: 0 <= k < l < |order| ==> order[k] != order[l]
    requires ReadyAt(ops, order[..n], r, order[b]) && EdgesLeadForward(ops, order[..n])
    ensures Free(ops, order, b, r)
  {
    hide Must;
    hide Edge;
    var queue := order[..n];
    PredsMember(ops, order[b]);
    assert queue[..r] == order[..r];
    forall i: nat | i < |ops| && i != order[b] && Must(ops[i], ops[order[b]])
      ensures i in order[..r]
    {
      EdgeMeans(ops, i, order[b]);
      assert i in Elements(queue[..r]);
    }
    if r > 0 {
      var last := queue[r - 1];
      EdgeMeans(ops, last, order[b]);
      assert queue[b] == order[b] && last in queue[..b];
      var k :| 0 <= k < b && queue[..b][k] == last;
      assert k == r - 1;
    }
  }

  lemma NeverFree(ops: seq<SyncOp>, order: seq<nat>, n: nat, b: nat)
    requires IsPermutation(order, |ops|) && n <= b < |ops| && Exhausted(ops, order[..n])
    ensures Stuck(ops, order, n, b)
  {
    hide Must;
    hide Edge;
    DistinctBelow(order, |ops|);
    var j := order[b];
    assert j !in order[..n];
    assert forall i: nat :: i < |ops| ==> i in order;
    assert forall k :: 0 <= k < n ==> order[k] == order[..n][k];
    PredsMember(ops, j);
    var i: nat :| i in Preds(ops, j) && i !in Elements(order[..n]);
    EdgeMeans(ops, i, j);
    assert i in order;
    var a: nat :| 0 <= a < |order| && order[a] == i;
  }

  /** Where no operation has to come before another, sorting changes nothing. */
  lemma NothingToOrder(ops: seq<SyncOp>, sorted: seq<SyncOp>)
    requires KahnOrdered(ops, sorted)
    requires forall i, j :: 0 <= i < |ops| && 0 <= j < |ops| && i != j ==> !Must(ops[i], ops[j])
    ensures sorted == ops
  {
    hide Must;
    hide KahnOrdered;
    var order, reached, times := SortMeans(ops, sorted);
    if reached < |ops| {
      NotStuck(ops, order, reached);
    }
    forall b | 0 <= b < |ops|
      ensures times[b] == 0
    {
      assert Free(ops, order, b, times[b]);
    }
    CountsUp(order, |ops|);
  }

  lemma NotStuck(ops: seq<SyncOp>, order: seq<nat>, n: nat)
    requires n < |order| == |ops| && (forall k :: 0 <= k < |order| ==> order[k] < |ops|)
    requires forall k, l :: 0 <= k < l < |order| ==> order[k] != order[l]
    requires forall i, j :: 0 <= i < |ops| && 0 <= j < |ops| && i != j ==> !Must(ops[i], ops[j])
    ensures !Stuck(ops, order, n, n)
  {
    hide Must;
  }

  lemma {:induction false} CountsUp(order: seq<nat>, n: nat)
    requires |order| == n && (forall k :: 0 <= k < n ==> order[k] < n)
    requires forall a, b :: 0 <= a < b < n ==> order[a] < order[b]
    ensures forall k :: 0 <= k < n ==> order[k] == k
  {
    if n > 0 {
      var front := order[..n - 1];
      assert forall k :: 0 <= k < n - 1 ==> front[k] == order[k] && order[k] < order[n - 1];
      CountsUp(front, n - 1);
      assert n > 1 ==> front[n - 2] == n - 2;
    }
  }

  // ----- Coalescing -------------------------------------------------------------------------

  predicate SameKey(x: SyncOp, y: SyncOp) {
    x.target == y.target && x.path == y.path
  }

  ghost predicate NoneLater(ops: seq<SyncOp>, i: nat) {
    i < |ops| && forall j :: i < j < |ops| ==> !SameKey(ops[i], ops[j])
  }

  /** Coalescing keeps, in their order, the operations after which no other one works on their drive and path. */
  lemma {:induction false} CoalescedMeans(ops: seq<SyncOp>) returns (places: seq<nat>)
    ensures Keeps(ops, KeepLast(ops), places)
    ensures forall i: nat :: i in places <==> NoneLater(ops, i)
  {
    hide Keeps;
    hide NoneLater;
    hide HasKey;
    places := [];
    if ops == [] {
      KeepsNothing();
      NothingLater();
    } else {
      var later := CoalescedMeans(ops[1..]);
      var shifted := Shifted(later);
      KeepsLater(ops, KeepLast(ops[1..]), later);
      LastLater(ops);
      places := if HasKey(ops[1..], ops[0].Key()) then shifted else [0] + shifted;
      OneFirstPlace(shifted);
      assert [] + KeepLast(ops[1..]) == KeepLast(ops[1..]);
    }
  }

  lemma NothingLater()
    ensures forall i: nat :: !NoneLater([], i)
  {
  }

  lemma OneFirstPlace(places: seq<nat>)
    ensures forall i: nat :: i in [0] + places <==> i == 0 || i in places
  {
  }

  ghost function Shifted(places: seq<nat>): (r: seq<nat>)
    ensures |r| == |places| && forall k :: 0 <= k < |r| ==> r[k] == places[k] + 1
  {
    seq(|places|, k requires 0 <= k < |places| => places[k] + 1)
  }

  lemma KeepsLater(ops: seq<SyncOp>, part: seq<SyncOp>, later: seq<nat>)
    requires ops != [] && Keeps(ops[1..], part, later)
    ensures Keeps(ops, part, Shifted(later)) && Keeps(ops, [ops[0]] + part, [0] + Shifted(later))
    ensures forall i: nat :: i in Shifted(later) <==> i > 0 && i - 1 in later
  {
    hide Keeps;
    KeepsShifted(ops, part, later);
    KeepsFirst(ops, part, Shifted(later));
    ShiftedMembers(later);
  }

  lemma KeepsShifted(ops: seq<SyncOp>, part: seq<SyncOp>, later: seq<nat>)
    requires ops != [] && Keeps(ops[1..], part, later)
    ensures Keeps(ops, part, Shifted(later)) && forall k :: 0 <= k < |later| ==> Shifted(later)[k] > 0
  {
    var shifted := Shifted(later);
    forall k | 0 <= k < |later|
      ensures shifted[k] < |ops| && part[k] == ops[shifted[k]]
    {
      assert ops[1..][later[k]] == ops[shifted[k]];
    }
  }

  lemma KeepsFirst(ops: seq<SyncOp>, part: seq<SyncOp>, places: seq<nat>)
    requires ops != [] && Keeps(ops, part, places) && forall k :: 0 <= k < |places| ==> places[k] > 0
    ensures Keeps(ops, [ops[0]] + part, [0] + places)
  {
    var longer, all := [0] + places, [ops[0]] + part;
    forall k | 0 <= k < |longer|
      ensures longer[k] < |ops| && all[k] == ops[longer[k]]
    {
      assert k > 0 ==> longer[k] == places[k - 1] && all[k] == part[k - 1];
    }
    forall k, l | 0 <= k < l < |longer|
      ensures longer[k] < longer[l]
    {
      assert longer[l] == places[l - 1] && (k > 0 ==> longer[k] == places[k - 1]);
    }
  }

  lemma ShiftedMembers(later: seq<nat>)
    ensures forall i: nat :: i in Shifted(later) <==> i > 0 && i - 1 in later
  {
    var shifted := Shifted(later);
    forall i: nat
      ensures i in shifted <==> i > 0 && i - 1 in later
    {
      if i > 0 && i - 1 in later {
        var k :| 0 <= k < |later| && later[k] == i - 1;
        assert shifted[k] == i;
      }
    }
  }

  /** Whether an operation is the last one for its key does not depend on those before it. */
  lemma LastLater(ops: seq<SyncOp>)
    requires ops != []
    ensures forall i: nat :: i > 0 ==> (NoneLater(ops, i) <==> NoneLater(ops[1..], i - 1))
    ensures NoneLater(ops, 0) <==> !HasKey(ops[1..], ops[0].Key())
  {
    hide SameKey;
    hide HasKey;
    HasKeyLater(ops);
    var rest := ops[1..];
    forall i: nat | 0 < i < |ops|
      ensures NoneLater(ops, i) <==> NoneLater(rest, i - 1)
    {
      assert forall j :: i < j < |ops| ==> ops[j] == rest[j - 1];
      assert forall j :: i - 1 < j < |rest| ==> ops[j + 1] == rest[j];
    }
  }

  lemma HasKeyLater(ops: seq<SyncOp>)
    requires ops != []
    ensures HasKey(ops[1..], ops[0].Key()) <==> exists j :: 0 < j < |ops| && SameKey(ops[0], ops[j])
  {
    if j :| 0 < j < |ops| && SameKey(ops[0], ops[j]) {
      assert ops[1..][j - 1].Key() == ops[0].Key();
    }
  }
}
