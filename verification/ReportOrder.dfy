/** The order of what a tree walk collects and a diff reports. */
module ReportOrder {
  import opened Base
  import opened SyncOps
  import opened Merkle

  /** `s` is made of the parts of `keys`, one after the other. */
  ghost predicate Blocks<T(!new)>(s: seq<Path>, keys: seq<T>, part: T -> seq<Path>)
    decreases |keys|
  {
    if keys == [] then s == []
    else part(keys[0]) <= s && Blocks(s[|part(keys[0])|..], keys[1..], part)
  }

  lemma {:induction false} BlocksAppend<T(!new)>(s: seq<Path>, keys: seq<T>, part: T -> seq<Path>, k: T)
    requires Blocks(s, keys, part)
    ensures Blocks(s + part(k), keys + [k], part)
    decreases |keys|
  {
    var all, longer := s + part(k), keys + [k];
    if keys == [] {
      assert all == part(k) && longer == [k];
      assert all[|part(k)|..] == [] && longer[1..] == [];
    } else {
      var n := |part(keys[0])|;
      BlocksAppend(s[n..], keys[1..], part, k);
      assert all[n..] == s[n..] + part(k) && longer[1..] == keys[1..] + [k];
      assert all[..n] == s[..n];
    }
  }

  // ----- Leaves -----------------------------------------------------------------------------

  /** The leaves below a directory are those of its children, child by child; those of a file are itself. */
  lemma CollectedInOrder(n: Node)
    ensures if n.level == 0 then Leaves(n) == [n.path] else Blocks(Leaves(n), n.children, c => Leaves(c))
  {
    if n.level != 0 {
      LeavesInBlocks(n.children);
    }
  }

  lemma {:induction false} LeavesInBlocks(s: seq<Node>)
    ensures Blocks(LeavesAll(s), s, c => Leaves(c))
  {
    if s != [] {
      LeavesInBlocks(s[..|s| - 1]);
      BlocksAppend(LeavesAll(s[..|s| - 1]), s[..|s| - 1], c => Leaves(c), s[|s| - 1]);
      assert s == s[..|s| - 1] + [s[|s| - 1]];
    }
  }

  // ----- Children ---------------------------------------------------------------------------

  /** A node's child at a path is the last one listed with that path. */
  lemma ChildIsLast(n: Node, k: Path)
    ensures Has(n, k) <==> exists c :: c in n.children && c.path == k
    ensures Has(n, k) ==> LastWith(n.children, k, Child(n, k))
  {
    LastChild(n.children, k);
  }

  ghost predicate LastWith(s: seq<Node>, k: Path, c: Node) {
    exists i :: 0 <= i < |s| && s[i] == c && c.path == k && forall j :: i < j < |s| ==> s[j].path != k
  }

  lemma {:induction false} LastChild(s: seq<Node>, k: Path)
    ensures k in ChildMap(s) ==> LastWith(s, k, ChildMap(s)[k])
  {
    hide LastWith;
    if s != [] {
      var front, x := s[..|s| - 1], s[|s| - 1];
      LastChild(front, k);
      assert ChildMap(s) == ChildMap(front)[x.path := x];
      assert s == front + [x];
      if x.path == k {
        LastWithNew(front, x);
      } else if k in ChildMap(front) {
        LastWithOld(front, k, ChildMap(front)[k], x);
      }
    }
  }

  lemma LastWithNew(front: seq<Node>, x: Node)
    ensures LastWith(front + [x], x.path, x)
  {
    assert (front + [x])[|front|] == x;
  }

  lemma LastWithOld(front: seq<Node>, k: Path, c: Node, x: Node)
    requires LastWith(front, k, c) && x.path != k
    ensures LastWith(front + [x], k, c)
  {
    var i :| 0 <= i < |front| && front[i] == c && c.path == k && forall j :: i < j < |front| ==> front[j].path != k;
    assert (front + [x])[i] == c;
  }

  // ----- Reports ----------------------------------------------------------------------------

  ghost function LeavesAt(n: Node): Path -> seq<Path> {
    k => if Has(n, k) then Leaves(Child(n, k)) else []
  }

  ghost function AddedAt(a: Node, b: Node): Path -> seq<Path> {
    k => if Has(a, k) && Has(b, k) then DiffOf(Child(a, k), Child(b, k)).added else []
  }

  ghost function DeletedAt(a: Node, b: Node): Path -> seq<Path> {
    k => if Has(a, k) && Has(b, k) then DiffOf(Child(a, k), Child(b, k)).deleted else []
  }

  ghost function ModifiedAt(a: Node, b: Node): Path -> seq<Path> {
    k => if Has(a, k) && Has(b, k) then DiffOf(Child(a, k), Child(b, k)).modified else []
  }

  /** The children of `mine` that `theirs` has not, and those that it has, in path order. */
  ghost predicate Alone(mine: Node, theirs: Node, keys: seq<Path>) {
    StrictlySorted(keys) && forall k :: k in keys <==> Has(mine, k) && !Has(theirs, k)
  }

  ghost predicate Shared(mine: Node, theirs: Node, keys: seq<Path>) {
    StrictlySorted(keys) && forall k :: k in keys <==> Has(mine, k) && Has(theirs, k)
  }

  /** First the leaves of the children `alone`, then what comparing the children `shared` gives. */
  ghost predicate InTwoParts(
    s: seq<Path>, alone: seq<Path>, leaves: Path -> seq<Path>, shared: seq<Path>, rest: Path -> seq<Path>)
  {
    exists n :: 0 <= n <= |s| && Blocks(s[..n], alone, leaves) && Blocks(s[n..], shared, rest)
  }

  /** The three lists, as far as the children `few` have been compared. */
  ghost predicate Reported(a: Node, b: Node, r: Changes, onlyA: seq<Path>, onlyB: seq<Path>, few: seq<Path>) {
    && InTwoParts(r.added, onlyB, LeavesAt(b), few, AddedAt(a, b))
    && InTwoParts(r.deleted, onlyA, LeavesAt(a), few, DeletedAt(a, b))
    && Blocks(r.modified, few, ModifiedAt(a, b))
  }

  /** Trees of equal hash have no reports, two files that differ one. Otherwise each list holds first the leaves of
      the children that one side lacks, in path order, and then, again in path order, the reports of the
      children both have. */
  lemma ReportedInOrder(a: Node, b: Node) returns (onlyA: seq<Path>, onlyB: seq<Path>, both: seq<Path>)
    ensures a.hash == b.hash ==> DiffOf(a, b) == Changes([], [], [])
    ensures a.hash != b.hash && a.level == 0 && b.level == 0 ==> DiffOf(a, b) == Changes([], [a.path], [])
    ensures Alone(a, b, onlyA) && Alone(b, a, onlyB) && Shared(a, b, both)
    ensures a.hash != b.hash && (a.level != 0 || b.level != 0) ==> Reported(a, b, DiffOf(a, b), onlyA, onlyB, both)
  {
    hide LeavesOnly;
    hide Blocks;
    hide InTwoParts;
    hide ChildMap;
    hide Leaves;
    hide StrictlySorted;
    hide Part;
    hide Reported;
    var map1, map2 := ChildMap(a.children), ChildMap(b.children);
    onlyA := AloneInBlocks(map1, map2, Sorted(map1.Keys), LeavesAt(a));
    onlyB := AloneInBlocks(map2, map1, Sorted(map2.Keys), LeavesAt(b));
    NothingShared(a, b, onlyA, onlyB);
    both := SharedInBlocks(a, b, Sorted(map2.Keys), onlyA, onlyB);
    PartsAre(a, b, Sorted(map1.Keys), Sorted(map2.Keys), onlyA, onlyB, both);
    AllReported(a, b, onlyA, onlyB, both);
  }

  lemma PartsAre(a: Node, b: Node, ka: seq<Path>, kb: seq<Path>, onlyA: seq<Path>, onlyB: seq<Path>, both: seq<Path>)
    requires (forall k :: k in ka <==> Has(a, k)) && forall k :: k in kb <==> Has(b, k)
    requires Part(ka, onlyA, iset k | k !in ChildMap(b.children)) && Part(kb, onlyB, iset k | k !in ChildMap(a.children))
    requires Part(kb, both, iset k | Has(a, k))
    ensures Alone(a, b, onlyA) && Alone(b, a, onlyB) && Shared(a, b, both)
  {
    hide ChildMap;
    hide StrictlySorted;
  }

  lemma NothingShared(a: Node, b: Node, onlyA: seq<Path>, onlyB: seq<Path>)
    requires var map1, map2 := ChildMap(a.children), ChildMap(b.children);
      && Blocks(LeavesOnly(map1, map2, Sorted(map1.Keys)), onlyA, LeavesAt(a))
      && Blocks(LeavesOnly(map2, map1, Sorted(map2.Keys)), onlyB, LeavesAt(b))
    ensures Reported(a, b, DiffBelow(a, b, []), onlyA, onlyB, [])
  {
    hide LeavesOnly;
    hide Blocks;
    hide ChildMap;
    hide InTwoParts;
    var r := DiffBelow(a, b, []);
    Started(r.added, onlyB, LeavesAt(b), AddedAt(a, b));
    Started(r.deleted, onlyA, LeavesAt(a), DeletedAt(a, b));
    NoBlocks(ModifiedAt(a, b));
  }

  lemma AllReported(a: Node, b: Node, onlyA: seq<Path>, onlyB: seq<Path>, both: seq<Path>)
    requires Reported(a, b, DiffBelow(a, b, Sorted(ChildMap(b.children).Keys)), onlyA, onlyB, both)
    ensures a.hash == b.hash ==> DiffOf(a, b) == Changes([], [], [])
    ensures a.hash != b.hash && a.level == 0 && b.level == 0 ==> DiffOf(a, b) == Changes([], [a.path], [])
    ensures a.hash != b.hash && (a.level != 0 || b.level != 0) ==> Reported(a, b, DiffOf(a, b), onlyA, onlyB, both)
  {
    hide Reported;
    hide DiffBelow;
  }

  lemma NoBlocks(part: Path -> seq<Path>)
    ensures Blocks([], [], part)
  {
  }

  /** `few` are those of `keys` that are in `keep`. */
  ghost predicate Part(keys: seq<Path>, few: seq<Path>, keep: iset<Path>) {
    StrictlySorted(few) && forall k :: k in few <==> k in keys && k in keep
  }

  lemma SortedFront(keys: seq<Path>, front: seq<Path>, k: Path)
    requires StrictlySorted(keys) && keys == front + [k]
    ensures StrictlySorted(front) && forall l :: l in front ==> Less(l, k)
  {
    assert forall i :: 0 <= i < |front| ==> keys[i] == front[i];
    assert keys[|front|] == k;
  }

  lemma PartNext(keys: seq<Path>, front: seq<Path>, k: Path, few: seq<Path>, keep: iset<Path>)
    requires StrictlySorted(keys) && keys == front + [k] && Part(front, few, keep)
    ensures Part(keys, if k in keep then few + [k] else few, keep)
  {
    SortedFront(keys, front, k);
    assert forall i :: 0 <= i < |few| ==> few[i] in few;
    assert StrictlySorted(few + [k]);
  }

  lemma {:induction false} AloneInBlocks(
    mine: map<Path, Node>, theirs: map<Path, Node>, keys: seq<Path>, part: Path -> seq<Path>)
    returns (few: seq<Path>)
    requires StrictlySorted(keys) && forall k :: k in keys ==> k in mine && part(k) == Leaves(mine[k])
    ensures Part(keys, few, iset k | k !in theirs) && Blocks(LeavesOnly(mine, theirs, keys), few, part)
  {
    hide Leaves;
    hide Blocks;
    hide Part;
    hide StrictlySorted;
    few := [];
    if keys == [] {
      NoPart(iset k | k !in theirs);
      NoBlocks(part);
    } else {
      var front, k := keys[..|keys| - 1], keys[|keys| - 1];
      assert keys == front + [k];
      SortedFront(keys, front, k);
      few := AloneInBlocks(mine, theirs, front, part);
      PartNext(keys, front, k, few, iset k | k !in theirs);
      BlocksAppend(LeavesOnly(mine, theirs, front), few, part, k);
      if k !in theirs {
        few := few + [k];
      } else {
        assert LeavesOnly(mine, theirs, front) + [] == LeavesOnly(mine, theirs, front);
      }
    }
  }

  lemma NoPart(keep: iset<Path>)
    ensures Part([], [], keep)
  {
  }

  lemma Started(s: seq<Path>, alone: seq<Path>, leaves: Path -> seq<Path>, rest: Path -> seq<Path>)
    requires Blocks(s, alone, leaves)
    ensures InTwoParts(s, alone, leaves, [], rest)
  {
    assert s[..|s|] == s && s[|s|..] == [];
  }

  lemma TwoPartsAppend(
    s: seq<Path>, alone: seq<Path>, leaves: Path -> seq<Path>, shared: seq<Path>, rest: Path -> seq<Path>, k: Path)
    requires InTwoParts(s, alone, leaves, shared, rest)
    ensures InTwoParts(s + rest(k), alone, leaves, shared + [k], rest)
  {
    hide Blocks;
    var n :| 0 <= n <= |s| && Blocks(s[..n], alone, leaves) && Blocks(s[n..], shared, rest);
    BlocksAppend(s[n..], shared, rest, k);
    var all := s + rest(k);
    assert all[..n] == s[..n] && all[n..] == s[n..] + rest(k);
  }

  lemma ReportedMore(a: Node, b: Node, r: Changes, onlyA: seq<Path>, onlyB: seq<Path>, few: seq<Path>, k: Path)
    requires Reported(a, b, r, onlyA, onlyB, few) && Has(a, k) && Has(b, k)
    ensures Reported(a, b, Appended(r, DiffOf(Child(a, k), Child(b, k))), onlyA, onlyB, few + [k])
  {
    hide InTwoParts;
    hide Blocks;
    hide DiffOf;
    hide Has;
    hide Child;
    TwoPartsAppend(r.added, onlyB, LeavesAt(b), few, AddedAt(a, b), k);
    TwoPartsAppend(r.deleted, onlyA, LeavesAt(a), few, DeletedAt(a, b), k);
    BlocksAppend(r.modified, few, ModifiedAt(a, b), k);
  }

  lemma {:induction false} SharedInBlocks(a: Node, b: Node, keys: seq<Path>, onlyA: seq<Path>, onlyB: seq<Path>)
    returns (few: seq<Path>)
    requires StrictlySorted(keys) && forall k :: k in keys ==> Has(b, k)
    requires Reported(a, b, DiffBelow(a, b, []), onlyA, onlyB, [])
    ensures Part(keys, few, iset k | Has(a, k)) && Reported(a, b, DiffBelow(a, b, keys), onlyA, onlyB, few)
    decreases |keys|
  {
    hide Reported;
    hide DiffOf;
    hide Has;
    hide Child;
    hide LeavesOnly;
    few := [];
    if keys != [] {
      var front, k := keys[..|keys| - 1], keys[|keys| - 1];
      assert keys == front + [k];
      SortedFront(keys, front, k);
      few := SharedInBlocks(a, b, front, onlyA, onlyB);
      PartNext(keys, front, k, few, iset k | Has(a, k));
      if Has(a, k) {
        ReportedMore(a, b, DiffBelow(a, b, front), onlyA, onlyB, few, k);
        few := few + [k];
      }
    }
  }
}
