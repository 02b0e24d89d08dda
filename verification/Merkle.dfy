/** Comparing two scanned trees: a diff that skips equal hashes, against the plain difference of the
    two sets of files. */
module Merkle {
  import opened Base
  import opened SyncOps

  /** Level 0 is a file, any other level a directory. */
  datatype Node = Node(path: Path, hash: Digest, level: nat, children: seq<Node>)

  // ----- Leaves -----------------------------------------------------------------------------

  function Leaves(n: Node): seq<Path>
    decreases n, 0
  {
    if n.level == 0 then [n.path] else LeavesAll(n.children)
  }

  function LeavesAll(s: seq<Node>): seq<Path>
    decreases s, 1
  {
    if s == [] then [] else LeavesAll(s[..|s| - 1]) + Leaves(s[|s| - 1])
  }

  method CollectLeaves(n: Node, found: seq<Path>) returns (out: seq<Path>)
    ensures out == found + Leaves(n)
    decreases n
  {
    if n.level == 0 {
      return found + [n.path];
    }
    out := found;
    for i := 0 to |n.children|
      invariant out == found + LeavesAll(n.children[..i])
    {
      out := CollectLeaves(n.children[i], out);
      assert n.children[..i + 1][..i] == n.children[..i];
    }
    assert n.children[..|n.children|] == n.children;
  }

  /** The files of a tree with their hashes. */
  function Files(n: Node): map<Path, Digest>
    decreases n, 0
  {
    if n.level == 0 then map[n.path := n.hash] else FilesAll(n.children)
  }

  function FilesAll(s: seq<Node>): map<Path, Digest>
    decreases s, 1
  {
    if s == [] then map[] else FilesAll(s[..|s| - 1]) + Files(s[|s| - 1])
  }

  /** The children by path, a later one replacing an earlier one. */
  function ChildMap(s: seq<Node>): (m: map<Path, Node>)
    ensures forall k :: k in m ==> m[k] in s && m[k].path == k
    ensures forall c :: c in s ==> c.path in m
  {
    if s == [] then map[]
    else
      var last := s[|s| - 1];
      assert forall c :: c in s <==> c in s[..|s| - 1] || c == last;
      ChildMap(s[..|s| - 1])[last.path := last]
  }

  predicate Has(n: Node, k: Path) {
    k in ChildMap(n.children)
  }

  function Child(n: Node, k: Path): (c: Node)
    requires Has(n, k)
    ensures c in n.children && c.path == k
  {
    ChildMap(n.children)[k]
  }

  // ----- What a diff reports ----------------------------------------------------------------

  /** The files reported as added from `a` to `b`; deletions are the additions from `b` to `a`. */
  ghost predicate Adds(a: Node, b: Node, p: Path)
    decreases a
  {
    && a.hash != b.hash && !(a.level == 0 && b.level == 0)
    && exists k ::
      && Has(b, k)
      && if Has(a, k) then Adds(Child(a, k), Child(b, k), p) else p in Leaves(Child(b, k))
  }

  ghost predicate Modifies(a: Node, b: Node, p: Path)
    decreases a
  {
    && a.hash != b.hash
    && if a.level == 0 && b.level == 0 then p == a.path
       else exists k :: Has(a, k) && Has(b, k) && Modifies(Child(a, k), Child(b, k), p)
  }

  datatype Changes = Changes(added: seq<Path>, modified: seq<Path>, deleted: seq<Path>)

  ghost predicate Reports(r: Changes, a: Node, b: Node) {
    forall p ::
      && (p in r.added <==> Adds(a, b, p))
      && (p in r.deleted <==> Adds(b, a, p))
      && (p in r.modified <==> Modifies(a, b, p))
  }

  // ----- Well-formed trees ------------------------------------------------------------------

  /** What stands before the names of a directory's entries; the root is called ".". */
  function Prefix(dir: Path): Path {
    if dir == "." then "" else dir + "/"
  }

  predicate IsName(x: string) {
    x != "" && x[0] != '.' && '/' !in x
  }

  ghost predicate ChildPath(dir: Path, k: Path) {
    Prefix(dir) <= k && IsName(k[|Prefix(dir)|..])
  }

  ghost predicate WellFormed(n: Node)
    decreases n
  {
    if n.level == 0 then n.children == []
    else
      && (forall i :: 0 <= i < |n.children| ==> ChildPath(n.path, n.children[i].path) && WellFormed(n.children[i]))
      && (forall i, j :: 0 <= i < j < |n.children| ==> n.children[i].path != n.children[j].path)
  }

  /** The path itself or something below it. */
  ghost predicate Within(k: Path, p: Path) {
    p == k || k + "/" <= p
  }

  lemma WithinOneChild(dir: Path, k: Path, l: Path, p: Path)
    requires ChildPath(dir, k) && ChildPath(dir, l) && Within(k, p) && Within(l, p)
    ensures k == l
  {
    if |k| < |l| {
      SlashBelow(dir, k, l, p);
    } else if |l| < |k| {
      SlashBelow(dir, l, k, p);
    } else {
      assert k == p[..|k|] && l == p[..|l|];
    }
  }

  lemma SlashBelow(dir: Path, k: Path, l: Path, p: Path)
    requires ChildPath(dir, k) && Prefix(dir) <= l && Within(k, p) && Within(l, p) && |k| < |l|
    ensures '/' in l[|Prefix(dir)|..]
  {
    var n := |Prefix(dir)|;
    assert l[|k|] == p[|k|] == (k + "/")[|k|] == '/';
    assert l[n..][|k| - n] == '/';
  }

  lemma NotTheDirectory(dir: Path, k: Path, p: Path)
    requires ChildPath(dir, k) && Within(k, p)
    ensures p != dir && (dir != "." ==> Within(dir, p))
  {
    var n := |Prefix(dir)|;
    assert k[n..][0] == k[n];
    assert k[n] == p[n];
    if dir != "." {
      assert p[..n] == k[..n] == dir + "/";
    }
  }

  // ----- The files below one child ----------------------------------------------------------

  ghost predicate Gives(c: Node, p: Path, hash: Digest) {
    p in Files(c) && Files(c)[p] == hash
  }

  lemma {:induction false} FilesAllMembers(s: seq<Node>)
    ensures forall p :: p in FilesAll(s) ==> exists c :: c in s && Gives(c, p, FilesAll(s)[p])
    ensures forall c, p :: c in s && p in Files(c) ==> p in FilesAll(s)
  {
    hide Files;
    if s != [] {
      var front, last := s[..|s| - 1], s[|s| - 1];
      FilesAllMembers(front);
      assert forall c :: c in s <==> c in front || c == last;
      forall p | p in FilesAll(s)
        ensures exists c :: c in s && Gives(c, p, FilesAll(s)[p])
      {
        if p in Files(last) {
          assert Gives(last, p, FilesAll(s)[p]);
        } else {
          assert FilesAll(s)[p] == FilesAll(front)[p];
          var c :| c in front && Gives(c, p, FilesAll(front)[p]);
          assert c in s;
        }
      }
    }
  }

  lemma DirectoryFiles(n: Node)
    requires n.level != 0
    ensures forall p :: p in Files(n) ==> exists c :: c in n.children && Gives(c, p, Files(n)[p])
    ensures forall c, p :: c in n.children && p in Files(c) ==> p in Files(n)
  {
    FilesAllMembers(n.children);
  }

  lemma WellFormedChild(n: Node, c: Node)
    requires WellFormed(n) && n.level != 0 && c in n.children
    ensures WellFormed(c) && ChildPath(n.path, c.path) && Has(n, c.path) && Child(n, c.path) == c
  {
    var i :| 0 <= i < |n.children| && n.children[i] == c;
    var d := Child(n, c.path);
    var j :| 0 <= j < |n.children| && n.children[j] == d;
  }

  /** All files of a tree are at its path or below it; those of a directory are below it. */
  lemma {:induction false} FilesWithin(n: Node, p: Path)
    requires WellFormed(n) && p in Files(n)
    ensures n.level == 0 ==> p == n.path
    ensures n.level != 0 ==> p != n.path && exists c :: c in n.children && p in Files(c) && Within(c.path, p)
    ensures n.path != "." ==> Within(n.path, p)
    decreases n
  {
    if n.level != 0 {
      DirectoryFiles(n);
      var c :| c in n.children && Gives(c, p, Files(n)[p]);
      WellFormedChild(n, c);
      DotIsNoChild(n.path, c.path);
      FilesWithin(c, p);
      NotTheDirectory(n.path, c.path, p);
    }
  }

  lemma DotIsNoChild(dir: Path, k: Path)
    requires ChildPath(dir, k)
    ensures k != "."
  {
    if dir == "." {
      assert k[0..] == k;
    } else {
      assert |k| >= 2;
    }
  }

  /** Below a child, a directory has exactly that child's files. */
  lemma FilesOfChild(n: Node, k: Path, p: Path)
    requires WellFormed(n) && n.level != 0 && Has(n, k) && Within(k, p)
    ensures p in Files(n) <==> p in Files(Child(n, k))
    ensures p in Files(n) ==> Files(n)[p] == Files(Child(n, k))[p]
  {
    hide Files;
    hide FilesAll;
    hide WellFormed;
    DirectoryFiles(n);
    WellFormedChild(n, Child(n, k));
    if p in Files(n) {
      var c :| c in n.children && Gives(c, p, Files(n)[p]);
      WellFormedChild(n, c);
      DotIsNoChild(n.path, c.path);
      FilesWithin(c, p);
      WithinOneChild(n.path, c.path, k, p);
    }
  }

  /** Below a path that is none of its children's, a directory has nothing. */
  lemma NoFilesElsewhere(n: Node, k: Path, p: Path)
    requires WellFormed(n) && !Has(n, k) && ChildPath(n.path, k) && Within(k, p)
    ensures p !in Files(n)
  {
    if p in Files(n) {
      FilesWithin(n, p);
      if n.level == 0 {
        NotTheDirectory(n.path, k, p);
      } else {
        var c :| c in n.children && p in Files(c) && Within(c.path, p);
        WellFormedChild(n, c);
        WithinOneChild(n.path, c.path, k, p);
      }
    }
  }

  lemma {:induction false} LeavesAreFiles(n: Node)
    ensures forall p :: p in Leaves(n) <==> p in Files(n)
    decreases n, 0
  {
    if n.level != 0 {
      LeavesAllAreFiles(n.children);
    }
  }

  lemma {:induction false} LeavesAllAreFiles(s: seq<Node>)
    ensures forall p :: p in LeavesAll(s) <==> p in FilesAll(s)
    decreases s, 1
  {
    if s != [] {
      LeavesAllAreFiles(s[..|s| - 1]);
      LeavesAreFiles(s[|s| - 1]);
    }
  }

  // ----- What is reported is so -------------------------------------------------------------

  /** Whatever is reported as added is a file of the new tree and none of the old one. */
  lemma {:induction false} AddsAreAdded(a: Node, b: Node, p: Path)
    requires WellFormed(a) && WellFormed(b) && a.path == b.path && Adds(a, b, p)
    ensures p in Files(b) && p !in Files(a)
    ensures b.level != 0 && exists k :: Has(b, k) && Within(k, p) && p in Files(Child(b, k))
    decreases a
  {
    var k :| Has(b, k) && if Has(a, k) then Adds(Child(a, k), Child(b, k), p) else p in Leaves(Child(b, k));
    var d := Child(b, k);
    assert b.level != 0;
    WellFormedChild(b, d);
    DotIsNoChild(b.path, k);
    if Has(a, k) {
      WellFormedChild(a, Child(a, k));
      AddsAreAdded(Child(a, k), d, p);
      FilesWithin(d, p);
      FilesOfChild(a, k, p);
    } else {
      LeavesAreFiles(d);
      FilesWithin(d, p);
      NoFilesElsewhere(a, k, p);
    }
    FilesOfChild(b, k, p);
  }

  lemma {:induction false} ModifiesAreModified(a: Node, b: Node, p: Path)
    requires WellFormed(a) && WellFormed(b) && a.path == b.path && Modifies(a, b, p)
    ensures p in Files(a) && p in Files(b) && Files(a)[p] != Files(b)[p]
    decreases a
  {
    if a.level != 0 || b.level != 0 {
      var k :| Has(a, k) && Has(b, k) && Modifies(Child(a, k), Child(b, k), p);
      WellFormedChild(a, Child(a, k));
      WellFormedChild(b, Child(b, k));
      DotIsNoChild(a.path, k);
      ModifiesAreModified(Child(a, k), Child(b, k), p);
      FilesWithin(Child(a, k), p);
      FilesOfChild(a, k, p);
      FilesOfChild(b, k, p);
    }
  }

  // ----- When everything is reported --------------------------------------------------------

  ghost predicate Added(a: Node, b: Node, p: Path) {
    p in Files(b) && p !in Files(a)
  }

  ghost predicate Modified(a: Node, b: Node, p: Path) {
    p in Files(a) && p in Files(b) && Files(a)[p] != Files(b)[p]
  }

  ghost predicate ExactAt(a: Node, b: Node, p: Path) {
    && (Adds(a, b, p) <==> Added(a, b, p))
    && (Adds(b, a, p) <==> Added(b, a, p))
    && (Modifies(a, b, p) <==> Modified(a, b, p))
  }

  /** The reports are exactly the difference of the two sets of files. */
  ghost predicate Exact(a: Node, b: Node) {
    forall p :: ExactAt(a, b, p)
  }

  /** Wherever the diff looks, equal hashes mean equal files and no file has become a directory or the
      other way round. */
  ghost predicate Faithful(a: Node, b: Node)
    decreases a
  {
    if a.hash == b.hash then Files(a) == Files(b)
    else if a.level == 0 || b.level == 0 then a.level == b.level
    else forall k :: Has(a, k) && Has(b, k) ==> Faithful(Child(a, k), Child(b, k))
  }

  lemma {:induction false} FaithfulIsExact(a: Node, b: Node)
    requires WellFormed(a) && WellFormed(b) && a.path == b.path && Faithful(a, b)
    ensures Exact(a, b)
    decreases a
  {
    hide Files;
    hide Leaves;
    hide WellFormed;
    forall p
      ensures ExactAt(a, b, p)
    {
      Sound(a, b, p);
      if a.hash != b.hash {
        if a.level == 0 {
          BothFiles(a, b, p);
        } else if p in Files(a) || p in Files(b) {
          var k := ChildOf(a, b, p);
          if Has(a, k) && Has(b, k) {
            Paired(a, b, k);
            FaithfulIsExact(Child(a, k), Child(b, k));
            assert ExactAt(Child(a, k), Child(b, k), p);
          }
          Locally(a, b, k, p);
        }
      }
    }
  }

  lemma Sound(a: Node, b: Node, p: Path)
    requires WellFormed(a) && WellFormed(b) && a.path == b.path
    ensures Adds(a, b, p) ==> Added(a, b, p)
    ensures Adds(b, a, p) ==> Added(b, a, p)
    ensures Modifies(a, b, p) ==> Modified(a, b, p)
  {
    hide Files;
    hide Adds;
    hide Modifies;
    if Adds(a, b, p) {
      AddsAreAdded(a, b, p);
    }
    if Adds(b, a, p) {
      AddsAreAdded(b, a, p);
    }
    if Modifies(a, b, p) {
      ModifiesAreModified(a, b, p);
    }
  }

  lemma BothFiles(a: Node, b: Node, p: Path)
    requires a.level == b.level == 0 && a.path == b.path && a.hash != b.hash
    ensures Adds(a, b, p) <==> Added(a, b, p)
    ensures Adds(b, a, p) <==> Added(b, a, p)
    ensures Modifies(a, b, p) <==> Modified(a, b, p)
  {
  }

  /** The entry, of one directory or the other, below which a file lies. */
  lemma ChildOf(a: Node, b: Node, p: Path) returns (k: Path)
    requires WellFormed(a) && WellFormed(b) && a.path == b.path && a.level != 0 && b.level != 0
    requires p in Files(a) || p in Files(b)
    ensures Has(a, k) || Has(b, k)
    ensures ChildPath(a.path, k) && Within(k, p)
  {
    hide Files;
    var n := if p in Files(a) then a else b;
    FilesWithin(n, p);
    var c :| c in n.children && p in Files(c) && Within(c.path, p);
    WellFormedChild(n, c);
    k := c.path;
  }

  lemma Paired(a: Node, b: Node, k: Path)
    requires WellFormed(a) && WellFormed(b) && a.level != 0 && b.level != 0 && Has(a, k) && Has(b, k)
    ensures WellFormed(Child(a, k)) && WellFormed(Child(b, k)) && Child(a, k).path == Child(b, k).path
    ensures Child(a, k) < a && Child(b, k) < b
  {
    WellFormedChild(a, Child(a, k));
    WellFormedChild(b, Child(b, k));
  }

  /** Below an entry that both have, the reports are those on the two entries; below one that only one
      of them has, they are exact. */
  lemma Locally(a: Node, b: Node, k: Path, p: Path)
    requires WellFormed(a) && WellFormed(b) && a.path == b.path && a.level != 0 && b.level != 0
    requires a.hash != b.hash && (Has(a, k) || Has(b, k)) && ChildPath(a.path, k) && Within(k, p)
    ensures Has(a, k) && Has(b, k) ==> (ExactAt(a, b, p) <==> ExactAt(Child(a, k), Child(b, k), p))
    ensures !(Has(a, k) && Has(b, k)) ==> ExactAt(a, b, p)
  {
    hide Files;
    hide Leaves;
    hide WellFormed;
    if Has(a, k) {
      FilesOfChild(a, k, p);
    } else {
      NoFilesElsewhere(a, k, p);
    }
    if Has(b, k) {
      FilesOfChild(b, k, p);
    } else {
      NoFilesElsewhere(b, k, p);
    }
    AddsBelow(a, b, k, p);
    AddsBelow(b, a, k, p);
    ModifiesBelow(a, b, k, p);
    if Has(b, k) {
      LeavesAreFiles(Child(b, k));
    }
    if Has(a, k) {
      LeavesAreFiles(Child(a, k));
    }
  }

  lemma AddsBelow(a: Node, b: Node, k: Path, p: Path)
    requires WellFormed(a) && WellFormed(b) && a.path == b.path && a.level != 0 && b.level != 0
    requires a.hash != b.hash && ChildPath(a.path, k) && Within(k, p)
    ensures Adds(a, b, p) <==>
      Has(b, k) && if Has(a, k) then Adds(Child(a, k), Child(b, k), p) else p in Leaves(Child(b, k))
  {
    hide Files;
    hide Leaves;
    if Adds(a, b, p) {
      var l :| Has(b, l) && if Has(a, l) then Adds(Child(a, l), Child(b, l), p) else p in Leaves(Child(b, l));
      WellFormedChild(b, Child(b, l));
      DotIsNoChild(b.path, l);
      if Has(a, l) {
        WellFormedChild(a, Child(a, l));
        AddsAreAdded(Child(a, l), Child(b, l), p);
      } else {
        LeavesAreFiles(Child(b, l));
      }
      FilesWithin(Child(b, l), p);
      WithinOneChild(b.path, k, l, p);
    }
  }

  lemma ModifiesBelow(a: Node, b: Node, k: Path, p: Path)
    requires WellFormed(a) && WellFormed(b) && a.path == b.path && a.level != 0 && b.level != 0
    requires a.hash != b.hash && ChildPath(a.path, k) && Within(k, p)
    ensures Modifies(a, b, p) <==> Has(a, k) && Has(b, k) && Modifies(Child(a, k), Child(b, k), p)
  {
    hide Files;
    if Modifies(a, b, p) {
      var l :| Has(a, l) && Has(b, l) && Modifies(Child(a, l), Child(b, l), p);
      Paired(a, b, l);
      WellFormedChild(b, Child(b, l));
      DotIsNoChild(b.path, l);
      ModifiesAreModified(Child(a, l), Child(b, l), p);
      FilesWithin(Child(b, l), p);
      WithinOneChild(b.path, k, l, p);
    }
  }

  lemma {:induction false} ExactIsFaithful(a: Node, b: Node)
    requires WellFormed(a) && WellFormed(b) && a.path == b.path && Exact(a, b)
    ensures Faithful(a, b)
    decreases a
  {
    hide Files;
    hide Leaves;
    hide WellFormed;
    if a.hash == b.hash {
      forall p
        ensures Lookup(Files(a), p) == Lookup(Files(b), p)
      {
        assert ExactAt(a, b, p);
      }
      SameMap(Files(a), Files(b));
    } else if a.level == 0 || b.level == 0 {
      if a.level != b.level {
        assert ExactAt(a, b, a.path);
        KindChangeIsMissed(a, b);
      }
    } else {
      forall k | Has(a, k) && Has(b, k)
        ensures Faithful(Child(a, k), Child(b, k))
      {
        Paired(a, b, k);
        ExactBelow(a, b, k);
        ExactIsFaithful(Child(a, k), Child(b, k));
      }
    }
  }

  /** A path that is a file in one tree and a directory in the other is never reported itself. */
  lemma KindChangeIsMissed(a: Node, b: Node)
    requires WellFormed(a) && WellFormed(b) && a.path == b.path && (a.level == 0 || b.level == 0) && a.level != b.level
    ensures !ExactAt(a, b, a.path)
  {
    var dir := if a.level == 0 then b else a;
    if dir.path in Files(dir) {
      FilesWithin(dir, dir.path);
    }
  }

  lemma ExactBelow(a: Node, b: Node, k: Path)
    requires WellFormed(a) && WellFormed(b) && a.path == b.path && a.level != 0 && b.level != 0
    requires a.hash != b.hash && Has(a, k) && Has(b, k) && Exact(a, b)
    ensures Exact(Child(a, k), Child(b, k))
  {
    hide Files;
    hide Leaves;
    hide Adds;
    hide Modifies;
    hide WellFormed;
    var c, d := Child(a, k), Child(b, k);
    Paired(a, b, k);
    WellFormedChild(a, c);
    DotIsNoChild(a.path, k);
    forall p
      ensures ExactAt(c, d, p)
    {
      if Within(k, p) {
        Locally(a, b, k, p);
        assert ExactAt(a, b, p);
      } else {
        Sound(c, d, p);
        if p in Files(c) {
          FilesWithin(c, p);
        }
        if p in Files(d) {
          FilesWithin(d, p);
        }
      }
    }
  }

  /** The pruned diff agrees with the flat one exactly where, all the way down, equal hashes meant equal
      files and nothing changed its kind. */
  lemma ExactWhereFaithful(a: Node, b: Node)
    requires WellFormed(a) && WellFormed(b) && a.path == b.path
    ensures Exact(a, b) <==> Faithful(a, b)
  {
    hide Exact;
    hide Faithful;
    hide WellFormed;
    if Exact(a, b) {
      ExactIsFaithful(a, b);
    }
    if Faithful(a, b) {
      FaithfulIsExact(a, b);
    }
  }

  ghost predicate NodeOf(n: Node, x: Node)
    decreases n
  {
    x == n || exists i :: 0 <= i < |n.children| && NodeOf(n.children[i], x)
  }

  /** At the same path, nodes are of one kind, and those with equal hashes have equal files. */
  ghost predicate Comparable(a: Node, b: Node) {
    forall x, y :: NodeOf(a, x) && NodeOf(b, y) && x.path == y.path ==>
      (x.level == 0 <==> y.level == 0) && (x.hash == y.hash ==> Files(x) == Files(y))
  }

  lemma {:induction false} ComparableIsFaithful(a: Node, b: Node)
    requires a.path == b.path && Comparable(a, b)
    ensures Faithful(a, b)
    decreases a
  {
    hide Files;
    hide Comparable;
    ComparableHere(a, b);
    if a.hash != b.hash && a.level != 0 {
      forall k | Has(a, k) && Has(b, k)
        ensures Faithful(Child(a, k), Child(b, k))
      {
        ComparableBelow(a, b, Child(a, k), Child(b, k));
        ComparableIsFaithful(Child(a, k), Child(b, k));
      }
    }
  }

  lemma ComparableHere(a: Node, b: Node)
    requires a.path == b.path && Comparable(a, b)
    ensures (a.level == 0 <==> b.level == 0) && (a.hash == b.hash ==> Files(a) == Files(b))
  {
    hide Files;
    hide NodeOf;
    NodeOfSelf(a);
    NodeOfSelf(b);
  }

  lemma ComparableBelow(a: Node, b: Node, c: Node, d: Node)
    requires Comparable(a, b) && c in a.children && d in b.children
    ensures Comparable(c, d)
  {
    hide Files;
    hide NodeOf;
    forall x, y | NodeOf(c, x) && NodeOf(d, y) && x.path == y.path
      ensures (x.level == 0 <==> y.level == 0) && (x.hash == y.hash ==> Files(x) == Files(y))
    {
      NodeOfChild(a, c, x);
      NodeOfChild(b, d, y);
    }
  }

  lemma NodeOfSelf(n: Node)
    ensures NodeOf(n, n)
  {
  }

  lemma NodeOfChild(n: Node, c: Node, x: Node)
    requires c in n.children && NodeOf(c, x)
    ensures NodeOf(n, x)
  {
    var i :| 0 <= i < |n.children| && n.children[i] == c;
  }

  // ----- The diff ---------------------------------------------------------------------------

  method IndexChildren(n: Node) returns (m: map<Path, Node>)
    ensures m == ChildMap(n.children)
  {
    m := map[];
    for i := 0 to |n.children|
      invariant m == ChildMap(n.children[..i])
    {
      assert n.children[..i + 1][..i] == n.children[..i];
      m := m[n.children[i].path := n.children[i]];
    }
    assert n.children[..|n.children|] == n.children;
  }

  ghost predicate BelowOneOf(keys: set<Path>, p: Path) {
    exists k :: k in keys && Within(k, p)
  }

  /** No path twice, and all of them below entries of `keys`. */
  ghost predicate Kept(out: seq<Path>, keys: set<Path>) {
    Distinct(out) && forall p :: p in out ==> BelowOneOf(keys, p)
  }

  lemma KeptMore(dir: Path, out: seq<Path>, keys: set<Path>, more: seq<Path>, k: Path)
    requires Kept(out, keys) && k !in keys && (forall l :: l in keys + {k} ==> ChildPath(dir, l))
    requires Distinct(more) && forall p :: p in more ==> Within(k, p)
    ensures Kept(out + more, keys + {k})
  {
    var all := out + more;
    forall p | p in all
      ensures BelowOneOf(keys + {k}, p)
    {
      if p in out {
        var l :| l in keys && Within(l, p);
        assert l in keys + {k};
      } else {
        assert k in keys + {k} && Within(k, p);
      }
    }
    forall i, j | 0 <= i < j < |all|
      ensures all[i] != all[j]
    {
      if i < |out| <= j {
        assert all[i] in out && all[j] in more;
        var l :| l in keys && Within(l, all[i]);
        if all[i] == all[j] {
          WithinOneChild(dir, l, k, all[i]);
        }
      }
    }
  }

  lemma {:induction false} LeavesDistinct(n: Node)
    requires WellFormed(n)
    ensures Distinct(Leaves(n))
    ensures n.path != "." ==> forall p :: p in Leaves(n) ==> Within(n.path, p)
    decreases n, |n.children| + 1
  {
    hide Files;
    if n.level != 0 {
      LeavesSpread(n, |n.children|);
      assert n.children[..|n.children|] == n.children;
    }
    LeavesAreFiles(n);
    forall p | p in Leaves(n)
      ensures n.path != "." ==> Within(n.path, p)
    {
      FilesWithin(n, p);
    }
  }

  ghost function PathsOf(s: seq<Node>): set<Path> {
    set c | c in s :: c.path
  }

  lemma FrontPaths(n: Node, i: nat)
    requires WellFormed(n) && n.level != 0 && 0 < i <= |n.children|
    ensures var c := n.children[i - 1];
      && WellFormed(c) && c.path != "." && c.path !in PathsOf(n.children[..i - 1])
      && PathsOf(n.children[..i]) == PathsOf(n.children[..i - 1]) + {c.path}
    ensures forall l :: l in PathsOf(n.children[..i]) ==> ChildPath(n.path, l)
  {
    hide WellFormed;
    hide ChildPath;
    Siblings(n);
    var c := n.children[i - 1];
    DotIsNoChild(n.path, c.path);
    assert n.children[..i] == n.children[..i - 1] + [c];
  }

  lemma Siblings(n: Node)
    requires WellFormed(n) && n.level != 0
    ensures forall j :: 0 <= j < |n.children| ==> WellFormed(n.children[j]) && ChildPath(n.path, n.children[j].path)
    ensures forall i, j :: 0 <= i < j < |n.children| ==> n.children[i].path != n.children[j].path
  {
  }

  lemma KeptNone(keys: set<Path>)
    ensures Kept([], keys)
  {
  }

  lemma {:induction false} LeavesSpread(n: Node, i: nat)
    requires WellFormed(n) && n.level != 0 && i <= |n.children|
    ensures Kept(LeavesAll(n.children[..i]), PathsOf(n.children[..i]))
    decreases n, i
  {
    hide Leaves;
    hide WellFormed;
    hide PathsOf;
    hide Kept;
    KeptNone(PathsOf(n.children[..0]));
    if i > 0 {
      var front, c := n.children[..i - 1], n.children[i - 1];
      LeavesSpread(n, i - 1);
      FrontPaths(n, i);
      LeavesDistinct(c);
      assert n.children[..i][..i - 1] == front;
      KeptMore(n.path, LeavesAll(front), PathsOf(front), Leaves(c), c.path);
    }
  }

  ghost predicate LeafBelow(m: map<Path, Node>, keys: set<Path>, p: Path) {
    exists k :: k in keys && k in m && p in Leaves(m[k])
  }

  /** `out` has the leaves below some entries, each once if the tree is well formed. */
  ghost predicate Collected(n: Node, out: seq<Path>, keys: set<Path>) {
    && (forall p :: p in out <==> LeafBelow(ChildMap(n.children), keys, p))
    && (WellFormed(n) ==> Kept(out, keys))
  }

  lemma CollectedNone(n: Node)
    ensures Collected(n, [], {})
  {
  }

  lemma CollectedMore(n: Node, out: seq<Path>, keys: set<Path>, k: Path)
    requires Collected(n, out, keys) && Has(n, k) && k !in keys && keys <= ChildMap(n.children).Keys
    ensures Collected(n, out + Leaves(Child(n, k)), keys + {k})
  {
    hide Leaves;
    hide Kept;
    hide WellFormed;
    hide ChildMap;
    if WellFormed(n) {
      KeptLeaves(n, Child(n, k), out, keys);
    }
    forall p
      ensures LeafBelow(ChildMap(n.children), keys + {k}, p)
         <==> LeafBelow(ChildMap(n.children), keys, p) || p in Leaves(Child(n, k))
    {
      assert k in keys + {k};
    }
  }

  ghost function Taken(keys: seq<Path>, i: nat, but: set<Path>): set<Path>
    requires i <= |keys|
  {
    (set k | k in keys[..i]) - but
  }

  lemma TakenStep(keys: seq<Path>, i: nat, but: set<Path>)
    requires i < |keys| && forall a, b :: 0 <= a < b < |keys| ==> keys[a] != keys[b]
    ensures Taken(keys, 0, but) == {} && keys[i] !in Taken(keys, i, but)
    ensures Taken(keys, i + 1, but) == if keys[i] in but then Taken(keys, i, but) else Taken(keys, i, but) + {keys[i]}
  {
    assert keys[..i + 1] == keys[..i] + [keys[i]];
  }

  lemma TakenAll(s: set<Path>, but: set<Path>)
    ensures Taken(Sorted(s), 0, but) == {} && Taken(Sorted(s), |Sorted(s)|, but) == s - but
    ensures forall i :: 0 <= i <= |Sorted(s)| ==> Taken(Sorted(s), i, but) <= s
  {
    hide Sorted;
    var r := Sorted(s);
    assert r[..|r|] == r;
  }

  /** The leaves below those of the entries `keys` of the one node that the other one lacks, in order. */
  function LeavesOnly(mine: map<Path, Node>, theirs: map<Path, Node>, keys: seq<Path>): seq<Path>
    requires forall k :: k in keys ==> k in mine
  {
    if keys == [] then []
    else
      var k := keys[|keys| - 1];
      LeavesOnly(mine, theirs, keys[..|keys| - 1]) + (if k in theirs then [] else Leaves(mine[k]))
  }

  lemma LeavesOnlyStep(mine: map<Path, Node>, theirs: map<Path, Node>, keys: seq<Path>, i: nat)
    requires (forall k :: k in keys ==> k in mine) && i < |keys|
    ensures LeavesOnly(mine, theirs, keys[..0]) == []
    ensures LeavesOnly(mine, theirs, keys[..i + 1])
      == LeavesOnly(mine, theirs, keys[..i]) + (if keys[i] in theirs then [] else Leaves(mine[keys[i]]))
  {
    hide Leaves;
    assert keys[..i + 1][..i] == keys[..i];
  }

  lemma LeavesOnlyAll(mine: map<Path, Node>, theirs: map<Path, Node>, keys: seq<Path>)
    requires forall k :: k in keys ==> k in mine
    ensures LeavesOnly(mine, theirs, keys[..0]) == [] && keys[..|keys|] == keys
    ensures forall s: seq<Path> :: s + [] == s
  {
  }

  /** The leaves below the entries that only `n` has. */
  method OnlyLeaves(n: Node, mine: map<Path, Node>, theirs: map<Path, Node>) returns (out: seq<Path>)
    requires mine == ChildMap(n.children)
    ensures Collected(n, out, mine.Keys - theirs.Keys)
    ensures out == LeavesOnly(mine, theirs, Sorted(mine.Keys))
  {
    hide *;
    out := [];
    var keys := Sorted(mine.Keys);
    CollectedNone(n);
    LeavesOnlyAll(mine, theirs, keys);
    TakenAll(mine.Keys, theirs.Keys);
    for i := 0 to |keys|
      invariant Collected(n, out, Taken(keys, i, theirs.Keys))
      invariant out == LeavesOnly(mine, theirs, keys[..i])
    {
      TakenStep(keys, i, theirs.Keys);
      LeavesOnlyStep(mine, theirs, keys, i);
      var k := keys[i];
      assert k in keys;
      if k !in theirs {
        ChildIs(n, k);
        CollectedMore(n, out, Taken(keys, i, theirs.Keys), k);
        out := CollectLeaves(mine[k], out);
      }
    }
  }

  lemma ChildIs(n: Node, k: Path)
    requires k in ChildMap(n.children)
    ensures Has(n, k) && Child(n, k) == ChildMap(n.children)[k] && Child(n, k) < n
  {
  }

  lemma KeptLeaves(n: Node, c: Node, out: seq<Path>, keys: set<Path>)
    requires WellFormed(n) && c in n.children && Kept(out, keys) && c.path !in keys
    requires keys <= ChildMap(n.children).Keys
    ensures Kept(out + Leaves(c), keys + {c.path})
  {
    hide Leaves;
    hide Kept;
    EntriesArePaths(n);
    DotIsNoChild(n.path, c.path);
    LeavesDistinct(c);
    KeptMore(n.path, out, keys, Leaves(c), c.path);
  }

  lemma EntriesArePaths(n: Node)
    requires WellFormed(n) && n.children != []
    ensures n.level != 0 && forall k :: k in ChildMap(n.children) ==> ChildPath(n.path, k)
    ensures forall c :: c in n.children ==> WellFormed(c) && ChildPath(n.path, c.path)
  {
    forall c | c in n.children
      ensures WellFormed(c) && ChildPath(n.path, c.path)
    {
      WellFormedChild(n, c);
    }
  }

  ghost predicate Fit(a: Node, b: Node) {
    WellFormed(a) && WellFormed(b) && a.path == b.path
  }

  ghost function Common(a: Node, b: Node): set<Path> {
    ChildMap(a.children).Keys * ChildMap(b.children).Keys
  }

  ghost function Only(a: Node, b: Node): set<Path> {
    ChildMap(a.children).Keys - ChildMap(b.children).Keys
  }

  ghost predicate AddsIn(a: Node, b: Node, keys: set<Path>, p: Path) {
    exists k :: k in keys && Has(a, k) && Has(b, k) && Adds(Child(a, k), Child(b, k), p)
  }

  ghost predicate ModifiesIn(a: Node, b: Node, keys: set<Path>, p: Path) {
    exists k :: k in keys && Has(a, k) && Has(b, k) && Modifies(Child(a, k), Child(b, k), p)
  }

  /** The additions with the common entries `keys` done; the deletions are those from `b` to `a`. */
  ghost predicate AddedSoFar(a: Node, b: Node, out: seq<Path>, keys: set<Path>) {
    && (forall p :: p in out <==> LeafBelow(ChildMap(b.children), Only(b, a), p) || AddsIn(a, b, keys, p))
    && (Fit(a, b) ==> Kept(out, Only(b, a) + keys))
  }

  ghost predicate ModifiedSoFar(a: Node, b: Node, out: seq<Path>, keys: set<Path>) {
    && (forall p :: p in out <==> ModifiesIn(a, b, keys, p))
    && (Fit(a, b) ==> Kept(out, keys))
  }

  lemma SoFarNone(a: Node, b: Node, out: seq<Path>)
    requires Collected(b, out, Only(b, a))
    ensures AddedSoFar(a, b, out, {}) && ModifiedSoFar(a, b, [], {})
  {
    assert Only(b, a) + {} == Only(b, a);
  }

  lemma FitBelow(a: Node, b: Node, k: Path)
    requires Fit(a, b) && Has(a, k) && Has(b, k)
    ensures Fit(Child(a, k), Child(b, k)) && k != "." && a.level != 0 && b.level != 0
    ensures forall l :: l in ChildMap(a.children).Keys + ChildMap(b.children).Keys ==> ChildPath(a.path, l)
  {
    EntriesArePaths(a);
    EntriesArePaths(b);
    DotIsNoChild(a.path, k);
  }

  lemma AddedMore(a: Node, b: Node, out: seq<Path>, keys: set<Path>, k: Path, sub: seq<Path>)
    requires AddedSoFar(a, b, out, keys) && keys <= Common(a, b) && Has(a, k) && Has(b, k) && k !in keys
    requires forall p :: p in sub <==> Adds(Child(a, k), Child(b, k), p)
    requires Fit(Child(a, k), Child(b, k)) ==> Distinct(sub)
    ensures AddedSoFar(a, b, out + sub, keys + {k})
  {
    hide Adds;
    hide Fit;
    hide Kept;
    hide LeafBelow;
    hide ChildMap;
    hide AddsIn;
    forall p
      ensures AddsIn(a, b, keys + {k}, p) <==> AddsIn(a, b, keys, p) || Adds(Child(a, k), Child(b, k), p)
    {
      AddsInMore(a, b, keys, k, p);
    }
    if Fit(a, b) {
      FitBelow(a, b, k);
      forall p | p in sub
        ensures Within(k, p)
      {
        AddsWithin(Child(a, k), Child(b, k), p);
      }
      KeptMore(a.path, out, Only(b, a) + keys, sub, k);
      assert Only(b, a) + keys + {k} == Only(b, a) + (keys + {k});
    }
  }

  lemma AddsInMore(a: Node, b: Node, keys: set<Path>, k: Path, p: Path)
    requires keys <= Common(a, b) && Has(a, k) && Has(b, k)
    ensures AddsIn(a, b, keys + {k}, p) <==> AddsIn(a, b, keys, p) || Adds(Child(a, k), Child(b, k), p)
  {
    hide Adds;
    hide ChildMap;
    assert k in keys + {k};
  }

  lemma AddsWithin(a: Node, b: Node, p: Path)
    requires Fit(a, b) && b.path != "." && (Adds(a, b, p) || Modifies(a, b, p))
    ensures Within(b.path, p)
  {
    hide Files;
    hide Adds;
    hide Modifies;
    Sound(a, b, p);
    FilesWithin(b, p);
  }

  lemma ModifiedMore(a: Node, b: Node, out: seq<Path>, keys: set<Path>, k: Path, sub: seq<Path>)
    requires ModifiedSoFar(a, b, out, keys) && keys <= Common(a, b) && Has(a, k) && Has(b, k) && k !in keys
    requires forall p :: p in sub <==> Modifies(Child(a, k), Child(b, k), p)
    requires Fit(Child(a, k), Child(b, k)) ==> Distinct(sub)
    ensures ModifiedSoFar(a, b, out + sub, keys + {k})
  {
    hide Modifies;
    hide Fit;
    hide Kept;
    hide ChildMap;
    forall p
      ensures ModifiesIn(a, b, keys + {k}, p) <==> ModifiesIn(a, b, keys, p) || Modifies(Child(a, k), Child(b, k), p)
    {
      assert k in keys + {k};
    }
    if Fit(a, b) {
      FitBelow(a, b, k);
      forall p | p in sub
        ensures Within(k, p)
      {
        AddsWithin(Child(a, k), Child(b, k), p);
      }
      KeptMore(a.path, out, keys, sub, k);
    }
  }

  /** Everything so far, with the common entries `keys` done. */
  ghost predicate SoFar(a: Node, b: Node, r: Changes, keys: set<Path>) {
    AddedSoFar(a, b, r.added, keys) && AddedSoFar(b, a, r.deleted, keys) && ModifiedSoFar(a, b, r.modified, keys)
  }

  /** Each list without repetitions, if the trees are well formed and at the same path. */
  ghost predicate EachOnce(r: Changes, a: Node, b: Node) {
    Fit(a, b) ==> Distinct(r.added) && Distinct(r.modified) && Distinct(r.deleted)
  }

  function Appended(r: Changes, sub: Changes): Changes {
    Changes(r.added + sub.added, r.modified + sub.modified, r.deleted + sub.deleted)
  }

  lemma SoFarMore(a: Node, b: Node, r: Changes, keys: set<Path>, k: Path, sub: Changes)
    requires SoFar(a, b, r, keys) && keys <= Common(a, b) && Has(a, k) && Has(b, k) && k !in keys
    requires Reports(sub, Child(a, k), Child(b, k)) && EachOnce(sub, Child(a, k), Child(b, k))
    ensures SoFar(a, b, Appended(r, sub), keys + {k})
  {
    hide AddedSoFar;
    hide ModifiedSoFar;
    hide Distinct;
    hide WellFormed;
    hide Adds;
    hide Modifies;
    AddedMore(a, b, r.added, keys, k, sub.added);
    AddedMore(b, a, r.deleted, keys, k, sub.deleted);
    ModifiedMore(a, b, r.modified, keys, k, sub.modified);
  }

  lemma SoFarAll(a: Node, b: Node, r: Changes)
    requires SoFar(a, b, r, Common(a, b)) && a.hash != b.hash && !(a.level == 0 && b.level == 0)
    ensures Reports(r, a, b) && EachOnce(r, a, b)
  {
    hide Leaves;
    hide WellFormed;
    hide ChildMap;
    assert Common(a, b) == Common(b, a);
    forall p
      ensures p in r.added <==> Adds(a, b, p)
      ensures p in r.deleted <==> Adds(b, a, p)
      ensures p in r.modified <==> Modifies(a, b, p)
    {
      AddsParts(a, b, p);
      AddsParts(b, a, p);
      ModifiesParts(a, b, p);
    }
  }

  lemma AddsParts(a: Node, b: Node, p: Path)
    requires a.hash != b.hash && !(a.level == 0 && b.level == 0)
    ensures Adds(a, b, p) <==> LeafBelow(ChildMap(b.children), Only(b, a), p) || AddsIn(a, b, Common(a, b), p)
  {
    hide Leaves;
    hide ChildMap;
    if Adds(a, b, p) {
      var k :| Has(b, k) && if Has(a, k) then Adds(Child(a, k), Child(b, k), p) else p in Leaves(Child(b, k));
      assert if Has(a, k) then k in Common(a, b) else k in Only(b, a);
    }
    if LeafBelow(ChildMap(b.children), Only(b, a), p) {
      var k :| k in Only(b, a) && k in ChildMap(b.children) && p in Leaves(ChildMap(b.children)[k]);
      assert Has(b, k) && !Has(a, k);
    }
    if AddsIn(a, b, Common(a, b), p) {
      var k :| k in Common(a, b) && Has(a, k) && Has(b, k) && Adds(Child(a, k), Child(b, k), p);
    }
  }

  lemma ModifiesParts(a: Node, b: Node, p: Path)
    requires a.hash != b.hash && !(a.level == 0 && b.level == 0)
    ensures Modifies(a, b, p) <==> ModifiesIn(a, b, Common(a, b), p)
  {
  }

  lemma NothingReported(a: Node, b: Node)
    requires a.hash == b.hash
    ensures Reports(Changes([], [], []), a, b) && EachOnce(Changes([], [], []), a, b)
  {
  }

  lemma OneModified(a: Node, b: Node)
    requires a.hash != b.hash && a.level == b.level == 0
    ensures Reports(Changes([], [a.path], []), a, b) && EachOnce(Changes([], [a.path], []), a, b)
  {
  }

  /** The three lists in their order: first what is below the entries of one node only, then, entry by
      entry, what differs below the common ones. */
  function DiffOf(a: Node, b: Node): Changes
    decreases a, |ChildMap(b.children).Keys| + 2
  {
    if a.hash == b.hash then Changes([], [], [])
    else if a.level == 0 && b.level == 0 then Changes([], [a.path], [])
    else DiffBelow(a, b, Sorted(ChildMap(b.children).Keys))
  }

  function DiffBelow(a: Node, b: Node, keys: seq<Path>): Changes
    requires forall k :: k in keys ==> Has(b, k)
    decreases a, |keys| + 1
  {
    var map1, map2 := ChildMap(a.children), ChildMap(b.children);
    if keys == [] then
      Changes(LeavesOnly(map2, map1, Sorted(map2.Keys)), [], LeavesOnly(map1, map2, Sorted(map1.Keys)))
    else
      var k, before := keys[|keys| - 1], DiffBelow(a, b, keys[..|keys| - 1]);
      if Has(a, k) then Appended(before, DiffOf(Child(a, k), Child(b, k))) else before
  }

  lemma DiffStep(a: Node, b: Node, keys: seq<Path>, i: nat)
    requires (forall k :: k in keys ==> Has(b, k)) && i < |keys|
    ensures DiffBelow(a, b, keys[..i + 1])
      == if Has(a, keys[i]) then Appended(DiffBelow(a, b, keys[..i]), DiffOf(Child(a, keys[i]), Child(b, keys[i])))
         else DiffBelow(a, b, keys[..i])
  {
    hide DiffOf;
    hide LeavesOnly;
    assert keys[..i + 1][..i] == keys[..i];
  }

  lemma DiffStart(a: Node, b: Node, keys: seq<Path>)
    requires forall k :: k in keys ==> k in ChildMap(b.children)
    ensures (forall k :: k in keys ==> Has(b, k)) && keys[..|keys|] == keys
    ensures var map1, map2 := ChildMap(a.children), ChildMap(b.children);
      DiffBelow(a, b, keys[..0])
        == Changes(LeavesOnly(map2, map1, Sorted(map2.Keys)), [], LeavesOnly(map1, map2, Sorted(map1.Keys)))
  {
    hide LeavesOnly;
  }

  lemma DiffEnd(a: Node, b: Node)
    ensures a.hash == b.hash ==> DiffOf(a, b) == Changes([], [], [])
    ensures a.hash != b.hash && a.level == 0 && b.level == 0 ==> DiffOf(a, b) == Changes([], [a.path], [])
    ensures a.hash != b.hash && !(a.level == 0 && b.level == 0) ==>
      (forall k :: k in Sorted(ChildMap(b.children).Keys) ==> Has(b, k))
      && DiffOf(a, b) == DiffBelow(a, b, Sorted(ChildMap(b.children).Keys))
  {
  }

  /** Reports exactly the additions, deletions and modifications that the pruned comparison finds, on
      well-formed trees each of them once, in the order of the traversal. */
  method Diff(a: Node, b: Node) returns (r: Changes)
    ensures Reports(r, a, b) && EachOnce(r, a, b)
    ensures r == DiffOf(a, b)
    decreases a
  {
    hide *;
    DiffEnd(a, b);
    if a.hash == b.hash {
      NothingReported(a, b);
      return Changes([], [], []);
    }
    if a.level == 0 && b.level == 0 {
      OneModified(a, b);
      return Changes([], [a.path], []);
    }
    var map1 := IndexChildren(a);
    var map2 := IndexChildren(b);
    var deleted := OnlyLeaves(a, map1, map2);
    var added := OnlyLeaves(b, map2, map1);
    r := Changes(added, [], deleted);
    StartSoFar(a, b, r);
    var keys := Sorted(map2.Keys);
    TakenAll(map2.Keys, Only(b, a));
    DiffStart(a, b, keys);
    for i := 0 to |keys|
      invariant SoFar(a, b, r, Taken(keys, i, Only(b, a)))
      invariant r == DiffBelow(a, b, keys[..i])
    {
      TakenStep(keys, i, Only(b, a));
      DiffStep(a, b, keys, i);
      var k := keys[i];
      assert k in keys;
      InOnly(a, b, k);
      if k in map1 {
        ChildIs(a, k);
        ChildIs(b, k);
        var sub := Changes([], [], []);
        if map1[k].hash == map2[k].hash {
          NothingReported(map1[k], map2[k]);
          DiffEnd(map1[k], map2[k]);
        } else {
          sub := Diff(map1[k], map2[k]);
        }
        TakenCommon(a, b, i);
        SoFarMore(a, b, r, Taken(keys, i, Only(b, a)), k, sub);
        r := Appended(r, sub);
      }
    }
    AllCommon(a, b);
    SoFarAll(a, b, r);
  }

  lemma StartSoFar(a: Node, b: Node, r: Changes)
    requires Collected(a, r.deleted, ChildMap(a.children).Keys - ChildMap(b.children).Keys)
    requires Collected(b, r.added, ChildMap(b.children).Keys - ChildMap(a.children).Keys) && r.modified == []
    ensures SoFar(a, b, r, {})
  {
    hide Collected;
    hide AddedSoFar;
    hide ModifiedSoFar;
    SoFarNone(a, b, r.added);
    SoFarNone(b, a, r.deleted);
  }

  lemma InOnly(a: Node, b: Node, k: Path)
    requires k in ChildMap(b.children)
    ensures k in Only(b, a) <==> k !in ChildMap(a.children)
    ensures Has(a, k) <==> k in ChildMap(a.children)
  {
  }

  lemma TakenCommon(a: Node, b: Node, i: nat)
    requires i <= |Sorted(ChildMap(b.children).Keys)|
    ensures Taken(Sorted(ChildMap(b.children).Keys), i, Only(b, a)) <= Common(a, b)
  {
    hide Sorted;
    TakenAll(ChildMap(b.children).Keys, Only(b, a));
  }

  lemma AllCommon(a: Node, b: Node)
    ensures ChildMap(b.children).Keys - Only(b, a) == Common(a, b)
  {
  }

  lemma {:induction false} ModifiesSymmetric(a: Node, b: Node, p: Path)
    requires a.path == b.path
    ensures Modifies(a, b, p) <==> Modifies(b, a, p)
    decreases a
  {
    hide ChildMap;
    forall k | Has(a, k) && Has(b, k)
      ensures Modifies(Child(a, k), Child(b, k), p) <==> Modifies(Child(b, k), Child(a, k), p)
    {
      ModifiesSymmetric(Child(a, k), Child(b, k), p);
    }
  }

  /** Comparing the other way round trades additions for deletions and leaves the modifications. */
  lemma SwapReports(a: Node, b: Node, r: Changes)
    requires a.path == b.path && Reports(r, a, b)
    ensures Reports(Changes(r.deleted, r.modified, r.added), b, a)
  {
    hide Adds;
    hide Modifies;
    forall p
      ensures Modifies(a, b, p) <==> Modifies(b, a, p)
    {
      ModifiesSymmetric(a, b, p);
    }
  }
}
