/** The diff of two scanned trees: exact if and only if no directory hides a change of files behind the
    same hashes of its entries. */
module ScannedDiff {
  import opened Base
  import opened SyncOps
  import opened Drives
  import opened Merkle
  import opened TreeHash
  import opened Scan

  /** Every hash has width `w`, and a directory's is the digest of its entries' ones. */
  ghost predicate HashTree(g: string -> Digest, w: nat, n: Node) {
    && |n.hash| == w && (n.level != 0 ==> n.hash == DirectoryHash(g, Hashes(n.children)))
    && forall i :: 0 <= i < |n.children| ==> HashTree(g, w, n.children[i])
  }

  /** What is digested for a directory. */
  function Digested(n: Node): string {
    Concat(SortStrings(Hashes(n.children)))
  }

  /** No two directories are confused through their digests, and none with a file. */
  ghost predicate Unmistaken(g: string -> Digest, a: Node, b: Node) {
    forall x, y :: NodeOf(a, x) && NodeOf(b, y) ==> Told(g, x, y)
  }

  ghost predicate Told(g: string -> Digest, x: Node, y: Node) {
    && (x.level != 0 && y.level != 0 && g(Digested(x)) == g(Digested(y)) ==> Digested(x) == Digested(y))
    && ((x.level == 0) != (y.level == 0) ==> x.hash != y.hash)
  }

  /** All the way down: where the entries of two directories have the same hashes, each as often, their
      files are the same; and nothing is a file on one side and a directory on the other. */
  ghost predicate NothingHidden(a: Node, b: Node)
    decreases a
  {
    if a.level == 0 || b.level == 0 then a.level == b.level
    else if multiset(Hashes(a.children)) == multiset(Hashes(b.children)) then Files(a) == Files(b)
    else forall k :: Has(a, k) && Has(b, k) ==> NothingHidden(Child(a, k), Child(b, k))
  }

  lemma ChildrenWide(g: string -> Digest, w: nat, n: Node)
    requires HashTree(g, w, n)
    ensures Wide(Hashes(n.children), w)
  {
  }

  lemma SameHashSameEntries(g: string -> Digest, w: nat, a: Node, b: Node)
    requires w > 0 && HashTree(g, w, a) && HashTree(g, w, b) && Told(g, a, b) && a.level != 0 && b.level != 0
    ensures a.hash == b.hash <==> multiset(Hashes(a.children)) == multiset(Hashes(b.children))
  {
    ChildrenWide(g, w, a);
    ChildrenWide(g, w, b);
    HashIsOfEntries(g, Hashes(a.children), Hashes(b.children), w);
  }

  lemma HashTreeChild(g: string -> Digest, w: nat, n: Node, k: Path)
    requires HashTree(g, w, n) && Has(n, k)
    ensures HashTree(g, w, Child(n, k))
  {
    var i :| 0 <= i < |n.children| && n.children[i] == Child(n, k);
  }

  lemma UnmistakenBelow(g: string -> Digest, a: Node, b: Node, k: Path)
    requires Unmistaken(g, a, b) && Has(a, k) && Has(b, k)
    ensures Unmistaken(g, Child(a, k), Child(b, k))
  {
    hide Told;
    forall x, y | NodeOf(Child(a, k), x) && NodeOf(Child(b, k), y)
      ensures Told(g, x, y)
    {
      NodeOfChild(a, Child(a, k), x);
      NodeOfChild(b, Child(b, k), y);
    }
  }

  lemma {:induction false} FaithfulMeansNothingHidden(g: string -> Digest, w: nat, a: Node, b: Node)
    requires w > 0 && HashTree(g, w, a) && HashTree(g, w, b) && Unmistaken(g, a, b) && a.path == b.path
    ensures Faithful(a, b) <==> NothingHidden(a, b)
    decreases a
  {
    hide HashTree;
    hide Unmistaken;
    hide FilesAll;
    hide Has;
    hide Child;
    ToldHere(g, a, b);
    if a.level != 0 && b.level != 0 {
      SameHashSameEntries(g, w, a, b);
      if a.hash != b.hash {
        forall k | Has(a, k) && Has(b, k)
          ensures Faithful(Child(a, k), Child(b, k)) <==> NothingHidden(Child(a, k), Child(b, k))
        {
          HashTreeChild(g, w, a, k);
          HashTreeChild(g, w, b, k);
          UnmistakenBelow(g, a, b, k);
          FaithfulMeansNothingHidden(g, w, Child(a, k), Child(b, k));
        }
      }
    }
  }

  lemma ToldHere(g: string -> Digest, a: Node, b: Node)
    requires Unmistaken(g, a, b)
    ensures Told(g, a, b)
  {
    hide Told;
    NodeOfSelf(a);
    NodeOfSelf(b);
  }

  /** On trees whose hashes come from their entries, the diff is exact if and only if nothing is hidden. */
  lemma ExactWhereNothingHidden(g: string -> Digest, w: nat, a: Node, b: Node)
    requires w > 0 && HashTree(g, w, a) && HashTree(g, w, b) && Unmistaken(g, a, b)
    requires WellFormed(a) && WellFormed(b) && a.path == b.path
    ensures Exact(a, b) <==> NothingHidden(a, b)
  {
    hide *;
    ExactWhereFaithful(a, b);
    FaithfulMeansNothingHidden(g, w, a, b);
  }

  /** A scan yields such trees, if digests have one width. */
  lemma {:induction false} BuildIsHashed(
    h: Bytes -> Digest, g: string -> Digest, w: nat, name: string, m: Manifest, p: Path, e: Item)
    requires SameWidth(h, g, w, m)
    ensures SameWidth(h, g, w, Build(h, g, name, m, p, e).1)
    ensures var n := Build(h, g, name, m, p, e).0; n.hash != "" ==> HashTree(g, w, n)
    decreases e, 1, 0
  {
    if !Hidden(name) && e.Dir? && e.listable {
      BuildAllIsHashed(h, g, w, m, p, e, Sorted(e.entries.Keys));
    }
  }

  /** All digests, those in the manifest included, have the width `w`, or are empty. */
  ghost predicate SameWidth(h: Bytes -> Digest, g: string -> Digest, w: nat, m: Manifest) {
    && (forall x :: |h(x)| == w) && (forall x :: |g(x)| == w)
    && forall p :: p in m ==> m[p].hash == "" || |m[p].hash| == w
  }

  lemma {:induction false} BuildAllIsHashed(
    h: Bytes -> Digest, g: string -> Digest, w: nat, m: Manifest, p: Path, e: Item, names: seq<string>)
    requires e.Dir? && (forall k :: k in names ==> k in e.entries) && SameWidth(h, g, w, m)
    ensures SameWidth(h, g, w, BuildAll(h, g, m, p, e, names).1)
    ensures forall i :: 0 <= i < |BuildAll(h, g, m, p, e, names).0| ==> HashTree(g, w, BuildAll(h, g, m, p, e, names).0[i])
    decreases e, 0, |names|
  {
    hide HashTree;
    hide SameWidth;
    if names != [] {
      var last := names[|names| - 1];
      BuildAllIsHashed(h, g, w, m, p, e, names[..|names| - 1]);
      var m1 := BuildAll(h, g, m, p, e, names[..|names| - 1]).1;
      BuildIsHashed(h, g, w, last, m1, Prefix(p) + last, e.entries[last]);
    }
  }

  /** Two scans, compared: the diff is exact if and only if nothing is hidden. */
  lemma ScansCompared(
    h: Bytes -> Digest, g: string -> Digest, w: nat,
    root: string, m: Manifest, e: Item, root': string, m': Manifest, e': Item)
    requires w > 0 && SameWidth(h, g, w, m) && SameWidth(h, g, w, m') && ValidNames(e) && ValidNames(e')
    requires e.Dir? && e'.Dir? && !Hidden(root) && !Hidden(root')
    requires Unmistaken(g, Build(h, g, root, m, ".", e).0, Build(h, g, root', m', ".", e').0)
    ensures var a, b := Build(h, g, root, m, ".", e).0, Build(h, g, root', m', ".", e').0;
      Exact(a, b) <==> NothingHidden(a, b)
  {
    hide Build;
    hide HashTree;
    hide Exact;
    hide NothingHidden;
    hide Unmistaken;
    WidthMeansNonEmpty(h, g, w, m);
    ScannedRoot(h, g, w, root, m, e);
    ScannedRoot(h, g, w, root', m', e');
    ExactWhereNothingHidden(g, w, Build(h, g, root, m, ".", e).0, Build(h, g, root', m', ".", e').0);
  }

  lemma WidthMeansNonEmpty(h: Bytes -> Digest, g: string -> Digest, w: nat, m: Manifest)
    requires w > 0 && SameWidth(h, g, w, m)
    ensures NeverEmpty(g)
  {
    assert forall x :: |g(x)| == w;
  }

  lemma ScannedRoot(h: Bytes -> Digest, g: string -> Digest, w: nat, root: string, m: Manifest, e: Item)
    requires w > 0 && SameWidth(h, g, w, m) && ValidNames(e) && e.Dir? && !Hidden(root)
    ensures var n := Build(h, g, root, m, ".", e).0; n.path == "." && WellFormed(n) && HashTree(g, w, n)
  {
    hide Build;
    hide HashTree;
    hide WellFormed;
    WidthMeansNonEmpty(h, g, w, m);
    BuildIsHashed(h, g, w, root, m, ".", e);
    BuildMeans(h, g, root, m, ".", e);
    RootHasHash(h, g, w, root, m, e);
  }

  lemma RootHasHash(h: Bytes -> Digest, g: string -> Digest, w: nat, root: string, m: Manifest, e: Item)
    requires w > 0 && SameWidth(h, g, w, m) && e.Dir? && !Hidden(root)
    ensures var n := Build(h, g, root, m, ".", e).0; n.path == "." && n.hash != ""
  {
    hide BuildAll;
  }
}
