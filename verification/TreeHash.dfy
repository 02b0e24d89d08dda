/** The hash of a directory: the sorted hashes of its entries, one after the other. */
module TreeHash {
  import opened Base
  import opened SyncOps
  import opened Merkle

  /** Never a greater string before a smaller one. */
  ghost predicate Ordered(s: seq<string>) {
    forall i, j :: 0 <= i < j < |s| ==> !Less(s[j], s[i])
  }

  function Insert(x: string, s: seq<string>): (r: seq<string>)
    ensures multiset(r) == multiset(s) + multiset{x}
  {
    if s == [] || !Less(s[0], x) then [x] + s
    else
      assert s == [s[0]] + s[1..];
      [s[0]] + Insert(x, s[1..])
  }

  /** What `std::sort` makes of a vector of strings. */
  function SortStrings(s: seq<string>): (r: seq<string>)
    ensures multiset(r) == multiset(s)
  {
    if s == [] then []
    else
      assert s == [s[0]] + s[1..];
      Insert(s[0], SortStrings(s[1..]))
  }

  lemma NotLessTransitive(a: string, b: string, c: string)
    requires !Less(b, a) && !Less(c, b)
    ensures !Less(c, a)
  {
    LessTotal(a, b);
    LessTotal(b, c);
    LessTotal(a, c);
    if Less(a, b) && Less(b, c) {
      LessTransitive(a, b, c);
    }
  }

  lemma {:induction false} InsertOrdered(x: string, s: seq<string>)
    requires Ordered(s)
    ensures Ordered(Insert(x, s))
  {
    var r := Insert(x, s);
    LessTotal(x, x);
    if s == [] || !Less(s[0], x) {
      forall i, j | 0 <= i < j < |r|
        ensures !Less(r[j], r[i])
      {
        if i == 0 && j > 1 {
          NotLessTransitive(x, s[0], s[j - 1]);
        }
      }
    } else {
      InsertOrdered(x, s[1..]);
      LessTotal(s[0], x);
      forall j | 0 < j < |r|
        ensures !Less(r[j], r[0])
      {
        assert r[j] in multiset(Insert(x, s[1..]));
        if r[j] != x {
          assert r[j] in s[1..];
        }
      }
    }
  }

  lemma {:induction false} SortOrders(s: seq<string>)
    ensures Ordered(SortStrings(s))
  {
    if s != [] {
      SortOrders(s[1..]);
      InsertOrdered(s[0], SortStrings(s[1..]));
    }
  }

  lemma SameHead(s: seq<string>, t: seq<string>)
    requires Ordered(s) && Ordered(t) && multiset(s) == multiset(t) && s != [] && t != []
    ensures s[0] == t[0]
  {
    assert s[0] in multiset(t) && t[0] in multiset(s);
    var i :| 0 <= i < |t| && t[i] == s[0];
    var j :| 0 <= j < |s| && s[j] == t[0];
    LessTotal(s[0], t[0]);
  }

  lemma Tail(s: seq<string>)
    requires Ordered(s) && s != []
    ensures Ordered(s[1..]) && multiset(s[1..]) == multiset(s) - multiset{s[0]} && s == [s[0]] + s[1..]
  {
    assert s == [s[0]] + s[1..];
  }

  lemma {:induction false} OrderedUnique(s: seq<string>, t: seq<string>)
    requires Ordered(s) && Ordered(t) && multiset(s) == multiset(t)
    ensures s == t
  {
    hide Ordered;
    assert |s| == |multiset(s)| == |multiset(t)| == |t|;
    if s != [] {
      SameHead(s, t);
      Tail(s);
      Tail(t);
      OrderedUnique(s[1..], t[1..]);
    }
  }

  function Concat(s: seq<string>): string {
    if s == [] then "" else Concat(s[..|s| - 1]) + s[|s| - 1]
  }

  function DirectoryHash(g: string -> Digest, hashes: seq<Digest>): Digest {
    g(Concat(SortStrings(hashes)))
  }

  method ComputeDirectoryHash(g: string -> Digest, childHashes: seq<Digest>) returns (hash: Digest)
    ensures hash == DirectoryHash(g, childHashes)
  {
    var sorted := SortStrings(childHashes);
    var concatenated := "";
    for i := 0 to |sorted|
      invariant concatenated == Concat(sorted[..i])
    {
      assert sorted[..i + 1][..i] == sorted[..i];
      concatenated := concatenated + sorted[i];
    }
    assert sorted[..|sorted|] == sorted;
    return g(concatenated);
  }

  predicate Wide(s: seq<string>, w: nat) {
    forall i :: 0 <= i < |s| ==> |s[i]| == w
  }

  lemma {:induction false} ConcatLength(s: seq<string>, w: nat)
    requires Wide(s, w)
    ensures |Concat(s)| == w * |s|
  {
    if s != [] {
      ConcatLength(s[..|s| - 1], w);
      OneMore(w, |s| - 1);
    }
  }

  lemma OneMore(w: nat, n: nat)
    ensures w * (n + 1) == w * n + w
  {
  }

  lemma Grows(w: nat, m: nat, n: nat)
    requires w > 0 && m < n
    ensures w * m < w * n
  {
    assert w * n == w * m + w * (n - m);
    assert w * (n - m) > 0;
  }

  lemma SameFactor(w: nat, m: nat, n: nat)
    requires w > 0 && w * m == w * n
    ensures m == n
  {
    if m < n {
      Grows(w, m, n);
    } else if n < m {
      Grows(w, n, m);
    }
  }

  /** Strings of one width can be told apart again. */
  lemma {:induction false} ConcatInjective(s: seq<string>, t: seq<string>, w: nat)
    requires w > 0 && Wide(s, w) && Wide(t, w) && Concat(s) == Concat(t)
    ensures s == t
  {
    ConcatLength(s, w);
    ConcatLength(t, w);
    SameFactor(w, |s|, |t|);
    if s != [] {
      var m := |s| - 1;
      ConcatLength(s[..m], w);
      ConcatLength(t[..m], w);
      SplitAt(Concat(s[..m]), s[m], Concat(t[..m]), t[m]);
      ConcatInjective(s[..m], t[..m], w);
      assert s == s[..m] + [s[m]] && t == t[..m] + [t[m]];
    }
  }

  lemma SplitAt(a: string, x: string, b: string, y: string)
    requires a + x == b + y && |a| == |b|
    ensures a == b && x == y
  {
    assert a == (a + x)[..|a|] && b == (b + y)[..|b|];
    assert x == (a + x)[|a|..] && y == (b + y)[|b|..];
  }

  /** A directory's hash stands for the hashes of its entries, each as often as it occurs: for neither
      their order nor their names. */
  lemma HashIsOfEntries(g: string -> Digest, s: seq<Digest>, t: seq<Digest>, w: nat)
    requires w > 0 && Wide(s, w) && Wide(t, w)
    requires var x, y := Concat(SortStrings(s)), Concat(SortStrings(t)); g(x) == g(y) ==> x == y
    ensures DirectoryHash(g, s) == DirectoryHash(g, t) <==> multiset(s) == multiset(t)
  {
    var a, b := SortStrings(s), SortStrings(t);
    SortOrders(s);
    SortOrders(t);
    if multiset(s) == multiset(t) {
      OrderedUnique(a, b);
    }
    if Concat(a) == Concat(b) {
      SortedWide(s, w);
      SortedWide(t, w);
      ConcatInjective(a, b, w);
    }
  }

  lemma SortedWide(s: seq<string>, w: nat)
    requires Wide(s, w)
    ensures Wide(SortStrings(s), w)
  {
    var r := SortStrings(s);
    forall i | 0 <= i < |r|
      ensures |r[i]| == w
    {
      assert r[i] in multiset(s);
    }
  }

  /** Two files trade contents: the directory's hash stays, and the diff sees nothing. */
  lemma TradedContentsAreMissed(g: string -> Digest, x: Digest, y: Digest, r: Changes)
    requires x != y
    ensures var a, b := Pair(g, x, y), Pair(g, y, x);
      && WellFormed(a) && WellFormed(b) && Modified(a, b, "p") && Modified(a, b, "q")
      && (Reports(r, a, b) ==> r == Changes([], [], []))
  {
    hide WellFormed;
    hide Files;
    hide SortStrings;
    var a, b := Pair(g, x, y), Pair(g, y, x);
    SameHash(g, x, y);
    PairFiles(g, x, y);
    PairFiles(g, y, x);
    if Reports(r, a, b) {
      FirstElement(r.added);
      FirstElement(r.modified);
      FirstElement(r.deleted);
    }
  }

  lemma SameHash(g: string -> Digest, x: Digest, y: Digest)
    ensures DirectoryHash(g, [x, y]) == DirectoryHash(g, [y, x])
  {
    hide SortStrings;
    SortOrders([x, y]);
    SortOrders([y, x]);
    assert multiset([x, y]) == multiset([y, x]);
    OrderedUnique(SortStrings([x, y]), SortStrings([y, x]));
  }

  lemma FirstElement(s: seq<Path>)
    ensures s == [] || s[0] in s
  {
  }

  function Pair(g: string -> Digest, x: Digest, y: Digest): Node {
    Node(".", DirectoryHash(g, [x, y]), 1, [Node("p", x, 0, []), Node("q", y, 0, [])])
  }

  lemma PairFiles(g: string -> Digest, x: Digest, y: Digest)
    ensures WellFormed(Pair(g, x, y)) && Files(Pair(g, x, y)) == map["p" := x, "q" := y]
  {
    hide DirectoryHash;
    var n := Pair(g, x, y);
    var c, d := n.children[0], n.children[1];
    assert Prefix(".") == "";
    assert "p"[0..] == "p" && "q"[0..] == "q";
    assert n.children[..1] == [c] && [c][..0] == [];
    assert FilesAll([c]) == Files(c) == map["p" := x];
    assert FilesAll([c, d]) == FilesAll([c]) + Files(d);
  }
}
