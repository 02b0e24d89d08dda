/** The operations a sync plan is made of, and the paths they work on. */
module SyncOps {
  import opened Base
  import opened VersionVectors

  type DriveId = string
  type Path = string

  datatype OpKind = COPY | REPLACE | REMOVE | RENAME | MKDIR

  datatype SyncOp = SyncOp(
    kind: OpKind, source: DriveId, target: DriveId, path: Path, newPath: Option<Path>, vv: Clocks)
  {
    function Key(): (DriveId, Path) {
      (target, path)
    }
  }

  function MkDir(target: DriveId, dir: Path): SyncOp {
    SyncOp(MKDIR, "", target, dir, None, map[])
  }

  /** The position of the last `/`, counted from one; zero when there is none. */
  function LastSlash(p: Path): (k: nat)
    ensures k <= |p|
    ensures k > 0 ==> p[k - 1] == '/' && '/' !in p[k..]
    ensures k == 0 ==> '/' !in p
  {
    if p == "" then 0
    else if p[|p| - 1] == '/' then |p|
    else
      var k := LastSlash(p[..|p| - 1]);
      assert p == p[..|p| - 1] + [p[|p| - 1]];
      assert k > 0 ==> p[k..] == p[..|p| - 1][k..] + [p[|p| - 1]];
      k
  }

  function ParentDir(p: Path): (d: Path)
    ensures |d| < |p| || d == p == ""
  {
    if LastSlash(p) == 0 then "" else p[..LastSlash(p) - 1]
  }

  /** The directories above a path, nearest first. */
  function AncestorDirs(p: Path): seq<Path>
    decreases |p|
  {
    var d := ParentDir(p);
    if d == "" then [] else [d] + AncestorDirs(d)
  }

  method CollectAncestorDirs(p: Path) returns (dirs: seq<Path>)
    ensures dirs == AncestorDirs(p)
    ensures forall d :: d in dirs <==> d != "" && |d| < |p| && p[..|d|] == d && p[|d|] == '/'
    ensures forall i, j :: 0 <= i < j < |dirs| ==> |dirs[i]| > |dirs[j]|
  {
    dirs := [];
    var cur := ParentDir(p);
    while cur != ""
      invariant AncestorDirs(p) == dirs + (if cur == "" then [] else [cur] + AncestorDirs(cur))
      decreases |cur|
    {
      dirs := dirs + [cur];
      cur := ParentDir(cur);
    }
    forall d
      ensures d in dirs <==> d != "" && |d| < |p| && p[..|d|] == d && p[|d|] == '/'
    {
      AncestorsExactly(p, d);
    }
    AncestorsShorten(p);
  }

  /** `p` lies strictly below the directory `dir`. */
  predicate Below(dir: Path, p: Path) {
    |p| > |dir| + 1 && p[..|dir|] == dir && p[|dir|] == '/'
  }

  predicate EndsInSlash(p: Path) {
    p != "" && p[|p| - 1] == '/'
  }

  /** Every listed ancestor of a path that does not end in a slash has that path below it. */
  lemma {:induction false} AncestorsAreAbove(p: Path, d: Path)
    requires d in AncestorDirs(p)
    ensures d != "" && |d| < |p| && p[..|d|] == d && p[|d|] == '/'
    ensures !EndsInSlash(p) ==> Below(d, p)
    decreases |p|
  {
    var q := ParentDir(p);
    if d != q {
      AncestorsAreAbove(q, d);
      assert p[..|d|] == q[..|d|];
      assert p[|d|] == q[|d|];
    }
  }

  /** The directories above a path are exactly its beginnings before a slash, the empty one left out. */
  lemma {:induction false} AncestorsExactly(p: Path, d: Path)
    ensures d in AncestorDirs(p) <==> d != "" && |d| < |p| && p[..|d|] == d && p[|d|] == '/'
    decreases |p|
  {
    if d in AncestorDirs(p) {
      AncestorsAreAbove(p, d);
    } else if d != "" && |d| < |p| && p[..|d|] == d && p[|d|] == '/' {
      var q := ParentDir(p);
      assert |d| <= |q| && q[..|d|] == d;
      assert |d| == |q| ==> d == q;
      assert |d| < |q| ==> q[|d|] == p[|d|];
      AncestorsExactly(q, d);
    }
  }

  /** They are listed from the longest to the shortest. */
  lemma {:induction false} AncestorsShorten(p: Path)
    ensures forall i, j :: 0 <= i < j < |AncestorDirs(p)| ==> |AncestorDirs(p)[i]| > |AncestorDirs(p)[j]|
    decreases |p|
  {
    var q := ParentDir(p);
    if q != "" {
      AncestorsShorten(q);
      forall j | 0 <= j < |AncestorDirs(q)|
        ensures |AncestorDirs(q)[j]| < |q|
      {
        AncestorsAreAbove(q, AncestorDirs(q)[j]);
      }
    }
  }

  /** A directory of a path's ancestor is one of the path's ancestors too. */
  lemma {:induction false} AncestorsChain(p: Path, d: Path, e: Path)
    requires d in AncestorDirs(p) && e in AncestorDirs(d)
    ensures e in AncestorDirs(p)
    decreases |p|
  {
    var q := ParentDir(p);
    if d != q {
      AncestorsChain(q, d, e);
    }
  }
}
