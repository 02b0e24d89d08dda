/** What a scan means for the manifest: which paths are live afterwards, which vectors move, and when
    the manifest is fit for a sync. */
module ScanProperties {
  import opened Base
  import opened SyncOps
  import opened VersionVectors
  import opened Drives
  import opened Executor
  import opened Convergence
  import opened Merkle
  import opened Scan

  /** An entry after the scan and the tombstone pass, in terms of the entry before. */
  function Final(
    h: Bytes -> Digest, cached: Option<Meta>, seen: Option<FileItem>, driveId: DriveId): Option<Meta>
  {
    var entry := if seen.Some? then FileEntry(h, cached, seen.value) else cached;
    if entry.None? then None
    else Some(SweptEntry(entry.value, seen.Some? && FileHash(h, cached, seen.value) != "", driveId))
  }

  /** The scan of a mounted directory whose name is not hidden, path by path. */
  lemma ScannedEntry(
    h: Bytes -> Digest, g: string -> Digest, root: string, m: Manifest, e: Item, driveId: DriveId, p: Path)
    requires ValidNames(e) && NeverEmpty(g) && e.Dir? && !Hidden(root)
    ensures var seen := Visible(root, ".", e);
      Lookup(Scanned(h, g, root, m, e, driveId), p) == Final(h, Lookup(m, p), Lookup(seen, p), driveId)
    ensures var seen := Visible(root, ".", e);
      p in Leaves(Build(h, g, root, m, ".", e).0) <==> p in seen && FileHash(h, Lookup(m, p), seen[p]) != ""
  {
    hide Build;
    hide Visible;
    hide FileHash;
    hide FileEntry;
    hide SweptEntry;
    hide Leaves;
    hide Files;
    BuildMeans(h, g, root, m, ".", e);
    DirectoryHasHash(h, g, root, m, ".", e);
    LeavesAreFiles(Build(h, g, root, m, ".", e).0);
    var m1, seen := Build(h, g, root, m, ".", e).1, Visible(root, ".", e);
    assert Lookup(m1, p) == if p in seen then FileEntry(h, Lookup(m, p), seen[p]) else Lookup(m, p);
  }

  lemma DirectoryHasHash(h: Bytes -> Digest, g: string -> Digest, name: string, m: Manifest, p: Path, e: Item)
    requires NeverEmpty(g) && e.Dir? && !Hidden(name)
    ensures Build(h, g, name, m, p, e).0.hash != ""
  {
    hide BuildAll;
  }

  /** After a scan, the live paths are exactly the leaves of the tree. */
  lemma LiveIsLeaf(
    h: Bytes -> Digest, g: string -> Digest, root: string, m: Manifest, e: Item, driveId: DriveId, p: Path)
    requires ValidNames(e) && NeverEmpty(g) && e.Dir? && !Hidden(root)
    ensures Live(Scanned(h, g, root, m, e, driveId), p) <==> p in Leaves(Build(h, g, root, m, ".", e).0)
  {
    hide Build;
    hide Visible;
    hide Scanned;
    hide Bumped;
    hide Leaves;
    ScannedEntry(h, g, root, m, e, driveId, p);
    InLookup(Scanned(h, g, root, m, e, driveId), p);
  }

  lemma InLookup(m: Manifest, p: Path)
    ensures Live(m, p) <==> Lookup(m, p).Some? && !Lookup(m, p).value.tombstone
  {
  }

  /** Below a mount point with a hidden name nothing is scanned, and every live path is tombstoned. */
  lemma HiddenRootLosesAll(
    h: Bytes -> Digest, g: string -> Digest, root: string, m: Manifest, e: Item, driveId: DriveId, p: Path)
    requires Hidden(root)
    ensures Live(Scanned(h, g, root, m, e, driveId), p) <==> p == "." && Live(m, p)
    ensures Scanned(h, g, root, m, e, driveId).Keys == m.Keys
  {
    hide Bumped;
  }

  /** A second scan of the unchanged drive gives the same tree and alters no entry. */
  lemma SecondScanIsIdle(
    h: Bytes -> Digest, g: string -> Digest, root: string, m: Manifest, e: Item, driveId: DriveId)
    requires ValidNames(e) && NeverEmpty(g) && e.Dir? && !Hidden(root) && forall x :: h(x) != ""
    ensures var m' := Scanned(h, g, root, m, e, driveId);
      && Scanned(h, g, root, m', e, driveId) == m'
      && Build(h, g, root, m', ".", e).0 == Build(h, g, root, m, ".", e).0
  {
    hide Build;
    hide Visible;
    hide Scanned;
    hide Leaves;
    var m' := Scanned(h, g, root, m, e, driveId);
    var m2 := Scanned(h, g, root, m', e, driveId);
    var seen := Visible(root, ".", e);
    forall p
      ensures Lookup(m2, p) == Lookup(m', p)
      ensures p in seen ==> FileHash(h, Lookup(m', p), seen[p]) == FileHash(h, Lookup(m, p), seen[p])
    {
      ScannedEntry(h, g, root, m, e, driveId, p);
      ScannedEntry(h, g, root, m', e, driveId, p);
      FinalIsFinal(h, Lookup(m, p), Lookup(seen, p), driveId);
    }
    SameMap(m2, m');
    assert SameHashes(h, m', m, seen);
    SameHashesSameTree(h, g, root, m', m, ".", e);
  }

  lemma FinalIsFinal(h: Bytes -> Digest, cached: Option<Meta>, seen: Option<FileItem>, driveId: DriveId)
    requires forall x :: h(x) != ""
    ensures var after := Final(h, cached, seen, driveId);
      && Final(h, after, seen, driveId) == after
      && (seen.Some? ==> FileHash(h, after, seen.value) == FileHash(h, cached, seen.value))
  {
    hide Bumped;
  }

  // ----- What is scanned ----------------------------------------------------------------------

  /** Following the names from `e`, through directories that can be listed and by no name that starts with a dot,
      leads to the file. */
  ghost predicate LeadsTo(e: Item, names: seq<string>, f: Item)
    decreases |names|
  {
    if names == [] then e == f && f.File?
    else
      && e.Dir? && e.listable && names[0] in e.entries && names[0] != "" && names[0][0] != '.'
      && LeadsTo(e.entries[names[0]], names[1..], f)
  }

  function Joined(names: seq<string>): Path {
    if names == [] then "" else if |names| == 1 then names[0] else names[0] + "/" + Joined(names[1..])
  }

  /** The path of what the names lead to from the directory at `p`. */
  function From(p: Path, names: seq<string>): Path {
    if names == [] then p else Prefix(p) + Joined(names)
  }

  lemma FromNext(p: Path, names: seq<string>)
    requires names != [] && Prefix(p) + names[0] != "."
    ensures From(p, names) == From(Prefix(p) + names[0], names[1..])
  {
    assert |names| == 1 ==> names[1..] == [];
  }

  /** The visible files are exactly those that some names lead to. */
  lemma {:induction false} VisibleFrom(name: string, p: Path, e: Item, q: Path, f: FileItem)
    requires ValidNames(e)
    ensures Lookup(Visible(name, p, e), q) == Some(f) <==>
      (name == "" || name[0] != '.') && exists names :: LeadsTo(e, names, f) && q == From(p, names)
    decreases e, 1, 0
  {
    if !Hidden(name) {
      if e.File? {
        assert LeadsTo(e, [], e) && From(p, []) == p;
      } else if e.Dir? && e.listable {
        VisibleFromAll(p, e, Sorted(e.entries.Keys), q, f);
        DirLeadsOn(p, e, q, f);
      }
    }
  }

  ghost predicate LeadsBy(p: Path, e: Item, k: string, names: seq<string>, q: Path, f: FileItem)
    requires e.Dir? && k in e.entries
  {
    k != "" && k[0] != '.' && LeadsTo(e.entries[k], names, f) && q == From(Prefix(p) + k, names)
  }

  lemma DirLeadsOn(p: Path, e: Item, q: Path, f: FileItem)
    requires e.Dir? && e.listable && ValidNames(e)
    ensures (exists names :: LeadsTo(e, names, f) && q == From(p, names))
      <==> exists k, names :: k in e.entries && LeadsBy(p, e, k, names, q, f)
  {
    if names :| LeadsTo(e, names, f) && q == From(p, names) {
      EntryPath(p, names[0]);
      FromNext(p, names);
      assert LeadsBy(p, e, names[0], names[1..], q, f);
    }
    if k, names :| k in e.entries && LeadsBy(p, e, k, names, q, f) {
      EntryPath(p, k);
      FromNext(p, [k] + names);
      assert ([k] + names)[1..] == names;
      assert LeadsTo(e, [k] + names, f);
    }
  }

  lemma {:induction false} VisibleFromAll(p: Path, e: Item, names: seq<string>, q: Path, f: FileItem)
    requires e.Dir? && ValidNames(e) && (forall k :: k in names ==> k in e.entries)
    requires forall i, j :: 0 <= i < j < |names| ==> names[i] != names[j]
    ensures Lookup(VisibleAll(p, e, names), q) == Some(f)
      <==> exists k, on :: k in names && LeadsBy(p, e, k, on, q, f)
    decreases e, 0, |names|
  {
    hide Visible;
    hide From;
    if names != [] {
      var front, last := names[..|names| - 1], names[|names| - 1];
      assert last in names && forall k :: k in names <==> k in front || k == last;
      VisibleFromAll(p, e, front, q, f);
      VisibleFrom(last, Prefix(p) + last, e.entries[last], q, f);
      VisibleApart(p, e, names);
      var a, b := VisibleAll(p, e, front), Visible(last, Prefix(p) + last, e.entries[last]);
      assert Lookup(a + b, q) == Some(f) <==> Lookup(a, q) == Some(f) || Lookup(b, q) == Some(f);
      ByEntry(p, e, last, q, f);
    }
  }

  lemma ByEntry(p: Path, e: Item, k: string, q: Path, f: FileItem)
    requires e.Dir? && k in e.entries
    ensures (exists on :: LeadsBy(p, e, k, on, q, f))
      <==> k != "" && k[0] != '.' && exists on :: LeadsTo(e.entries[k], on, f) && q == From(Prefix(p) + k, on)
  {
    hide LeadsTo;
    hide From;
    hide Prefix;
    if k != "" && k[0] != '.' {
      if on :| LeadsTo(e.entries[k], on, f) && q == From(Prefix(p) + k, on) {
        assert LeadsBy(p, e, k, on, q, f);
      }
    }
  }

  /** What a scan of a mounted directory sees: the files that can be reached through directories that can be listed,
      under no name that starts with a dot, each at its path below the mount point. */
  lemma VisibleExactly(root: string, e: Item, p: Path, f: FileItem)
    requires ValidNames(e) && e.Dir?
    ensures Lookup(Visible(root, ".", e), p) == Some(f) <==>
      (root == "" || root[0] != '.') && exists names :: names != [] && LeadsTo(e, names, f) && p == Joined(names)
  {
    hide Visible;
    VisibleFrom(root, ".", e, p, f);
    forall names | LeadsTo(e, names, f)
      ensures names != [] && From(".", names) == Joined(names)
    {
    }
  }

  // ----- Entry by entry -----------------------------------------------------------------------

  /** The recorded digest can be trusted: neither the size nor the modification time has changed. */
  predicate UpToDate(m: Manifest, p: Path, f: FileItem) {
    p in m && m[p].hash != "" && m[p].size == f.size && m[p].mtime == f.mtime
  }

  /** The vector with one tick more of the drive's clock, modulo 2^64. */
  function Ticked(vv: Clocks, d: DriveId): Clocks {
    vv[d := ((if d in vv then vv[d] else 0) + 1) % TWO_64]
  }

  /** A live entry has become a tombstone under a new clock; nothing else has changed. */
  predicate IsGone(m: Manifest, m': Manifest, p: Path, d: DriveId) {
    Lookup(m', p) ==
      if p !in m then None
      else if m[p].tombstone then Some(m[p])
      else Some(m[p].(tombstone := true, vv := Ticked(m[p].vv, d)))
  }

  /** What a scan makes of an entry: an up-to-date one is live and else as it was; a readable file that has none is
      recorded with the digest of its contents, its size and its time, live; every other path is gone. */
  predicate ScannedAt(
    h: Bytes -> Digest, m: Manifest, m': Manifest, p: Path, seen: map<Path, FileItem>, d: DriveId)
  {
    if p !in seen || !seen[p].stat then IsGone(m, m', p, d)
    else if UpToDate(m, p, seen[p]) then Lookup(m', p) == Some(m[p].(tombstone := false))
    else if !seen[p].readable then IsGone(m, m', p, d)
    else
      var before := if p in m then m[p] else Meta("", 0, 0, map[], false, false, None);
      Lookup(m', p) == Some(before.(
        hash := h(seen[p].content), size := seen[p].size, mtime := seen[p].mtime, tombstone := false))
  }

  /** A scan, entry by entry; and the tree has at each leaf the digest that its entry records. */
  lemma EntriesScanned(
    h: Bytes -> Digest, g: string -> Digest, root: string, m: Manifest, e: Item, driveId: DriveId, p: Path)
    requires ValidNames(e) && NeverEmpty(g) && e.Dir? && !Hidden(root) && forall x :: h(x) != ""
    ensures ScannedAt(h, m, Scanned(h, g, root, m, e, driveId), p, Visible(root, ".", e), driveId)
    ensures var files, m' := Files(Build(h, g, root, m, ".", e).0), Scanned(h, g, root, m, e, driveId);
      p in files ==> p in m' && files[p] == m'[p].hash
  {
    hide Build;
    hide Visible;
    hide Scanned;
    hide Leaves;
    hide Files;
    hide Bumped;
    var m' := Scanned(h, g, root, m, e, driveId);
    ScannedEntry(h, g, root, m, e, driveId, p);
    if p in m {
      TickedIsBumped(m[p].vv, driveId);
    }
    LeafDigest(h, g, root, m, e, driveId, p);
  }

  lemma TickedIsBumped(vv: Clocks, d: DriveId)
    ensures Bumped(vv, d) == Ticked(vv, d)
  {
    BumpedClocks(vv, d);
  }

  lemma LeafDigest(
    h: Bytes -> Digest, g: string -> Digest, root: string, m: Manifest, e: Item, driveId: DriveId, p: Path)
    requires ValidNames(e) && NeverEmpty(g) && e.Dir? && !Hidden(root) && forall x :: h(x) != ""
    ensures var files, m' := Files(Build(h, g, root, m, ".", e).0), Scanned(h, g, root, m, e, driveId);
      p in files ==> p in m' && files[p] == m'[p].hash
  {
    hide Build;
    hide Visible;
    hide Scanned;
    hide Leaves;
    hide Files;
    hide Bumped;
    ScannedEntry(h, g, root, m, e, driveId, p);
    BuildMeans(h, g, root, m, ".", e);
    DirectoryHasHash(h, g, root, m, ".", e);
  }

  // ----- Vectors ------------------------------------------------------------------------------

  /** A scan moves the vector of a path only by tombstoning it, and then by one tick of its own drive's
      clock; changed contents are recorded under the old vector. */
  lemma ScannedVector(
    h: Bytes -> Digest, g: string -> Digest, root: string, m: Manifest, e: Item, driveId: DriveId, p: Path)
    requires ValidNames(e) && NeverEmpty(g) && e.Dir? && !Hidden(root) && forall x :: h(x) != ""
    ensures var m' := Scanned(h, g, root, m, e, driveId);
      && (p in m ==> p in m')
      && (p in m' ==> var vv := if p in m then m[p].vv else map[];
            m'[p].vv == if Live(m, p) && !Live(m', p) then Ticked(vv, driveId) else vv)
  {
    hide Build;
    hide Visible;
    hide Scanned;
    hide Bumped;
    hide Leaves;
    var m' := Scanned(h, g, root, m, e, driveId);
    if p in m {
      TickedIsBumped(m[p].vv, driveId);
    }
    ScannedEntry(h, g, root, m, e, driveId, p);
    InLookup(m', p);
    InLookup(m, p);
  }

  function Contents(seen: map<Path, FileItem>): map<Path, Bytes> {
    map p | p in seen :: seen[p].content
  }

  /** A scan leaves the manifest matching the drive's visible files, ready for a sync, exactly if every
      file was hashed, or taken from the cache, to the digest of its contents. */
  lemma ScanMakesMatch(
    h: Bytes -> Digest, g: string -> Digest, root: string, m: Manifest, e: Item, driveId: DriveId)
    requires ValidNames(e) && NeverEmpty(g) && e.Dir? && !Hidden(root) && forall x :: h(x) != ""
    ensures var seen := Visible(root, ".", e);
      Matches(h, Replica(Contents(seen), Scanned(h, g, root, m, e, driveId)))
      <==> forall p :: p in seen ==> FileHash(h, Lookup(m, p), seen[p]) == h(seen[p].content)
  {
    hide Build;
    hide Visible;
    hide Scanned;
    hide Leaves;
    hide Bumped;
    var seen, m' := Visible(root, ".", e), Scanned(h, g, root, m, e, driveId);
    forall p
      ensures p !in seen ==> !Live(m', p)
      ensures p in seen ==> (FileHash(h, Lookup(m, p), seen[p]) == h(seen[p].content)
        <==> Live(m', p) && m'[p].hash == h(seen[p].content))
    {
      ScannedEntry(h, g, root, m, e, driveId, p);
      InLookup(m', p);
    }
    if Matches(h, Replica(Contents(seen), m')) {
      forall p | p in seen
        ensures Live(m', p) && m'[p].hash == h(seen[p].content)
      {
        assert p in Contents(seen);
      }
    }
  }
}
