/** Scanning a drive: building its tree with the manifest as a cache of hashes, then tombstoning what
    is no longer there. */
module Scan {
  import opened Base
  import opened SyncOps
  import opened VersionVectors
  import opened Drives
  import opened Merkle
  import opened TreeHash

  /** What the file system has at a path. A file may refuse its attributes (`stat`) or its bytes. */
  datatype Item =
    | File(size: u64, mtime: u64, content: Bytes, stat: bool, readable: bool)
    | Dir(entries: map<string, Item>, listable: bool)
    | Other

  predicate Hidden(name: string) {
    name != "" && name[0] == '.'
  }

  /** File names are not empty and hold no slash. */
  ghost predicate ValidNames(e: Item) {
    e.Dir? ==> forall k :: k in e.entries ==> k != "" && '/' !in k && ValidNames(e.entries[k])
  }

  // ----- One file ---------------------------------------------------------------------------

  predicate Hit(cached: Option<Meta>, f: Item)
    requires f.File?
  {
    cached.Some? && cached.value.hash != "" && cached.value.size == f.size && cached.value.mtime == f.mtime
  }

  function FileHash(h: Bytes -> Digest, cached: Option<Meta>, f: Item): Digest
    requires f.File?
  {
    if !f.stat then ""
    else if Hit(cached, f) then cached.value.hash
    else if f.readable then h(f.content)
    else ""
  }

  function FileEntry(h: Bytes -> Digest, cached: Option<Meta>, f: Item): Option<Meta>
    requires f.File?
  {
    if !f.stat then cached
    else if Hit(cached, f) then Some(cached.value.(tombstone := false))
    else if f.readable then
      var base := if cached.Some? then cached.value else BLANK;
      Some(base.(hash := h(f.content), size := f.size, mtime := f.mtime, tombstone := false))
    else cached
  }

  function Stored(m: Manifest, p: Path, entry: Option<Meta>): Manifest {
    if entry.Some? then m[p := entry.value] else m
  }

  // ----- The tree ---------------------------------------------------------------------------

  /** The node at `p` and the manifest afterwards. */
  function Build(h: Bytes -> Digest, g: string -> Digest, name: string, m: Manifest, p: Path, e: Item): (Node, Manifest)
    decreases e, 1, 0
  {
    if Hidden(name) then (Node(p, "", 0, []), m)
    else match e
      case Other => (Node(p, "", 0, []), m)
      case File(_, _, _, _, _) =>
        var cached := Lookup(m, p);
        (Node(p, FileHash(h, cached, e), 0, []), Stored(m, p, FileEntry(h, cached, e)))
      case Dir(entries, listable) =>
        if !listable then (Node(p, DirectoryHash(g, []), 1, []), m)
        else
          var (children, m') := BuildAll(h, g, m, p, e, Sorted(entries.Keys));
          (Node(p, DirectoryHash(g, Hashes(children)), 1, children), m')
  }

  /** The nodes of the entries `names`, those without a hash left out. */
  function BuildAll(
    h: Bytes -> Digest, g: string -> Digest, m: Manifest, p: Path, e: Item, names: seq<string>): (seq<Node>, Manifest)
    requires e.Dir? && forall k :: k in names ==> k in e.entries
    decreases e, 0, |names|
  {
    if names == [] then ([], m)
    else
      var last := names[|names| - 1];
      var (before, m1) := BuildAll(h, g, m, p, e, names[..|names| - 1]);
      var (child, m2) := Build(h, g, last, m1, Prefix(p) + last, e.entries[last]);
      (if child.hash == "" then before else before + [child], m2)
  }

  function Hashes(s: seq<Node>): seq<Digest> {
    seq(|s|, i requires 0 <= i < |s| => s[i].hash)
  }

  lemma BuildAllStep(
    h: Bytes -> Digest, g: string -> Digest, m: Manifest, p: Path, e: Item, names: seq<string>, i: nat)
    requires e.Dir? && (forall k :: k in names ==> k in e.entries) && i < |names|
    ensures var (before, m1) := BuildAll(h, g, m, p, e, names[..i]);
      var (child, m2) := Build(h, g, names[i], m1, Prefix(p) + names[i], e.entries[names[i]]);
      BuildAll(h, g, m, p, e, names[..i + 1]) == (if child.hash == "" then before else before + [child], m2)
  {
    assert names[..i + 1][..i] == names[..i];
  }

  method ScanFile(h: Bytes -> Digest, p: Path, f: Item, store: Drive) returns (hash: Digest)
    requires f.File? && store.Valid()
    modifies store
    ensures store.Valid() && store.disk == old(store.disk) && store.log == old(store.log)
    ensures hash == FileHash(h, Lookup(old(store.manifest), p), f)
    ensures store.manifest == Stored(old(store.manifest), p, FileEntry(h, Lookup(old(store.manifest), p), f))
  {
    if !f.stat {
      return "";
    }
    var cached := store.GetFile(p);
    if cached.Some? && cached.value.hash != "" && cached.value.size == f.size && cached.value.mtime == f.mtime {
      if cached.value.tombstone {
        store.UpsertFile(p, cached.value.(tombstone := false));
      }
      return cached.value.hash;
    }
    if !f.readable {
      return "";
    }
    hash := h(f.content);
    var base := if cached.Some? then cached.value else BLANK;
    store.UpsertFile(p, base.(hash := hash, size := f.size, mtime := f.mtime, tombstone := false));
  }

  method BuildNode(h: Bytes -> Digest, g: string -> Digest, name: string, p: Path, e: Item, store: Drive)
    returns (node: Node)
    requires store.Valid()
    modifies store
    ensures store.Valid() && store.disk == old(store.disk) && store.log == old(store.log)
    ensures (node, store.manifest) == Build(h, g, name, old(store.manifest), p, e)
    decreases e, 1
  {
    hide BuildAll;
    hide FileHash;
    hide FileEntry;
    hide Sorted;
    hide DirectoryHash;
    node := Node(p, "", 0, []);
    if Hidden(name) || e.Other? {
      return;
    }
    if e.File? {
      var hash := ScanFile(h, p, e, store);
      return node.(hash := hash);
    }
    var children, hashes := [], [];
    if e.listable {
      children, hashes := BuildChildren(h, g, p, e, store);
    }
    var hash := ComputeDirectoryHash(g, hashes);
    return Node(p, hash, 1, children);
  }

  method BuildChildren(h: Bytes -> Digest, g: string -> Digest, p: Path, e: Item, store: Drive)
    returns (children: seq<Node>, hashes: seq<Digest>)
    requires store.Valid() && e.Dir?
    modifies store
    ensures store.Valid() && store.disk == old(store.disk) && store.log == old(store.log)
    ensures (children, store.manifest) == BuildAll(h, g, old(store.manifest), p, e, Sorted(e.entries.Keys))
    ensures hashes == Hashes(children)
    decreases e, 0
  {
    hide *;
    var names := Sorted(e.entries.Keys);
    children, hashes := [], [];
    ghost var m := store.manifest;
    BuildNone(h, g, m, p, e, names);
    for i := 0 to |names|
      invariant store.Valid() && store.disk == old(store.disk) && store.log == old(store.log)
      invariant (children, store.manifest) == BuildAll(h, g, m, p, e, names[..i])
      invariant hashes == Hashes(children)
    {
      BuildAllStep(h, g, m, p, e, names, i);
      assert names[i] in names;
      var name, entry := names[i], e.entries[names[i]];
      OtherIsNothing(h, g, name, store.manifest, Prefix(p) + name, entry);
      if !entry.Other? {
        var child := BuildNode(h, g, name, Prefix(p) + name, entry, store);
        if child.hash != "" {
          HashesAppend(children, child);
          children, hashes := children + [child], hashes + [child.hash];
        }
      }
    }
    assert names[..|names|] == names;
  }

  lemma BuildNone(h: Bytes -> Digest, g: string -> Digest, m: Manifest, p: Path, e: Item, names: seq<string>)
    requires e.Dir? && forall k :: k in names ==> k in e.entries
    ensures BuildAll(h, g, m, p, e, names[..0]) == ([], m) && Hashes([]) == []
  {
  }

  lemma OtherIsNothing(h: Bytes -> Digest, g: string -> Digest, name: string, m: Manifest, p: Path, e: Item)
    ensures e.Other? ==> Build(h, g, name, m, p, e).0.hash == "" && Build(h, g, name, m, p, e).1 == m
  {
  }

  lemma HashesAppend(s: seq<Node>, n: Node)
    ensures Hashes(s + [n]) == Hashes(s) + [n.hash]
  {
  }

  // ----- What a scan sees -------------------------------------------------------------------

  type FileItem = e: Item | e.File? witness File(0, 0, [], false, false)

  /** The files at or below `p` that are not hidden, by path. */
  function Visible(name: string, p: Path, e: Item): map<Path, FileItem>
    decreases e, 1, 0
  {
    if Hidden(name) then map[]
    else match e
      case Other => map[]
      case File(_, _, _, _, _) => map[p := e]
      case Dir(entries, listable) => if listable then VisibleAll(p, e, Sorted(entries.Keys)) else map[]
  }

  function VisibleAll(p: Path, e: Item, names: seq<string>): map<Path, FileItem>
    requires e.Dir? && forall k :: k in names ==> k in e.entries
    decreases e, 0, |names|
  {
    if names == [] then map[]
    else
      var last := names[|names| - 1];
      VisibleAll(p, e, names[..|names| - 1]) + Visible(last, Prefix(p) + last, e.entries[last])
  }

  lemma EntryPath(p: Path, k: string)
    requires k != "" && '/' !in k && !Hidden(k)
    ensures ChildPath(p, Prefix(p) + k) && Prefix(p) + k != "."
  {
    assert (Prefix(p) + k)[|Prefix(p)|..] == k;
    DotIsNoChild(p, Prefix(p) + k);
  }

  lemma {:induction false} VisibleWithin(name: string, p: Path, e: Item)
    requires ValidNames(e) && p != "."
    ensures forall q :: q in Visible(name, p, e) ==> Within(p, q)
    decreases e, 1, 0
  {
    if !Hidden(name) && e.Dir? && e.listable {
      VisibleAllWithin(p, e, Sorted(e.entries.Keys));
      assert Visible(name, p, e) == VisibleAll(p, e, Sorted(e.entries.Keys));
      forall q | q in Visible(name, p, e)
        ensures Within(p, q)
      {
        var k :| BelowEntry(p, Sorted(e.entries.Keys), k, q);
        NotTheDirectory(p, Prefix(p) + k, q);
      }
    }
  }

  ghost predicate BelowEntry(p: Path, names: seq<string>, k: string, q: Path) {
    k in names && !Hidden(k) && ChildPath(p, Prefix(p) + k) && Within(Prefix(p) + k, q)
  }

  lemma {:induction false} VisibleAllWithin(p: Path, e: Item, names: seq<string>)
    requires ValidNames(e) && e.Dir? && forall k :: k in names ==> k in e.entries
    ensures forall q :: q in VisibleAll(p, e, names) ==> exists k :: BelowEntry(p, names, k, q)
    decreases e, 0, |names|
  {
    if names != [] {
      var front, last := names[..|names| - 1], names[|names| - 1];
      VisibleAllWithin(p, e, front);
      assert last in names;
      if !Hidden(last) {
        EntryPath(p, last);
        VisibleWithin(last, Prefix(p) + last, e.entries[last]);
      }
      forall q | q in VisibleAll(p, e, names)
        ensures exists k :: BelowEntry(p, names, k, q)
      {
        if q in VisibleAll(p, e, front) {
          var k :| BelowEntry(p, front, k, q);
          assert BelowEntry(p, names, k, q);
        } else {
          assert q in Visible(last, Prefix(p) + last, e.entries[last]);
          assert BelowEntry(p, names, last, q);
        }
      }
    }
  }

  /** What different entries of a directory show does not overlap. */
  lemma VisibleApart(p: Path, e: Item, names: seq<string>)
    requires ValidNames(e) && e.Dir? && (forall k :: k in names ==> k in e.entries)
    requires names != [] && names[|names| - 1] !in names[..|names| - 1]
    ensures var last := names[|names| - 1];
      VisibleAll(p, e, names[..|names| - 1]).Keys !! Visible(last, Prefix(p) + last, e.entries[last]).Keys
  {
    hide Visible;
    hide VisibleAll;
    hide Sorted;
    var front, last := names[..|names| - 1], names[|names| - 1];
    VisibleAllWithin(p, e, front);
    assert last in names;
    if Hidden(last) {
      HiddenShowsNothing(last, Prefix(p) + last, e.entries[last]);
    } else {
      EntryPath(p, last);
      VisibleWithin(last, Prefix(p) + last, e.entries[last]);
      forall q | q in VisibleAll(p, e, front)
        ensures q !in Visible(last, Prefix(p) + last, e.entries[last])
      {
        var k :| BelowEntry(p, front, k, q);
        OneEntry(p, k, last, q);
      }
    }
  }

  lemma HiddenShowsNothing(name: string, p: Path, e: Item)
    requires Hidden(name)
    ensures Visible(name, p, e) == map[]
  {
  }

  lemma OneEntry(p: Path, k: string, l: string, q: Path)
    requires ChildPath(p, Prefix(p) + k) && ChildPath(p, Prefix(p) + l) && k != l && Within(Prefix(p) + k, q)
    ensures !Within(Prefix(p) + l, q)
  {
    if Within(Prefix(p) + l, q) {
      assert k == (Prefix(p) + k)[|Prefix(p)|..] && l == (Prefix(p) + l)[|Prefix(p)|..];
      WithinOneChild(p, Prefix(p) + k, Prefix(p) + l, q);
    }
  }

  // ----- What a scan does -------------------------------------------------------------------

  /** Every visible file has its own entry renewed from its own old one, and nothing else changes. */
  ghost predicate Renewed(h: Bytes -> Digest, m: Manifest, m': Manifest, seen: map<Path, FileItem>) {
    forall q :: Lookup(m', q) == if q in seen then FileEntry(h, Lookup(m, q), seen[q]) else Lookup(m, q)
  }

  /** `files` are the visible files that yielded a hash, with that hash. */
  ghost predicate Hashed(h: Bytes -> Digest, m: Manifest, files: map<Path, Digest>, seen: map<Path, FileItem>) {
    forall q ::
      && (q in files <==> q in seen && FileHash(h, Lookup(m, q), seen[q]) != "")
      && (q in files ==> files[q] == FileHash(h, Lookup(m, q), seen[q]))
  }

  lemma RenewedTwice(
    h: Bytes -> Digest, m: Manifest, m1: Manifest, m2: Manifest, a: map<Path, FileItem>, b: map<Path, FileItem>)
    requires Renewed(h, m, m1, a) && Renewed(h, m1, m2, b) && a.Keys !! b.Keys
    ensures Renewed(h, m, m2, a + b)
  {
    hide FileEntry;
  }

  lemma HashedBoth(
    h: Bytes -> Digest, m: Manifest, m1: Manifest, f: map<Path, Digest>, g: map<Path, Digest>,
    a: map<Path, FileItem>, b: map<Path, FileItem>)
    requires Renewed(h, m, m1, a) && Hashed(h, m, f, a) && Hashed(h, m1, g, b) && a.Keys !! b.Keys
    ensures Hashed(h, m, f + g, a + b)
  {
    hide FileEntry;
    hide FileHash;
  }

  ghost predicate NeverEmpty(g: string -> Digest) {
    forall x :: g(x) != ""
  }

  /** The nodes are well formed, of visible entries of `names`, no two alike. */
  ghost predicate Entries(p: Path, names: seq<string>, s: seq<Node>) {
    && (forall i :: 0 <= i < |s| ==> WellFormed(s[i]) && ChildPath(p, s[i].path))
    && (forall i :: 0 <= i < |s| ==> s[i].path[|Prefix(p)|..] in names)
    && (forall i, j :: 0 <= i < j < |s| ==> s[i].path != s[j].path)
  }

  /** The scan of a subtree: its manifest, and its tree unless the hash is empty. */
  lemma {:induction false} BuildMeans(
    h: Bytes -> Digest, g: string -> Digest, name: string, m: Manifest, p: Path, e: Item)
    requires ValidNames(e) && NeverEmpty(g)
    ensures var (node, m') := Build(h, g, name, m, p, e);
      && node.path == p && WellFormed(node)
      && Renewed(h, m, m', Visible(name, p, e))
      && (node.hash == "" ==> Hashed(h, m, map[], Visible(name, p, e)))
      && (node.hash != "" ==> !Hidden(name) && Hashed(h, m, Files(node), Visible(name, p, e)))
    decreases e, 1, 0
  {
    if !Hidden(name) && e.Dir? && e.listable {
      var names := Sorted(e.entries.Keys);
      BuildAllMeans(h, g, m, p, e, names);
    }
  }

  lemma {:induction false} BuildAllMeans(
    h: Bytes -> Digest, g: string -> Digest, m: Manifest, p: Path, e: Item, names: seq<string>)
    requires e.Dir? && ValidNames(e) && NeverEmpty(g) && (forall k :: k in names ==> k in e.entries)
    requires forall i, j :: 0 <= i < j < |names| ==> names[i] != names[j]
    ensures var (children, m') := BuildAll(h, g, m, p, e, names);
      && Entries(p, names, children)
      && Renewed(h, m, m', VisibleAll(p, e, names))
      && Hashed(h, m, FilesAll(children), VisibleAll(p, e, names))
    decreases e, 0, |names|
  {
    hide Build;
    hide Visible;
    hide Renewed;
    hide Hashed;
    hide Files;
    if names == [] {
      NothingSeen(h, m);
    } else {
      var front, last := names[..|names| - 1], names[|names| - 1];
      BuildAllMeans(h, g, m, p, e, front);
      var (before, m1) := BuildAll(h, g, m, p, e, front);
      var (child, m2) := Build(h, g, last, m1, Prefix(p) + last, e.entries[last]);
      assert last in names;
      BuildMeans(h, g, last, m1, Prefix(p) + last, e.entries[last]);
      VisibleApart(p, e, names);
      BuildOneMore(h, m, m1, m2, p, names, before, child,
        VisibleAll(p, e, front), Visible(last, Prefix(p) + last, e.entries[last]), e.entries[last]);
    }
  }

  lemma BuildOneMore(
    h: Bytes -> Digest, m: Manifest, m1: Manifest, m2: Manifest, p: Path, names: seq<string>, before: seq<Node>,
    child: Node, a: map<Path, FileItem>, b: map<Path, FileItem>, entry: Item)
    requires names != [] && Entries(p, names[..|names| - 1], before) && names[|names| - 1] !in names[..|names| - 1]
    requires Renewed(h, m, m1, a) && Hashed(h, m, FilesAll(before), a) && Renewed(h, m1, m2, b) && a.Keys !! b.Keys
    requires child.path == Prefix(p) + names[|names| - 1] && WellFormed(child)
    requires child.hash == "" ==> Hashed(h, m1, map[], b)
    requires child.hash != "" ==> Hashed(h, m1, Files(child), b)
    requires child.hash != "" ==> names[|names| - 1] != "" && '/' !in names[|names| - 1] && !Hidden(names[|names| - 1])
    ensures Renewed(h, m, m2, a + b)
    ensures var all := if child.hash == "" then before else before + [child];
      Entries(p, names, all) && Hashed(h, m, FilesAll(all), a + b)
  {
    hide Renewed;
    hide Hashed;
    hide Files;
    hide Entries;
    RenewedTwice(h, m, m1, m2, a, b);
    if child.hash == "" {
      HashedBoth(h, m, m1, FilesAll(before), map[], a, b);
      assert FilesAll(before) + map[] == FilesAll(before);
      EntriesLess(p, names, before);
    } else {
      HashedBoth(h, m, m1, FilesAll(before), Files(child), a, b);
      assert (before + [child])[..|before|] == before;
      EntryPath(p, names[|names| - 1]);
      EntriesMore(p, names, before, child);
    }
  }

  lemma NothingSeen(h: Bytes -> Digest, m: Manifest)
    ensures Renewed(h, m, m, map[]) && Hashed(h, m, map[], map[])
  {
  }

  lemma EntriesLess(p: Path, names: seq<string>, s: seq<Node>)
    requires names != [] && Entries(p, names[..|names| - 1], s)
    ensures Entries(p, names, s)
  {
    hide WellFormed;
    hide Prefix;
    hide IsName;
    assert forall i :: 0 <= i < |s| ==> s[i].path[|Prefix(p)|..] in names[..|names| - 1];
  }

  lemma EntriesMore(p: Path, names: seq<string>, s: seq<Node>, c: Node)
    requires names != [] && Entries(p, names[..|names| - 1], s)
    requires WellFormed(c) && ChildPath(p, c.path) && c.path == Prefix(p) + names[|names| - 1]
    requires names[|names| - 1] !in names[..|names| - 1]
    ensures Entries(p, names, s + [c])
  {
    hide WellFormed;
    hide Prefix;
    hide IsName;
    EntriesLess(p, names, s);
    assert c.path[|Prefix(p)|..] == names[|names| - 1];
    assert names[|names| - 1] in names;
    forall i | 0 <= i < |s|
      ensures s[i].path != c.path
    {
      assert s[i].path[|Prefix(p)|..] in names[..|names| - 1];
    }
  }

  // ----- The tombstone pass -----------------------------------------------------------------

  /** Live entries that the scan did not come upon are tombstoned under a new clock. */
  function Swept(m: Manifest, seen: set<Path>, driveId: DriveId): Manifest {
    map p | p in m :: SweptEntry(m[p], p in seen, driveId)
  }

  function SweptEntry(entry: Meta, seen: bool, driveId: DriveId): Meta {
    if entry.tombstone || seen then entry
    else entry.(tombstone := true, vv := Bumped(entry.vv, driveId))
  }

  function LeafSet(n: Node): set<Path> {
    set p | p in Leaves(n)
  }

  ghost predicate PartlySwept(m: Manifest, seen: set<Path>, driveId: DriveId, todo: set<Path>, now: Manifest) {
    && todo <= m.Keys && now.Keys == m.Keys
    && forall p :: p in m ==> now[p] == if p in todo then m[p] else SweptEntry(m[p], p in seen, driveId)
  }

  /** In whatever order the store lists its entries. */
  method TombstonePass(node: Node, store: Drive, driveId: DriveId, now: u64)
    requires store.Valid()
    modifies store
    ensures store.Valid() && store.disk == old(store.disk) && store.log == old(store.log)
    ensures store.manifest == Swept(old(store.manifest), LeafSet(node), driveId)
  {
    hide SweptEntry;
    hide Leaves;
    hide Bumped;
    var visited := CollectLeaves(node, []);
    var seen := set p | p in visited;
    assert visited == Leaves(node);
    ghost var m := store.manifest;
    var todo := store.manifest.Keys;
    while todo != {}
      invariant store.Valid() && store.disk == old(store.disk) && store.log == old(store.log)
      invariant PartlySwept(m, seen, driveId, todo, store.manifest)
      decreases todo
    {
      var p :| p in todo;
      todo := todo - {p};
      SweptEntryIs(m[p], p in seen, driveId, now);
      if !store.manifest[p].tombstone && p !in seen {
        store.MarkDeleted(p, driveId, now);
      }
    }
    assert store.manifest == Swept(m, seen, driveId);
  }

  lemma SweptEntryIs(entry: Meta, seen: bool, driveId: DriveId, now: u64)
    ensures SweptEntry(entry, seen, driveId)
         == if !entry.tombstone && !seen then MarkedDeleted(Some(entry), driveId, now) else entry
  {
  }

  /** The manifest a scan leaves. */
  function Scanned(h: Bytes -> Digest, g: string -> Digest, root: string, m: Manifest, e: Item, driveId: DriveId): Manifest {
    var (node, m') := Build(h, g, root, m, ".", e);
    Swept(m', LeafSet(node), driveId)
  }

  method ScanDrive(
    h: Bytes -> Digest, g: string -> Digest, root: string, e: Item, store: Drive, driveId: DriveId, now: u64)
    returns (node: Node)
    requires store.Valid()
    modifies store
    ensures store.Valid() && store.disk == old(store.disk) && store.log == old(store.log)
    ensures node == Build(h, g, root, old(store.manifest), ".", e).0
    ensures store.manifest == Scanned(h, g, root, old(store.manifest), e, driveId)
  {
    hide Build;
    hide Leaves;
    hide Swept;
    ghost var built := Build(h, g, root, store.manifest, ".", e);
    node := BuildNode(h, g, root, ".", e, store);
    assert (node, store.manifest) == built;
    TombstonePass(node, store, driveId, now);
  }

  // ----- The cache --------------------------------------------------------------------------

  /** A cache hit names the file's true hash, and the file could have been read. */
  ghost predicate Truthful(h: Bytes -> Digest, m: Manifest, seen: map<Path, FileItem>) {
    forall q :: q in seen && seen[q].stat && Hit(Lookup(m, q), seen[q]) ==>
      seen[q].readable && m[q].hash == h(seen[q].content)
  }

  ghost predicate SameHashes(h: Bytes -> Digest, m: Manifest, m': Manifest, seen: map<Path, FileItem>) {
    forall q :: q in seen ==> FileHash(h, Lookup(m, q), seen[q]) == FileHash(h, Lookup(m', q), seen[q])
  }

  lemma {:induction false} SameHashesSameTree(
    h: Bytes -> Digest, g: string -> Digest, name: string, m: Manifest, m': Manifest, p: Path, e: Item)
    requires ValidNames(e) && NeverEmpty(g) && SameHashes(h, m, m', Visible(name, p, e))
    ensures Build(h, g, name, m, p, e).0 == Build(h, g, name, m', p, e).0
    decreases e, 1, 0
  {
    hide FileEntry;
    hide FileHash;
    if !Hidden(name) && e.Dir? && e.listable {
      SameHashesSameNodes(h, g, m, m', p, e, Sorted(e.entries.Keys));
    }
  }

  lemma {:induction false} SameHashesSameNodes(
    h: Bytes -> Digest, g: string -> Digest, m: Manifest, m': Manifest, p: Path, e: Item, names: seq<string>)
    requires e.Dir? && ValidNames(e) && NeverEmpty(g) && (forall k :: k in names ==> k in e.entries)
    requires forall i, j :: 0 <= i < j < |names| ==> names[i] != names[j]
    requires SameHashes(h, m, m', VisibleAll(p, e, names))
    ensures BuildAll(h, g, m, p, e, names).0 == BuildAll(h, g, m', p, e, names).0
    decreases e, 0, |names|
  {
    hide Build;
    hide Visible;
    hide FileHash;
    if names != [] {
      var front, last := names[..|names| - 1], names[|names| - 1];
      assert last in names;
      var a, b := VisibleAll(p, e, front), Visible(last, Prefix(p) + last, e.entries[last]);
      VisibleApart(p, e, names);
      SameHashesParts(h, m, m', a, b);
      SameHashesSameNodes(h, g, m, m', p, e, front);
      BuildAllMeans(h, g, m, p, e, front);
      BuildAllMeans(h, g, m', p, e, front);
      var m1, m1' := BuildAll(h, g, m, p, e, front).1, BuildAll(h, g, m', p, e, front).1;
      SameHashesLater(h, m, m1, m', m1', a, b);
      SameHashesSameTree(h, g, last, m1, m1', Prefix(p) + last, e.entries[last]);
    }
  }

  lemma SameHashesParts(
    h: Bytes -> Digest, m: Manifest, m': Manifest, a: map<Path, FileItem>, b: map<Path, FileItem>)
    requires SameHashes(h, m, m', a + b) && a.Keys !! b.Keys
    ensures SameHashes(h, m, m', a) && SameHashes(h, m, m', b)
  {
    hide FileHash;
    assert forall q :: q in a + b ==> (a + b)[q] == if q in b then b[q] else a[q];
  }

  lemma SameHashesLater(
    h: Bytes -> Digest, m: Manifest, m1: Manifest, m': Manifest, m1': Manifest,
    a: map<Path, FileItem>, b: map<Path, FileItem>)
    requires SameHashes(h, m, m', b) && Renewed(h, m, m1, a) && Renewed(h, m', m1', a) && a.Keys !! b.Keys
    ensures SameHashes(h, m1, m1', b)
  {
    hide FileHash;
    hide FileEntry;
  }

  lemma SameTreeSameHashes(
    h: Bytes -> Digest, g: string -> Digest, name: string, m: Manifest, m': Manifest, p: Path, e: Item)
    requires ValidNames(e) && NeverEmpty(g)
    requires Build(h, g, name, m, p, e).0 == Build(h, g, name, m', p, e).0
    ensures SameHashes(h, m, m', Visible(name, p, e))
  {
    hide Build;
    hide Visible;
    hide FileHash;
    BuildMeans(h, g, name, m, p, e);
    BuildMeans(h, g, name, m', p, e);
    var seen, files := Visible(name, p, e), Files(Build(h, g, name, m, p, e).0);
    forall q | q in seen
      ensures FileHash(h, Lookup(m, q), seen[q]) == FileHash(h, Lookup(m', q), seen[q])
    {
      assert q in files || q !in files;
    }
  }

  /** Scanning with a cache gives the tree that scanning without one gives, exactly if every cache hit
      is truthful. */
  lemma CacheIsTransparent(h: Bytes -> Digest, g: string -> Digest, name: string, m: Manifest, p: Path, e: Item)
    requires ValidNames(e) && NeverEmpty(g) && forall x :: h(x) != ""
    ensures Build(h, g, name, m, p, e).0 == Build(h, g, name, map[], p, e).0 <==> Truthful(h, m, Visible(name, p, e))
  {
    hide Build;
    hide Visible;
    var seen, none: Manifest := Visible(name, p, e), map[];
    forall q | q in seen
      ensures FileHash(h, Lookup(m, q), seen[q]) == FileHash(h, None, seen[q])
         <==> (seen[q].stat && Hit(Lookup(m, q), seen[q]) ==> seen[q].readable && m[q].hash == h(seen[q].content))
      ensures Lookup(none, q) == None
    {
    }
    if SameHashes(h, m, map[], seen) {
      SameHashesSameTree(h, g, name, m, map[], p, e);
    }
    if Build(h, g, name, m, p, e).0 == Build(h, g, name, map[], p, e).0 {
      SameTreeSameHashes(h, g, name, m, map[], p, e);
    }
  }
}
