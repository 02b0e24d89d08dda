/** Renames found by content: a live path of one drive whose bytes another drive still has under a
    name that the first drive has deleted. */
module RenameDetection {
  import opened Base
  import opened SyncOps
  import opened Drives

  /** On drive `t`, `old` is to become `new`, on the word of drive `s`. */
  predicate IsRename(ms: Manifests, s: DriveId, t: DriveId, old_: Path, new_: Path) {
    && s in ms && t in ms && s != t
    && Live(ms[s], new_) && !Live(ms[t], new_) && Live(ms[t], old_)
    && ms[s][new_].hash == ms[t][old_].hash
    && old_ in ms[s] && ms[s][old_].tombstone
  }

  ghost predicate NoRenames(ms: Manifests) {
    forall s, t, p, q :: !IsRename(ms, s, t, p, q)
  }

  type RenameMap = map<DriveId, map<Path, Path>>

  predicate Has(r: RenameMap, t: DriveId, p: Path) {
    t in r && p in r[t]
  }

  /** Every entry is a rename that some drive calls for. */
  ghost predicate Sound(ms: Manifests, r: RenameMap) {
    forall t, p :: Has(r, t, p) ==> exists s :: IsRename(ms, s, t, p, r[t][p])
  }

  /** The renames that `s` calls for on `t` are all in the map. */
  ghost predicate Covers(ms: Manifests, r: RenameMap, s: DriveId, t: DriveId) {
    forall p, q :: IsRename(ms, s, t, p, q) ==> Has(r, t, p)
  }

  function NewName(r: RenameMap, t: DriveId, p: Path): Option<Path> {
    if Has(r, t, p) then Some(r[t][p]) else None
  }

  function OrElse<T>(a: Option<T>, b: Option<T>): Option<T> {
    if a.Some? then a else b
  }

  /** The last of these names that `s` calls for as the new one of `p` on `t`. */
  function LastIn(ms: Manifests, s: DriveId, t: DriveId, p: Path, names: seq<Path>): Option<Path> {
    if names == [] then None
    else if IsRename(ms, s, t, p, names[|names| - 1]) then Some(names[|names| - 1])
    else LastIn(ms, s, t, p, names[..|names| - 1])
  }

  /** The new name that the last caller in this order calls for, the last one in its list of files. */
  function LastBy(
    ms: Manifests, files: map<DriveId, seq<Path>>, ids: seq<DriveId>, t: DriveId, p: Path): Option<Path>
    requires forall d :: d in ids ==> d in files
  {
    if ids == [] then None
    else
      var s := ids[|ids| - 1];
      OrElse(LastIn(ms, s, t, p, files[s]), LastBy(ms, files, ids[..|ids| - 1], t, p))
  }

  // ----- One drive's index ------------------------------------------------------------------

  datatype DriveIndex = DriveIndex(byHash: map<Digest, seq<Path>>, live: set<Path>, tombstones: set<Path>)

  /** The live paths among `files` with this digest, in the same order. */
  function WithHash(m: Manifest, files: seq<Path>, hash: Digest): seq<Path> {
    if files == [] then []
    else
      var p := files[|files| - 1];
      WithHash(m, files[..|files| - 1], hash) + (if Live(m, p) && m[p].hash == hash then [p] else [])
  }

  function Listed(idx: DriveIndex, hash: Digest): seq<Path> {
    if hash in idx.byHash then idx.byHash[hash] else []
  }

  /** `files` lists paths of the manifest in the order in which the store returns them. */
  ghost predicate Indexed(idx: DriveIndex, m: Manifest, files: seq<Path>) {
    && idx.live == (set p | p in files && p in m && !m[p].tombstone)
    && idx.tombstones == (set p | p in files && p in m && m[p].tombstone)
    && (forall hash :: Listed(idx, hash) == WithHash(m, files, hash))
  }

  method IndexDrive(m: Manifest, files: seq<Path>) returns (idx: DriveIndex)
    requires forall p :: p in files <==> p in m
    ensures Indexed(idx, m, files)
  {
    hide Indexed;
    idx := DriveIndex(map[], {}, {});
    NothingIndexed(m);
    assert files[..0] == [];
    for i := 0 to |files|
      invariant Indexed(idx, m, files[..i])
    {
      var p := files[i];
      assert p in files && files[..i + 1] == files[..i] + [p];
      IndexOne(idx, m, files[..i], p);
      if m[p].tombstone {
        idx := idx.(tombstones := idx.tombstones + {p});
      } else {
        var hash := m[p].hash;
        var same := if hash in idx.byHash then idx.byHash[hash] else [];
        idx := idx.(byHash := idx.byHash[hash := same + [p]], live := idx.live + {p});
      }
    }
    assert files[..|files|] == files;
  }

  lemma NothingIndexed(m: Manifest)
    ensures Indexed(DriveIndex(map[], {}, {}), m, [])
  {
  }

  lemma IndexOne(idx: DriveIndex, m: Manifest, files: seq<Path>, p: Path)
    requires Indexed(idx, m, files) && p in m
    ensures m[p].tombstone ==> Indexed(idx.(tombstones := idx.tombstones + {p}), m, files + [p])
    ensures !m[p].tombstone ==>
      Indexed(idx.(byHash := idx.byHash[m[p].hash := Listed(idx, m[p].hash) + [p]], live := idx.live + {p}), m, files + [p])
  {
    hide WithHash;
    assert forall x :: x in files + [p] <==> x in files || x == p;
    forall hash
      ensures WithHash(m, files + [p], hash)
        == if Live(m, p) && m[p].hash == hash then WithHash(m, files, hash) + [p] else WithHash(m, files, hash)
    {
      OnePathMore(m, files, p, hash);
    }
    if m[p].tombstone {
      assert forall hash :: Listed(idx.(tombstones := idx.tombstones + {p}), hash) == Listed(idx, hash);
    } else {
      var longer := idx.(byHash := idx.byHash[m[p].hash := Listed(idx, m[p].hash) + [p]], live := idx.live + {p});
      assert forall hash ::
        Listed(longer, hash) == if hash == m[p].hash then Listed(idx, hash) + [p] else Listed(idx, hash);
    }
  }

  lemma OnePathMore(m: Manifest, files: seq<Path>, p: Path, hash: Digest)
    ensures WithHash(m, files + [p], hash)
      == if Live(m, p) && m[p].hash == hash then WithHash(m, files, hash) + [p] else WithHash(m, files, hash)
  {
    assert (files + [p])[..|files|] == files;
    assert WithHash(m, files, hash) + [] == WithHash(m, files, hash);
  }

  // ----- One pair of drives -----------------------------------------------------------------

  /** What `names` of `s` add to the map for `t`. */
  ghost predicate NamesAdded(
    ms: Manifests, s: DriveId, t: DriveId, names: seq<Path>, before: RenameMap, after: RenameMap)
  {
    && NoneEmpty(after)
    && forall u, p ::
      NewName(after, u, p) == if u == t then OrElse(LastIn(ms, s, t, p, names), NewName(before, u, p)) else NewName(before, u, p)
  }

  /** No drive is in the map without a path. */
  ghost predicate NoneEmpty(r: RenameMap) {
    forall t :: t in r ==> r[t] != map[]
  }

  /** The inner loop: every old name for one new one. */
  method AddForName(
    ms: Manifests, s: DriveId, t: DriveId, files: map<DriveId, seq<Path>>, src: DriveIndex, tgt: DriveIndex,
    hash: Digest, newPath: Path, r: RenameMap)
    returns (r': RenameMap)
    requires Pair(ms, s, t, files, src, tgt) && NoneEmpty(r)
    requires hash in tgt.byHash && newPath in Listed(src, hash) && newPath !in tgt.live
    ensures NamesAdded(ms, s, t, [newPath], r, r')
  {
    hide IsRename;
    hide Pair;
    hide NewName;
    hide NoneEmpty;
    hide Assign;
    r' := r;
    var to := tgt.byHash[hash];
    assert to[..0] == [];
    for k := 0 to |to|
      invariant NoneEmpty(r') && OldNamesAdded(ms, s, t, to[..k], newPath, r, r')
    {
      var oldPath := to[k];
      ghost var before := r';
      assert to[..k + 1] == to[..k] + [oldPath];
      CalledIf(ms, s, t, files, src, tgt, hash, newPath, k);
      if oldPath != newPath && oldPath in src.tombstones {
        Assigned(r', t, oldPath, newPath);
        r' := Assign(r', t, oldPath, newPath);
      }
      OldNameMore(ms, s, t, to[..k], oldPath, newPath, r, before, r');
    }
    assert to[..|to|] == to;
    OnlyListed(ms, s, t, files, src, tgt, hash, newPath);
  }

  ghost predicate OldNamesAdded(
    ms: Manifests, s: DriveId, t: DriveId, olds: seq<Path>, q: Path, before: RenameMap, after: RenameMap)
  {
    forall u, p ::
      NewName(after, u, p) == if u == t && p in olds && IsRename(ms, s, t, p, q) then Some(q) else NewName(before, u, p)
  }

  lemma OldNameMore(
    ms: Manifests, s: DriveId, t: DriveId, olds: seq<Path>, p: Path, q: Path, a: RenameMap, b: RenameMap, c: RenameMap)
    requires OldNamesAdded(ms, s, t, olds, q, a, b)
    requires forall u, x ::
      NewName(c, u, x) == if u == t && x == p && IsRename(ms, s, t, p, q) then Some(q) else NewName(b, u, x)
    ensures OldNamesAdded(ms, s, t, olds + [p], q, a, c)
  {
    hide NewName;
    hide IsRename;
    assert forall x :: x in olds + [p] <==> x in olds || x == p;
  }

  /** The entry that the source's nested map takes; the inner map is made where there is none. */
  function Assign(r: RenameMap, t: DriveId, p: Path, q: Path): RenameMap {
    r[t := (if t in r then r[t] else map[])[p := q]]
  }

  lemma Assigned(r: RenameMap, t: DriveId, p: Path, q: Path)
    requires NoneEmpty(r)
    ensures var r' := Assign(r, t, p, q);
      NoneEmpty(r') && forall u, x :: NewName(r', u, x) == if u == t && x == p then Some(q) else NewName(r, u, x)
  {
    var row := (if t in r then r[t] else map[])[p := q];
    assert p in row;
    var r' := r[t := row];
    forall u, x
      ensures NewName(r', u, x) == if u == t && x == p then Some(q) else NewName(r, u, x)
    {
      if u == t {
        assert r'[u] == row;
      } else {
        assert u in r' <==> u in r;
      }
    }
  }

  /** The indices of two drives. */
  ghost predicate Pair(
    ms: Manifests, s: DriveId, t: DriveId, files: map<DriveId, seq<Path>>, src: DriveIndex, tgt: DriveIndex)
  {
    && s in ms && t in ms && s != t && s in files && t in files
    && (forall p :: p in files[s] <==> p in ms[s]) && (forall p :: p in files[t] <==> p in ms[t])
    && Indexed(src, ms[s], files[s]) && Indexed(tgt, ms[t], files[t])
  }

  lemma {:induction false} WithHashMembers(m: Manifest, files: seq<Path>, hash: Digest)
    ensures forall p :: p in WithHash(m, files, hash) <==> p in files && Live(m, p) && m[p].hash == hash
  {
    if files != [] {
      WithHashMembers(m, files[..|files| - 1], hash);
      assert forall p :: p in files <==> p in files[..|files| - 1] || p == files[|files| - 1];
    }
  }

  lemma CalledIf(
    ms: Manifests, s: DriveId, t: DriveId, files: map<DriveId, seq<Path>>, src: DriveIndex, tgt: DriveIndex,
    hash: Digest, q: Path, k: nat)
    requires Pair(ms, s, t, files, src, tgt) && hash in tgt.byHash && k < |tgt.byHash[hash]|
    requires q in Listed(src, hash) && q !in tgt.live
    ensures var p := tgt.byHash[hash][k]; IsRename(ms, s, t, p, q) <==> p != q && p in src.tombstones
  {
    hide WithHash;
    WithHashMembers(ms[s], files[s], hash);
    WithHashMembers(ms[t], files[t], hash);
    assert Listed(tgt, hash)[k] in Listed(tgt, hash);
    assert Listed(src, hash) == WithHash(ms[s], files[s], hash) && Listed(tgt, hash) == WithHash(ms[t], files[t], hash);
  }

  lemma OnlyListed(
    ms: Manifests, s: DriveId, t: DriveId, files: map<DriveId, seq<Path>>, src: DriveIndex, tgt: DriveIndex,
    hash: Digest, q: Path)
    requires Pair(ms, s, t, files, src, tgt) && q in Listed(src, hash)
    ensures forall p :: IsRename(ms, s, t, p, q) ==> hash in tgt.byHash && p in tgt.byHash[hash]
    ensures forall p :: LastIn(ms, s, t, p, [q]) == if IsRename(ms, s, t, p, q) then Some(q) else None
    ensures q in tgt.live ==> forall p :: !IsRename(ms, s, t, p, q)
  {
    hide WithHash;
    WithHashMembers(ms[s], files[s], hash);
    WithHashMembers(ms[t], files[t], hash);
    assert Listed(src, hash) == WithHash(ms[s], files[s], hash) && Listed(tgt, hash) == WithHash(ms[t], files[t], hash);
  }

  method AddForHash(
    ms: Manifests, s: DriveId, t: DriveId, files: map<DriveId, seq<Path>>, src: DriveIndex, tgt: DriveIndex,
    hash: Digest, r: RenameMap)
    returns (r': RenameMap)
    requires Pair(ms, s, t, files, src, tgt) && NoneEmpty(r) && hash in src.byHash && hash in tgt.byHash
    ensures NamesAdded(ms, s, t, src.byHash[hash], r, r')
  {
    hide NamesAdded;
    hide Pair;
    hide NoneEmpty;
    r' := r;
    var from := src.byHash[hash];
    NothingAdded(ms, s, t, r);
    assert from[..0] == [];
    for j := 0 to |from|
      invariant NoneEmpty(r') && NamesAdded(ms, s, t, from[..j], r, r')
    {
      var newPath := from[j];
      assert newPath in from && from[..j + 1] == from[..j] + [newPath];
      ghost var before := r';
      if newPath !in tgt.live {
        r' := AddForName(ms, s, t, files, src, tgt, hash, newPath, r');
      } else {
        LiveAddsNothing(ms, s, t, files, src, tgt, hash, newPath, r');
      }
      AddedInTurn(ms, s, t, from[..j], newPath, r, before, r');
    }
    assert from[..|from|] == from;
  }

  lemma NothingAdded(ms: Manifests, s: DriveId, t: DriveId, r: RenameMap)
    requires NoneEmpty(r)
    ensures NamesAdded(ms, s, t, [], r, r)
  {
  }

  lemma LiveAddsNothing(
    ms: Manifests, s: DriveId, t: DriveId, files: map<DriveId, seq<Path>>, src: DriveIndex, tgt: DriveIndex,
    hash: Digest, q: Path, r: RenameMap)
    requires Pair(ms, s, t, files, src, tgt) && q in Listed(src, hash) && q in tgt.live && NoneEmpty(r)
    ensures NamesAdded(ms, s, t, [q], r, r)
  {
    hide Pair;
    hide IsRename;
    OnlyListed(ms, s, t, files, src, tgt, hash, q);
  }

  lemma AddedInTurn(
    ms: Manifests, s: DriveId, t: DriveId, names: seq<Path>, q: Path, a: RenameMap, b: RenameMap, c: RenameMap)
    requires NamesAdded(ms, s, t, names, a, b) && NamesAdded(ms, s, t, [q], b, c)
    ensures NoneEmpty(c) && NamesAdded(ms, s, t, names + [q], a, c)
  {
    hide IsRename;
    forall p
      ensures LastIn(ms, s, t, p, names + [q]) == OrElse(LastIn(ms, s, t, p, [q]), LastIn(ms, s, t, p, names))
    {
      assert (names + [q])[..|names|] == names && [q][..0] == [];
    }
  }

  // ----- All hashes of a pair ---------------------------------------------------------------

  /** What the contents `hashes` of `s` add to the map for `t`. */
  ghost predicate HashesAdded(
    ms: Manifests, s: DriveId, t: DriveId, files: seq<Path>, hashes: seq<Digest>, before: RenameMap, after: RenameMap)
    requires s in ms && t in ms
  {
    && NoneEmpty(after)
    && forall u, p ::
      NewName(after, u, p) == (
        if u == t && p in ms[t] && ms[t][p].hash in hashes then OrElse(LastIn(ms, s, t, p, files), NewName(before, u, p))
        else NewName(before, u, p))
  }

  /** Only names of the path's own contents are called for. */
  lemma {:induction false} OwnHash(ms: Manifests, s: DriveId, t: DriveId, p: Path, files: seq<Path>, hash: Digest)
    requires s in ms
    ensures LastIn(ms, s, t, p, WithHash(ms[s], files, hash))
      == if t in ms && p in ms[t] && ms[t][p].hash == hash then LastIn(ms, s, t, p, files) else None
  {
    if files != [] {
      var front, q := files[..|files| - 1], files[|files| - 1];
      OwnHash(ms, s, t, p, front, hash);
      var before := WithHash(ms[s], front, hash);
      assert (before + [q])[..|before|] == before && before + [] == before;
    }
  }

  lemma HashStep(
    ms: Manifests, s: DriveId, t: DriveId, files: seq<Path>, hashes: seq<Digest>, hash: Digest,
    a: RenameMap, b: RenameMap, c: RenameMap)
    requires s in ms && t in ms && HashesAdded(ms, s, t, files, hashes, a, b) && hash !in hashes
    requires NamesAdded(ms, s, t, WithHash(ms[s], files, hash), b, c)
    ensures HashesAdded(ms, s, t, files, hashes + [hash], a, c)
  {
    hide LastIn;
    hide WithHash;
    forall p
      ensures LastIn(ms, s, t, p, WithHash(ms[s], files, hash))
        == if p in ms[t] && ms[t][p].hash == hash then LastIn(ms, s, t, p, files) else None
    {
      OwnHash(ms, s, t, p, files, hash);
    }
  }

  /** A content that one of the two drives lacks adds nothing. */
  lemma UnsharedHash(
    ms: Manifests, s: DriveId, t: DriveId, files: map<DriveId, seq<Path>>, src: DriveIndex, tgt: DriveIndex,
    hash: Digest, r: RenameMap)
    requires Pair(ms, s, t, files, src, tgt) && NoneEmpty(r) && hash !in tgt.byHash
    ensures NamesAdded(ms, s, t, WithHash(ms[s], files[s], hash), r, r)
  {
    hide WithHash;
    hide LastIn;
    WithHashMembers(ms[t], files[t], hash);
    assert Listed(tgt, hash) == WithHash(ms[t], files[t], hash) == [];
    forall p
      ensures LastIn(ms, s, t, p, WithHash(ms[s], files[s], hash)) == None
    {
      OwnHash(ms, s, t, p, files[s], hash);
      if !Live(ms[t], p) {
        NotLive(ms, s, t, p, files[s]);
      }
    }
  }

  lemma {:induction false} NotLive(ms: Manifests, s: DriveId, t: DriveId, p: Path, names: seq<Path>)
    requires t in ms ==> !Live(ms[t], p)
    ensures LastIn(ms, s, t, p, names) == None
  {
    if names != [] {
      NotLive(ms, s, t, p, names[..|names| - 1]);
    }
  }

  /** The renames one drive calls for on another. */
  method AddRenames(
    ms: Manifests, s: DriveId, t: DriveId, files: map<DriveId, seq<Path>>, src: DriveIndex, tgt: DriveIndex, r: RenameMap)
    returns (r': RenameMap)
    requires Pair(ms, s, t, files, src, tgt) && NoneEmpty(r)
    ensures NamesAdded(ms, s, t, files[s], r, r')
  {
    hide NamesAdded;
    hide HashesAdded;
    hide Indexed;
    hide WithHash;
    hide NoneEmpty;
    r' := r;
    var hashes := Sorted(src.byHash.Keys);
    NoHashesYet(ms, s, t, files[s], r);
    assert hashes[..0] == [];
    for i := 0 to |hashes|
      invariant NoneEmpty(r') && HashesAdded(ms, s, t, files[s], hashes[..i], r, r')
    {
      var hash := hashes[i];
      assert hash in hashes && hashes[..i + 1] == hashes[..i] + [hash];
      ghost var before := r';
      ListedIs(ms, s, t, files, src, tgt, hash);
      if hash in tgt.byHash {
        r' := AddForHash(ms, s, t, files, src, tgt, hash, r');
      } else {
        UnsharedHash(ms, s, t, files, src, tgt, hash, r');
      }
      AddedMeansNoneEmpty(ms, s, t, WithHash(ms[s], files[s], hash), before, r');
      HashStep(ms, s, t, files[s], hashes[..i], hash, r, before, r');
    }
    assert hashes[..|hashes|] == hashes;
    AllHashes(ms, s, t, files, src, tgt, hashes, r, r');
  }

  lemma AddedMeansNoneEmpty(
    ms: Manifests, s: DriveId, t: DriveId, names: seq<Path>, before: RenameMap, after: RenameMap)
    requires NamesAdded(ms, s, t, names, before, after)
    ensures NoneEmpty(after)
  {
  }

  lemma NoHashesYet(ms: Manifests, s: DriveId, t: DriveId, files: seq<Path>, r: RenameMap)
    requires s in ms && t in ms && NoneEmpty(r)
    ensures HashesAdded(ms, s, t, files, [], r, r)
  {
  }

  lemma ListedIs(
    ms: Manifests, s: DriveId, t: DriveId, files: map<DriveId, seq<Path>>, src: DriveIndex, tgt: DriveIndex, hash: Digest)
    requires Pair(ms, s, t, files, src, tgt) && hash in src.byHash
    ensures src.byHash[hash] == WithHash(ms[s], files[s], hash)
  {
    hide WithHash;
    assert Listed(src, hash) == WithHash(ms[s], files[s], hash);
  }

  /** A content that the calling drive lacks calls for nothing. */
  lemma AllHashes(
    ms: Manifests, s: DriveId, t: DriveId, files: map<DriveId, seq<Path>>, src: DriveIndex, tgt: DriveIndex,
    hashes: seq<Digest>, before: RenameMap, after: RenameMap)
    requires Pair(ms, s, t, files, src, tgt) && (forall hash :: hash in src.byHash ==> hash in hashes)
    requires HashesAdded(ms, s, t, files[s], hashes, before, after)
    ensures NamesAdded(ms, s, t, files[s], before, after)
  {
    hide WithHash;
    hide LastIn;
    hide IsRename;
    forall p
      ensures !(p in ms[t] && ms[t][p].hash in hashes) ==> LastIn(ms, s, t, p, files[s]) == None
    {
      if p in ms[t] && ms[t][p].hash !in hashes {
        var hash := ms[t][p].hash;
        assert Listed(src, hash) == WithHash(ms[s], files[s], hash) == [];
        OwnHash(ms, s, t, p, files[s], hash);
        NoNames(ms, s, t, p);
      } else if p !in ms[t] {
        NotLive(ms, s, t, p, files[s]);
      }
    }
  }

  lemma NoNames(ms: Manifests, s: DriveId, t: DriveId, p: Path)
    ensures LastIn(ms, s, t, p, []) == None
  {
  }

  // ----- All pairs --------------------------------------------------------------------------

  /** Every path that some drive calls to be renamed, with the new name that the last caller in id order
      calls for, and of that drive's names the last one that its store returns. */
  method DetectRenames(ms: Manifests, files: map<DriveId, seq<Path>>) returns (r: RenameMap)
    requires files.Keys == ms.Keys
    requires forall d, p :: d in ms ==> (p in files[d] <==> p in ms[d])
    ensures Detected(ms, files, r)
  {
    hide Detected;
    var ids := Sorted(ms.Keys);
    var indices := IndexDrives(ms, files, ids);
    r := DetectAmong(ms, files, ids, indices);
  }

  ghost predicate Detected(ms: Manifests, files: map<DriveId, seq<Path>>, r: RenameMap)
    requires files.Keys == ms.Keys
  {
    NoneEmpty(r) && forall t, p :: NewName(r, t, p) == LastBy(ms, files, Sorted(ms.Keys), t, p)
  }

  predicate IdsOf(ms: Manifests, ids: seq<DriveId>) {
    ids == Sorted(ms.Keys)
  }

  ghost predicate AllIndexed(ms: Manifests, files: map<DriveId, seq<Path>>, indices: map<DriveId, DriveIndex>) {
    && files.Keys == indices.Keys == ms.Keys
    && (forall d, p :: d in ms ==> (p in files[d] <==> p in ms[d]))
    && forall d :: d in ms ==> Indexed(indices[d], ms[d], files[d])
  }

  /** The calls of the first `i` drives on all drives and of the next one on the first `j` are in the map. */
  ghost predicate SoFar(
    ms: Manifests, files: map<DriveId, seq<Path>>, ids: seq<DriveId>, i: nat, j: nat, r: RenameMap)
    requires i <= |ids| && j <= |ids| && (i == |ids| ==> j == 0) && forall d :: d in ids ==> d in files
  {
    && NoneEmpty(r)
    && forall t, p :: NewName(r, t, p) == LastBy(ms, files, if t in ids[..j] then ids[..i + 1] else ids[..i], t, p)
  }

  /** The loops over all pairs of drives. */
  method DetectAmong(
    ms: Manifests, files: map<DriveId, seq<Path>>, ids: seq<DriveId>, indices: map<DriveId, DriveIndex>)
    returns (r: RenameMap)
    requires IdsOf(ms, ids) && AllIndexed(ms, files, indices)
    ensures files.Keys == ms.Keys && Detected(ms, files, r)
  {
    hide *;
    IdsInFiles(ms, files, ids, indices);
    NothingFound(ms, files, ids);
    r := map[];
    for i := 0 to |ids|
      invariant NoneEmpty(r) && SoFar(ms, files, ids, i, 0, r)
    {
      for j := 0 to |ids|
        invariant NoneEmpty(r) && SoFar(ms, files, ids, i, j, r)
      {
        ghost var before := r;
        if i != j {
          TwoIds(ms, files, ids, indices, i, j);
          r := AddRenames(ms, ids[i], ids[j], files, indices[ids[i]], indices[ids[j]], r);
        }
        OnePairMore(ms, files, ids, i, j, before, r);
      }
      NextRow(ms, files, ids, i, r);
    }
    AllFound(ms, files, ids, r);
  }

  lemma IdsInFiles(ms: Manifests, files: map<DriveId, seq<Path>>, ids: seq<DriveId>, indices: map<DriveId, DriveIndex>)
    requires IdsOf(ms, ids) && AllIndexed(ms, files, indices)
    ensures files.Keys == ms.Keys && forall d :: d in ids ==> d in files
  {
  }

  lemma TwoIds(
    ms: Manifests, files: map<DriveId, seq<Path>>, ids: seq<DriveId>, indices: map<DriveId, DriveIndex>, i: nat, j: nat)
    requires IdsOf(ms, ids) && AllIndexed(ms, files, indices) && i < |ids| && j < |ids| && i != j
    ensures ids[i] in indices && ids[j] in indices
    ensures Pair(ms, ids[i], ids[j], files, indices[ids[i]], indices[ids[j]])
  {
    hide Indexed;
    assert ids[i] in ids && ids[j] in ids;
  }

  method IndexDrives(ms: Manifests, files: map<DriveId, seq<Path>>, ids: seq<DriveId>)
    returns (indices: map<DriveId, DriveIndex>)
    requires files.Keys == ms.Keys && forall d :: d in ids <==> d in ms
    requires forall d, p :: d in ms ==> (p in files[d] <==> p in ms[d])
    ensures AllIndexed(ms, files, indices)
  {
    hide Indexed;
    indices := map[];
    for i := 0 to |ids|
      invariant forall d :: d in indices <==> d in ids[..i]
      invariant forall d :: d in indices ==> d in ms && Indexed(indices[d], ms[d], files[d])
    {
      var d := ids[i];
      assert d in ids && ids[..i + 1] == ids[..i] + [d];
      var idx := IndexDrive(ms[d], files[d]);
      indices := indices[d := idx];
    }
    assert ids[..|ids|] == ids;
  }

  lemma NothingFound(ms: Manifests, files: map<DriveId, seq<Path>>, ids: seq<DriveId>)
    requires forall d :: d in ids ==> d in files
    ensures NoneEmpty(map[]) && SoFar(ms, files, ids, 0, 0, map[])
  {
  }

  lemma OneCallerMore(ms: Manifests, files: map<DriveId, seq<Path>>, ids: seq<DriveId>, i: nat, t: DriveId, p: Path)
    requires i < |ids| && forall d :: d in ids ==> d in files
    ensures LastBy(ms, files, ids[..i + 1], t, p)
      == OrElse(LastIn(ms, ids[i], t, p, files[ids[i]]), LastBy(ms, files, ids[..i], t, p))
  {
    hide LastIn;
    assert ids[..i + 1][..i] == ids[..i];
  }

  lemma {:induction false} NoCallOnItself(ms: Manifests, s: DriveId, p: Path, names: seq<Path>)
    ensures LastIn(ms, s, s, p, names) == None
  {
    if names != [] {
      NoCallOnItself(ms, s, p, names[..|names| - 1]);
    }
  }

  lemma OnePairMore(
    ms: Manifests, files: map<DriveId, seq<Path>>, ids: seq<DriveId>, i: nat, j: nat, before: RenameMap, after: RenameMap)
    requires i < |ids| && j < |ids| && (forall d :: d in ids ==> d in files) && SoFar(ms, files, ids, i, j, before)
    requires IdsOf(ms, ids)
    requires if i == j then after == before else NamesAdded(ms, ids[i], ids[j], files[ids[i]], before, after)
    ensures NoneEmpty(after) && SoFar(ms, files, ids, i, j + 1, after)
  {
    hide LastIn;
    hide LastBy;
    hide NewName;
    assert ids[..j + 1] == ids[..j] + [ids[j]] && ids[j] !in ids[..j];
    forall t, p
      ensures NewName(after, t, p) == LastBy(ms, files, if t in ids[..j + 1] then ids[..i + 1] else ids[..i], t, p)
    {
      OneCallerMore(ms, files, ids, i, t, p);
      NoCallOnItself(ms, t, p, files[ids[i]]);
    }
  }

  lemma NextRow(ms: Manifests, files: map<DriveId, seq<Path>>, ids: seq<DriveId>, i: nat, r: RenameMap)
    requires IdsOf(ms, ids) && i < |ids| && (forall d :: d in ids ==> d in files) && SoFar(ms, files, ids, i, |ids|, r)
    ensures SoFar(ms, files, ids, i + 1, 0, r)
  {
    hide LastIn;
    hide LastBy;
    hide NewName;
    forall t, p
      ensures NewName(r, t, p) == LastBy(ms, files, ids[..i + 1], t, p)
    {
      OneCallerMore(ms, files, ids, i, t, p);
      assert ids[..|ids|] == ids;
      if t !in ms {
        NotLive(ms, ids[i], t, p, files[ids[i]]);
      }
    }
  }

  lemma AllFound(ms: Manifests, files: map<DriveId, seq<Path>>, ids: seq<DriveId>, r: RenameMap)
    requires IdsOf(ms, ids) && files.Keys == ms.Keys && (forall d :: d in ids ==> d in files)
    requires SoFar(ms, files, ids, |ids|, 0, r)
    ensures Detected(ms, files, r)
  {
    hide LastBy;
    hide NewName;
    assert ids[..|ids|] == ids;
  }

  // ----- What was detected ------------------------------------------------------------------

  lemma {:induction false} LastInIsCalled(ms: Manifests, s: DriveId, t: DriveId, p: Path, names: seq<Path>)
    ensures var q := LastIn(ms, s, t, p, names); q.Some? ==> IsRename(ms, s, t, p, q.value)
    ensures LastIn(ms, s, t, p, names).None? ==> forall q :: q in names ==> !IsRename(ms, s, t, p, q)
  {
    hide IsRename;
    if names != [] {
      var front, last := names[..|names| - 1], names[|names| - 1];
      LastInIsCalled(ms, s, t, p, front);
      assert forall q :: q in names <==> q in front || q == last;
    }
  }

  lemma {:induction false} LastByIsCalled(
    ms: Manifests, files: map<DriveId, seq<Path>>, ids: seq<DriveId>, t: DriveId, p: Path)
    requires forall d :: d in ids ==> d in files
    ensures var q := LastBy(ms, files, ids, t, p); q.Some? ==> exists s :: IsRename(ms, s, t, p, q.value)
    ensures LastBy(ms, files, ids, t, p).None? ==>
      forall s, q :: s in ids && q in files[s] ==> !IsRename(ms, s, t, p, q)
  {
    hide IsRename;
    hide LastIn;
    if ids != [] {
      var front, s := ids[..|ids| - 1], ids[|ids| - 1];
      LastByIsCalled(ms, files, front, t, p);
      LastInIsCalled(ms, s, t, p, files[s]);
      assert forall d :: d in ids <==> d in front || d == s;
    }
  }

  /** What is detected is exactly what is called for: every rename is one that some drive calls for, and
      every path that a drive calls to be renamed is. */
  lemma DetectedIsCalled(ms: Manifests, files: map<DriveId, seq<Path>>, r: RenameMap)
    requires files.Keys == ms.Keys && (forall d, p :: d in ms ==> (p in files[d] <==> p in ms[d]))
    requires Detected(ms, files, r)
    ensures Sound(ms, r) && forall s, t :: Covers(ms, r, s, t)
  {
    hide LastBy;
    var ids := Sorted(ms.Keys);
    forall t, p
      ensures Has(r, t, p) ==> exists s :: IsRename(ms, s, t, p, r[t][p])
      ensures forall s, q :: IsRename(ms, s, t, p, q) ==> Has(r, t, p)
    {
      LastByIsCalled(ms, files, ids, t, p);
      assert NewName(r, t, p) == LastBy(ms, files, ids, t, p);
    }
  }

  /** The manifests, and the order in which the stores return their rows, decide what is detected. */
  lemma DetectionIsDetermined(ms: Manifests, files: map<DriveId, seq<Path>>, r: RenameMap, r': RenameMap)
    requires files.Keys == ms.Keys && Detected(ms, files, r) && Detected(ms, files, r')
    ensures r == r'
  {
    hide LastBy;
    forall t
      ensures t in r <==> t in r'
      ensures t in r && t in r' ==> r[t] == r'[t]
    {
      SameRow(r, r', t);
      SameRow(r', r, t);
      if t in r && t in r' {
        forall p
          ensures Lookup(r[t], p) == Lookup(r'[t], p)
        {
          assert NewName(r, t, p) == NewName(r', t, p);
        }
        SameMap(r[t], r'[t]);
      }
    }
  }

  lemma SameRow(r: RenameMap, r': RenameMap, t: DriveId)
    requires NoneEmpty(r) && forall p :: NewName(r, t, p) == NewName(r', t, p)
    ensures t in r ==> t in r'
  {
    if t in r {
      var p :| p in r[t];
      assert NewName(r, t, p).Some?;
    }
  }
}
