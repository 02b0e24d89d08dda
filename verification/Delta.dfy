/** Sending a file to a drive that has an older version of it: the chunks it lacks are enough. */
module Delta {
  import opened Base
  import opened CrashSafety
  import opened Rabin
  import opened Chunker

  function Changed(cs: seq<Chunk>, known: set<Digest>): seq<Chunk> {
    if cs == [] then []
    else Changed(cs[..|cs| - 1], known) + (if cs[|cs| - 1].hash in known then [] else [cs[|cs| - 1]])
  }

  function HashesOf(cs: seq<Chunk>): set<Digest> {
    set c | c in cs :: c.hash
  }

  /** The chunks of the new version whose digests the old version does not have, in their order. */
  method DiffChunks(oldChunks: seq<Chunk>, newChunks: seq<Chunk>) returns (changed: seq<Chunk>)
    ensures changed == Changed(newChunks, HashesOf(oldChunks))
    ensures exists at: seq<nat> :: Unknown(oldChunks, newChunks, at) && Selects(newChunks, at, changed)
  {
    var oldHashes: set<Digest> := {};
    for i := 0 to |oldChunks|
      invariant oldHashes == HashesOf(oldChunks[..i])
    {
      assert oldChunks[..i + 1] == oldChunks[..i] + [oldChunks[i]];
      oldHashes := oldHashes + {oldChunks[i].hash};
    }
    assert oldChunks[..|oldChunks|] == oldChunks;
    changed := [];
    for i := 0 to |newChunks|
      invariant changed == Changed(newChunks[..i], oldHashes)
    {
      assert newChunks[..i + 1][..i] == newChunks[..i];
      if newChunks[i].hash !in oldHashes {
        changed := changed + [newChunks[i]];
      }
    }
    assert newChunks[..|newChunks|] == newChunks;
    ghost var at := ChangedAt(newChunks, HashesOf(oldChunks));
    UnknownAt(oldChunks, newChunks, at);
  }

  /** The places of the new chunks with a digest that no old one has, in ascending order. */
  ghost predicate Unknown(oldChunks: seq<Chunk>, newChunks: seq<Chunk>, at: seq<nat>) {
    && (forall i: nat :: i in at <==> i < |newChunks| && forall c :: c in oldChunks ==> c.hash != newChunks[i].hash)
    && (forall i, j :: 0 <= i < j < |at| ==> at[i] < at[j])
  }

  ghost predicate Selects(cs: seq<Chunk>, at: seq<nat>, chosen: seq<Chunk>) {
    |chosen| == |at| && forall k :: 0 <= k < |at| ==> at[k] < |cs| && chosen[k] == cs[at[k]]
  }

  lemma UnknownAt(oldChunks: seq<Chunk>, newChunks: seq<Chunk>, at: seq<nat>)
    requires Lacking(newChunks, HashesOf(oldChunks), at)
    ensures Unknown(oldChunks, newChunks, at)
  {
    forall i: nat | i < |newChunks|
      ensures newChunks[i].hash !in HashesOf(oldChunks) <==> forall c :: c in oldChunks ==> c.hash != newChunks[i].hash
    {
    }
  }

  lemma {:induction false} ChangedAt(cs: seq<Chunk>, known: set<Digest>) returns (at: seq<nat>)
    ensures Lacking(cs, known, at) && Selects(cs, at, Changed(cs, known))
  {
    hide Selects;
    hide Lacking;
    at := [];
    if cs == [] {
      SelectsNone(cs, known);
    } else {
      var before := ChangedAt(cs[..|cs| - 1], known);
      at := if cs[|cs| - 1].hash in known then before else before + [|cs| - 1];
      SelectsMore(cs, before, Changed(cs[..|cs| - 1], known));
      assert Changed(cs[..|cs| - 1], known) + [] == Changed(cs[..|cs| - 1], known);
      LackingMore(cs, known, before);
    }
  }

  ghost predicate Lacking(cs: seq<Chunk>, known: set<Digest>, at: seq<nat>) {
    && (forall i: nat :: i in at <==> i < |cs| && cs[i].hash !in known)
    && (forall i, j :: 0 <= i < j < |at| ==> at[i] < at[j])
  }

  lemma LackingMore(cs: seq<Chunk>, known: set<Digest>, at: seq<nat>)
    requires cs != [] && Lacking(cs[..|cs| - 1], known, at)
    ensures Lacking(cs, known, if cs[|cs| - 1].hash in known then at else at + [|cs| - 1])
  {
    assert forall k :: 0 <= k < |at| ==> at[k] in at;
    assert forall i: nat :: i < |cs| - 1 ==> cs[..|cs| - 1][i] == cs[i];
  }

  lemma SelectsNone(cs: seq<Chunk>, known: set<Digest>)
    ensures Selects(cs, [], []) && Lacking([], known, [])
  {
  }

  lemma SelectsMore(cs: seq<Chunk>, at: seq<nat>, chosen: seq<Chunk>)
    requires cs != [] && Selects(cs[..|cs| - 1], at, chosen)
    ensures Selects(cs, at, chosen) && Selects(cs, at + [|cs| - 1], chosen + [cs[|cs| - 1]])
  {
  }

  lemma {:induction false} ChangedMembers(cs: seq<Chunk>, known: set<Digest>)
    ensures forall c :: c in Changed(cs, known) <==> c in cs && c.hash !in known
  {
    if cs != [] {
      ChangedMembers(cs[..|cs| - 1], known);
      assert forall c :: c in cs <==> c in cs[..|cs| - 1] || c == cs[|cs| - 1];
    }
  }

  /** The bytes of a chunk in its file. */
  function Piece(data: Bytes, c: Chunk): Bytes {
    if c.offset + c.size <= |data| then data[c.offset..c.offset + c.size] else []
  }

  /** The first chunk with the digest. */
  function Find(cs: seq<Chunk>, hash: Digest): (c: Chunk)
    requires hash in HashesOf(cs)
    ensures c in cs && c.hash == hash
  {
    if cs[0].hash == hash then cs[0] else Find(cs[1..], hash)
  }

  /** What is sent: the bytes of the changed chunks, by digest. */
  function Sent(data: Bytes, changed: seq<Chunk>): map<Digest, Bytes> {
    if changed == [] then map[]
    else
      var last := changed[|changed| - 1];
      Sent(data, changed[..|changed| - 1])[last.hash := Piece(data, last)]
  }

  /** The receiver's side: old bytes where the digest is known, sent ones elsewhere. */
  function Rebuilt(old_: Bytes, oldChunks: seq<Chunk>, newChunks: seq<Chunk>, sent: map<Digest, Bytes>): Bytes {
    if newChunks == [] then []
    else
      var c := newChunks[|newChunks| - 1];
      Rebuilt(old_, oldChunks, newChunks[..|newChunks| - 1], sent)
      + (if c.hash in HashesOf(oldChunks) then Piece(old_, Find(oldChunks, c.hash))
         else if c.hash in sent then sent[c.hash] else [])
  }

  ghost predicate Splits(h: Bytes -> Digest, data: Bytes, cs: seq<Chunk>) {
    |data| < TWO_64 && Tiles(h, data, 0, cs)
  }

  lemma NoWrap(n: nat)
    requires n < TWO_64
    ensures (0 + n) % TWO_64 == n
  {
  }

  lemma PieceAt(h: Bytes -> Digest, data: Bytes, c: Chunk, start: nat)
    requires |data| < TWO_64 && TileAt(h, data, 0, c, start)
    ensures start + c.size <= |data| && Piece(data, c) == data[start..start + c.size]
  {
    NoWrap(start);
  }

  lemma TileDigest(h: Bytes -> Digest, data: Bytes, c: Chunk, start: nat)
    requires |data| < TWO_64 && TileAt(h, data, 0, c, start)
    ensures h(Piece(data, c)) == c.hash
  {
    hide Piece;
    PieceAt(h, data, c, start);
  }

  lemma PieceDigest(h: Bytes -> Digest, data: Bytes, cs: seq<Chunk>, c: Chunk)
    requires Splits(h, data, cs) && c in cs
    ensures h(Piece(data, c)) == c.hash
  {
    hide Piece;
    hide TileAt;
    hide Start;
    var k: nat :| k < |cs| && cs[k] == c;
    TileDigest(h, data, cs[k], Start(cs, k));
  }

  ghost predicate Unmistakable(h: Bytes -> Digest, data: Bytes, cs: seq<Chunk>) {
    forall c :: c in cs ==> OnlyPreimage(h, Piece(data, c))
  }

  lemma {:induction false} SentPieces(h: Bytes -> Digest, data: Bytes, cs: seq<Chunk>, changed: seq<Chunk>)
    requires Splits(h, data, cs) && (forall c :: c in changed ==> c in cs)
    ensures forall c :: c in changed ==> c.hash in Sent(data, changed)
    ensures forall x :: x in Sent(data, changed) ==> h(Sent(data, changed)[x]) == x
  {
    hide Splits;
    hide Piece;
    if changed != [] {
      var front, last := changed[..|changed| - 1], changed[|changed| - 1];
      SentPieces(h, data, cs, front);
      assert forall c :: c in changed <==> c in front || c == last;
      PieceDigest(h, data, cs, last);
    }
  }

  /** The part for one chunk of the new version is that chunk's bytes. */
  lemma OnePart(
    h: Bytes -> Digest, old_: Bytes, oldChunks: seq<Chunk>, new_: Bytes, newChunks: seq<Chunk>,
    sent: map<Digest, Bytes>, c: Chunk)
    requires Splits(h, old_, oldChunks) && Splits(h, new_, newChunks) && Unmistakable(h, new_, newChunks)
    requires sent == Sent(new_, Changed(newChunks, HashesOf(oldChunks))) && c in newChunks
    ensures Piece(new_, c) ==
      if c.hash in HashesOf(oldChunks) then Piece(old_, Find(oldChunks, c.hash))
      else if c.hash in sent then sent[c.hash] else []
  {
    hide Splits;
    hide Piece;
    hide Find;
    PieceDigest(h, new_, newChunks, c);
    assert OnlyPreimage(h, Piece(new_, c));
    if c.hash in HashesOf(oldChunks) {
      PieceDigest(h, old_, oldChunks, Find(oldChunks, c.hash));
    } else {
      ChangedMembers(newChunks, HashesOf(oldChunks));
      SentPieces(h, new_, newChunks, Changed(newChunks, HashesOf(oldChunks)));
    }
  }

  lemma PieceAppends(h: Bytes -> Digest, data: Bytes, cs: seq<Chunk>, k: nat)
    requires Splits(h, data, cs) && k < |cs|
    ensures Start(cs, k) <= Start(cs, k + 1) <= |data|
    ensures data[..Start(cs, k)] + Piece(data, cs[k]) == data[..Start(cs, k + 1)]
  {
    hide Piece;
    hide TileAt;
    hide Tiles;
    TileOf(h, data, cs, k);
    var s, c := Start(cs, k), cs[k];
    PieceAt(h, data, c, s);
    Joined(data, s, s + c.size);
  }

  lemma TileOf(h: Bytes -> Digest, data: Bytes, cs: seq<Chunk>, k: nat)
    requires Tiles(h, data, 0, cs) && k < |cs|
    ensures TileAt(h, data, 0, cs[k], Start(cs, k))
  {
    hide TileAt;
  }

  lemma Joined(data: Bytes, i: nat, j: nat)
    requires i <= j <= |data|
    ensures data[..i] + data[i..j] == data[..j]
  {
  }

  lemma {:induction false} RebuiltPrefix(
    h: Bytes -> Digest, old_: Bytes, oldChunks: seq<Chunk>, new_: Bytes, newChunks: seq<Chunk>,
    sent: map<Digest, Bytes>, k: nat)
    requires Splits(h, old_, oldChunks) && Splits(h, new_, newChunks) && Unmistakable(h, new_, newChunks)
    requires sent == Sent(new_, Changed(newChunks, HashesOf(oldChunks))) && k <= |newChunks|
    ensures Start(newChunks, k) <= |new_|
    ensures Rebuilt(old_, oldChunks, newChunks[..k], sent) == new_[..Start(newChunks, k)]
  {
    hide Splits;
    hide Unmistakable;
    hide Piece;
    hide Find;
    hide Sent;
    hide Changed;
    hide HashesOf;
    if k > 0 {
      RebuiltPrefix(h, old_, oldChunks, new_, newChunks, sent, k - 1);
      assert newChunks[..k][..k - 1] == newChunks[..k - 1];
      OnePart(h, old_, oldChunks, new_, newChunks, sent, newChunks[k - 1]);
      PieceAppends(h, new_, newChunks, k - 1);
    }
  }

  /** The old version and the bytes of the changed chunks give back the new version. */
  lemma DeltaRebuilds(
    h: Bytes -> Digest, old_: Bytes, oldChunks: seq<Chunk>, new_: Bytes, newChunks: seq<Chunk>)
    requires Splits(h, old_, oldChunks) && Splits(h, new_, newChunks) && Unmistakable(h, new_, newChunks)
    ensures var sent := Sent(new_, Changed(newChunks, HashesOf(oldChunks)));
      Rebuilt(old_, oldChunks, newChunks, sent) == new_
  {
    hide Unmistakable;
    hide Rebuilt;
    hide Sent;
    hide Changed;
    hide TileAt;
    var sent := Sent(new_, Changed(newChunks, HashesOf(oldChunks)));
    RebuiltPrefix(h, old_, oldChunks, new_, newChunks, sent, |newChunks|);
    assert newChunks[..|newChunks|] == newChunks && new_[..|new_|] == new_;
  }

  /** The same for what the chunker makes of two files, large or small. */
  lemma FilesRebuild(h: Bytes -> Digest, mask: Word, old_: Bytes, new_: Bytes)
    requires |old_| < TWO_64 && |new_| < TWO_64 && Unmistakable(h, new_, FileChunks(h, mask, new_))
    ensures var a, b := FileChunks(h, mask, old_), FileChunks(h, mask, new_);
      Rebuilt(old_, a, b, Sent(new_, Changed(b, HashesOf(a)))) == new_
  {
    hide FileChunks;
    hide Unmistakable;
    hide Rebuilt;
    hide Sent;
    hide Changed;
    hide Tiles;
    FileChunksTile(h, mask, old_);
    FileChunksTile(h, mask, new_);
    DeltaRebuilds(h, old_, FileChunks(h, mask, old_), new_, FileChunks(h, mask, new_));
  }

  lemma FileChunksTile(h: Bytes -> Digest, mask: Word, data: Bytes)
    ensures Tiles(h, data, 0, FileChunks(h, mask, data))
  {
    hide Chunks;
    if |data| <= LARGE_FILE {
      var cs := [Chunk(0, |data|, h(data))];
      assert Start(cs, 0) == 0 && Start(cs, 1) == |data|;
      assert data[0..|data|] == data;
    } else {
      ChunksTile(h, mask, data, 0);
    }
  }
}
