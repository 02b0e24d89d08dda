/** Splitting a file where its contents say so, and sending only the pieces the other side lacks. */
module Chunker {
  import opened Base
  import opened Rabin

  const MIN_CHUNK := 16 * 1024
  const MAX_CHUNK := 256 * 1024
  const LARGE_FILE := 1024 * 1024

  datatype Chunk = Chunk(offset: u64, size: nat, hash: Digest)

  // ----- The chunker ------------------------------------------------------------------------

  function Power(k: nat): (p: nat)
    ensures p >= 1
  {
    if k == 0 then 1 else 2 * Power(k - 1)
  }

  ghost predicate IsPowerFor(avg: nat, p: nat, k: nat) {
    p == Power(k) && p >= avg && forall j :: 0 <= j < k ==> Power(j) < avg
  }

  /** The smallest power of two that is no less than `avg`. */
  method PowerForAvg(avg: nat) returns (p: nat)
    ensures exists k :: IsPowerFor(avg, p, k)
  {
    p := 1;
    ghost var k: nat := 0;
    while p < avg
      invariant p == Power(k) && p >= 1 && forall j :: 0 <= j < k ==> Power(j) < avg
      decreases avg - p
    {
      p, k := 2 * p, k + 1;
    }
    assert IsPowerFor(avg, p, k);
  }

  datatype CDCChunker = CDCChunker(avgChunkSize: nat, mask: Word)

  /** One less than that power of two, as a mask. */
  ghost predicate IsMask(avg: nat, mask: Word) {
    exists p: nat, k: nat :: IsPowerFor(avg, p, k) && 1 <= p <= TWO_64 && mask == ToWord(p - 1)
  }

  method NewChunker(avg: nat) returns (r: Result<CDCChunker>)
    ensures r.Ok? <==> MIN_CHUNK <= avg <= MAX_CHUNK
    ensures r.Ok? ==> r.value.avgChunkSize == avg && IsMask(avg, r.value.mask)
  {
    if avg < MIN_CHUNK || avg > MAX_CHUNK {
      return Err("avg_chunk_size must be between kMinChunkSize (16 KB) and kMaxChunkSize (256 KB)");
    }
    var p := PowerForAvg(avg);
    ghost var k: nat :| IsPowerFor(avg, p, k);
    assert 1 <= p <= 2 * avg by {
      if k > 0 {
        assert Power(k - 1) < avg;
      }
    }
    return Ok(CDCChunker(avg, ToWord(p - 1)));
  }

  // ----- Boundaries -------------------------------------------------------------------------

  /** A chunk of `len` bytes with fingerprint `fp` ends here. */
  predicate Cut(mask: Word, fp: Word, len: nat) {
    (len >= MIN_CHUNK && Clear(fp, mask)) || len >= MAX_CHUNK
  }

  /** Where the chunk that starts at the beginning of `data` is cut, `n` bytes having been taken in. */
  function NextCut(mask: Word, data: Bytes, n: nat, fp: Word): Option<nat>
    requires n <= |data|
    decreases |data| - n
  {
    if n == |data| then None
    else
      var fp' := ByteStep(fp, data[n]);
      if Cut(mask, fp', n + 1) then Some(n + 1) else NextCut(mask, data, n + 1, fp')
  }

  /** A cut is the first length at which the bytes of the chunk, and they alone, ask for one. */
  ghost predicate IsFirstCut(mask: Word, data: Bytes, n: nat, c: nat) {
    && n < c <= |data| && Cut(mask, Fingerprint(data[..c]), c)
    && forall m :: n < m < c ==> !Cut(mask, Fingerprint(data[..m]), m)
  }

  lemma {:induction false} NextCutIsFirst(mask: Word, data: Bytes, n: nat)
    requires n <= |data|
    ensures var c := NextCut(mask, data, n, Fingerprint(data[..n]));
      if c.Some? then IsFirstCut(mask, data, n, c.value)
      else forall m :: n < m <= |data| ==> !Cut(mask, Fingerprint(data[..m]), m)
    decreases |data| - n
  {
    hide Cut;
    hide ByteStep;
    if n < |data| {
      assert data[..n + 1][..n] == data[..n];
      NextCutIsFirst(mask, data, n + 1);
    }
  }

  /** The chunks of `data`, which starts at `at` in the whole. */
  function Chunks(h: Bytes -> Digest, mask: Word, data: Bytes, at: nat): seq<Chunk>
    decreases |data|
  {
    if data == [] then []
    else
      var n := FirstSize(mask, data);
      [Chunk(at % TWO_64, n, h(data[..n]))] + Chunks(h, mask, data[n..], at + n)
  }

  lemma FirstCutBounds(mask: Word, data: Bytes)
    ensures var c := NextCut(mask, data, 0, 0);
      if c.Some? then MIN_CHUNK <= c.value <= MAX_CHUNK && c.value <= |data| else |data| < MAX_CHUNK
  {
    assert data[..0] == [];
    NextCutIsFirst(mask, data, 0);
    assert |data| >= MAX_CHUNK ==> Cut(mask, Fingerprint(data[..MAX_CHUNK]), MAX_CHUNK);
  }

  /** The size of the first chunk: up to the first cut, or all there is. */
  function FirstSize(mask: Word, data: Bytes): (n: nat)
    requires data != []
    ensures 0 < n <= |data| && n <= MAX_CHUNK && (n < |data| ==> MIN_CHUNK <= n)
  {
    FirstCutBounds(mask, data);
    var c := NextCut(mask, data, 0, 0);
    if c.Some? then c.value else |data|
  }

  /** One pass with the table, cutting as it goes. */
  method ChunkBuffer(h: Bytes -> Digest, c: CDCChunker, data: Bytes, base: u64) returns (chunks: seq<Chunk>)
    ensures chunks == Chunks(h, c.mask, data, base)
  {
    hide ByteStep;
    hide Cut;
    hide Chunks;
    hide TableStep;
    var table := RabinTable();
    chunks := [];
    var start, fp := 0, 0;
    ghost var all := Chunks(h, c.mask, data, base);
    assert data[0..] == data;
    for i := 0 to |data|
      invariant IsTable(table[..])
      invariant 0 <= start <= i
      invariant all == chunks + Chunks(h, c.mask, data[start..], base + start)
      invariant NextCut(c.mask, data[start..], 0, 0) == NextCut(c.mask, data[start..], i - start, fp)
    {
      TableIsBitSteps(table[..], fp, data[i]);
      assert data[start..][i - start] == data[i];
      fp := TableStep(table[..], fp, data[i]);
      var len := i - start + 1;
      if Cut(c.mask, fp, len) {
        assert data[start..][..len] == data[start..i + 1] && data[start..][len..] == data[i + 1..];
        ChunksCut(h, c.mask, data[start..], base + start, len);
        Regroup(chunks, [Chunk((base + start) % TWO_64, len, h(data[start..i + 1]))],
          Chunks(h, c.mask, data[i + 1..], base + i + 1));
        chunks := chunks + [Chunk((base + start) % TWO_64, len, h(data[start..i + 1]))];
        start, fp := i + 1, 0;
      }
    }
    ChunksTail(h, c.mask, data[start..], base + start);
    if start < |data| {
      chunks := chunks + [Chunk((base + start) % TWO_64, |data| - start, h(data[start..]))];
    }
  }

  lemma ChunksCut(h: Bytes -> Digest, mask: Word, data: Bytes, at: nat, n: nat)
    requires NextCut(mask, data, 0, 0) == Some(n) && n <= |data| && data != []
    ensures Chunks(h, mask, data, at) == [Chunk(at % TWO_64, n, h(data[..n]))] + Chunks(h, mask, data[n..], at + n)
  {
    hide NextCut;
  }

  lemma ChunksTail(h: Bytes -> Digest, mask: Word, data: Bytes, at: nat)
    requires NextCut(mask, data, 0, 0) == None
    ensures Chunks(h, mask, data, at) == if data == [] then [] else [Chunk(at % TWO_64, |data|, h(data))]
  {
    hide NextCut;
    if data != [] {
      assert data[..|data|] == data && data[|data|..] == [];
    }
  }

  /** Small files are one chunk, however small; the others are split. */
  method ChunkFile(h: Bytes -> Digest, c: CDCChunker, data: Bytes) returns (chunks: seq<Chunk>)
    ensures chunks == FileChunks(h, c.mask, data)
    ensures |data| <= 1048576 ==> chunks == [Chunk(0, |data|, h(data))]
    ensures |data| > 1048576 ==> chunks == Chunks(h, c.mask, data, 0)
  {
    if |data| <= LARGE_FILE {
      return [Chunk(0, |data|, h(data))];
    }
    chunks := ChunkBuffer(h, c, data, 0);
  }

  function FileChunks(h: Bytes -> Digest, mask: Word, data: Bytes): seq<Chunk> {
    if |data| <= LARGE_FILE then [Chunk(0, |data|, h(data))] else Chunks(h, mask, data, 0)
  }

  // ----- Where the chunks are ---------------------------------------------------------------

  /** Where chunk `k` starts; with `k` the number of chunks, where the data ends. */
  function Start(cs: seq<Chunk>, k: nat): nat
    requires k <= |cs|
  {
    if k == 0 then 0 else Start(cs, k - 1) + cs[k - 1].size
  }

  lemma {:induction false} StartOfTail(cs: seq<Chunk>, k: nat)
    requires 0 < k <= |cs|
    ensures Start(cs, k) == cs[0].size + Start(cs[1..], k - 1)
  {
    if k > 1 {
      StartOfTail(cs, k - 1);
    }
  }

  ghost predicate TileAt(h: Bytes -> Digest, data: Bytes, at: nat, c: Chunk, start: nat) {
    && start + c.size <= |data| && c.offset == (at + start) % TWO_64
    && c.hash == h(data[start..start + c.size])
  }

  /** The pieces tile the data: in order, without gap or overlap, each with the digest of its bytes. */
  ghost predicate Tiles(h: Bytes -> Digest, data: Bytes, at: nat, cs: seq<Chunk>) {
    && Start(cs, |cs|) == |data|
    && forall k :: 0 <= k < |cs| ==> TileAt(h, data, at, cs[k], Start(cs, k))
  }

  lemma TileShift(h: Bytes -> Digest, data: Bytes, at: nat, n: nat, c: Chunk, s: nat)
    requires n <= |data| && TileAt(h, data[n..], at + n, c, s)
    ensures TileAt(h, data, at, c, n + s)
  {
    assert data[n..][s..s + c.size] == data[n + s..n + s + c.size];
    assert (at + n) + s == at + (n + s);
  }

  lemma {:induction false} ChunksTile(h: Bytes -> Digest, mask: Word, data: Bytes, at: nat)
    ensures Tiles(h, data, at, Chunks(h, mask, data, at))
    decreases |data|
  {
    hide FirstSize;
    hide Chunks;
    hide TileAt;
    ChunksUnfold(h, mask, data, at);
    if data != [] {
      var n, cs := FirstSize(mask, data), Chunks(h, mask, data, at);
      ChunksTile(h, mask, data[n..], at + n);
      assert cs[1..] == Chunks(h, mask, data[n..], at + n);
      StartOfTail(cs, |cs|);
      forall k | 0 <= k < |cs|
        ensures TileAt(h, data, at, cs[k], Start(cs, k))
      {
        if k > 0 {
          TileOfTail(h, data, at, cs, n, k);
        }
      }
    }
  }

  lemma TileOfTail(h: Bytes -> Digest, data: Bytes, at: nat, cs: seq<Chunk>, n: nat, k: nat)
    requires 0 < k < |cs| && n <= |data| && cs[0].size == n && Tiles(h, data[n..], at + n, cs[1..])
    ensures TileAt(h, data, at, cs[k], Start(cs, k))
  {
    hide TileAt;
    StartOfTail(cs, k);
    assert TileAt(h, data[n..], at + n, cs[1..][k - 1], Start(cs[1..], k - 1));
    TileShift(h, data, at, n, cs[k], Start(cs[1..], k - 1));
  }

  lemma ChunksUnfold(h: Bytes -> Digest, mask: Word, data: Bytes, at: nat)
    ensures data == [] ==> Chunks(h, mask, data, at) == []
    ensures data != [] ==>
      var n := FirstSize(mask, data);
      var first := Chunk(at % TWO_64, n, h(data[..n]));
      Chunks(h, mask, data, at) == [first] + Chunks(h, mask, data[n..], at + n) && TileAt(h, data, at, first, 0)
  {
    hide FirstSize;
    if data != [] {
      assert data[0..0 + FirstSize(mask, data)] == data[..FirstSize(mask, data)];
    }
  }

  /** All chunks but the last are between the two bounds; the last is not empty and not too long. */
  lemma {:induction false} ChunkSizes(h: Bytes -> Digest, mask: Word, data: Bytes, at: nat, k: nat)
    requires k < |Chunks(h, mask, data, at)|
    ensures var cs := Chunks(h, mask, data, at);
      0 < cs[k].size <= 262144 && (k + 1 < |cs| ==> 16384 <= cs[k].size)
    decreases |data|
  {
    if k > 0 {
      var n := FirstSize(mask, data);
      ChunkSizes(h, mask, data[n..], at + n, k - 1);
    }
  }

  // ----- Where the cuts are -----------------------------------------------------------------

  /** The fingerprint is divisible by the smallest power of two that is no less than the average, for averages between
      16 KB and 256 KB. */
  predicate Asks(avg: nat, fp: Word) {
    if avg <= 16384 then fp % 16384 == 0
    else if avg <= 32768 then fp % 32768 == 0
    else if avg <= 65536 then fp % 65536 == 0
    else if avg <= 131072 then fp % 131072 == 0
    else fp % 262144 == 0
  }

  lemma PowersOfTwo()
    ensures Power(13) == 8192 && Power(14) == 16384 && Power(15) == 32768 && Power(16) == 65536
    ensures Power(17) == 131072 && Power(18) == 262144
  {
    assert Power(4) == 16;
    assert Power(8) == 256;
    assert Power(12) == 4096;
    assert Power(16) == 65536;
  }

  lemma {:induction false} PowerGrows(j: nat, k: nat)
    requires j <= k
    ensures Power(j) <= Power(k)
  {
    if j < k {
      PowerGrows(j, k - 1);
    }
  }

  lemma MaskAsks(avg: nat, mask: Word, fp: Word)
    requires 16384 <= avg <= 262144 && IsMask(avg, mask)
    ensures Clear(fp, mask) <==> Asks(avg, fp)
  {
    hide Power;
    hide Clear;
    hide ToWord;
    PowersOfTwo();
    var p: nat, k: nat :| IsPowerFor(avg, p, k) && 1 <= p <= TWO_64 && mask == ToWord(p - 1);
    if k < 14 {
      PowerGrows(k, 13);
    }
    assert k == 14 || k == 15 || k == 16 || k == 17 || k == 18;
    Literals();
    ClearLaws(fp);
  }

  /** A piece ends where its own bytes ask for it: one before the last is 256 KB long, or at least 16 KB with a
      fingerprint that is a multiple of the power of two chosen for the average; and no shorter beginning of a piece,
      the last one's included, asks for an end. */
  ghost predicate EndsWhereAsked(avg: nat, piece: Bytes, last: bool) {
    && 0 < |piece| <= 262144
    && (!last ==> |piece| == 262144 || (|piece| >= 16384 && Asks(avg, Fingerprint(piece))))
    && forall m :: 16384 <= m < |piece| ==> !Asks(avg, Fingerprint(piece[..m]))
  }

  ghost predicate CutWhereAsked(avg: nat, data: Bytes, cs: seq<Chunk>) {
    forall k :: 0 <= k < |cs| ==> PieceAsked(avg, data, Start(cs, k), cs[k].size, k + 1 == |cs|)
  }

  ghost predicate PieceAsked(avg: nat, data: Bytes, start: nat, size: nat, last: bool) {
    start + size <= |data| && EndsWhereAsked(avg, data[start..start + size], last)
  }

  lemma CutIs(avg: nat, mask: Word, fp: Word, len: nat)
    requires 16384 <= avg <= 262144 && IsMask(avg, mask)
    ensures Cut(mask, fp, len) <==> len >= 262144 || (len >= 16384 && Asks(avg, fp))
  {
    hide Asks;
    hide Clear;
    hide IsMask;
    MaskAsks(avg, mask, fp);
  }

  lemma FirstCut(mask: Word, data: Bytes)
    ensures var c := NextCut(mask, data, 0, 0);
      if c.Some? then IsFirstCut(mask, data, 0, c.value)
      else forall m :: 0 < m <= |data| ==> !Cut(mask, Fingerprint(data[..m]), m)
  {
    hide NextCut;
    hide Cut;
    assert data[..0] == [];
    NextCutIsFirst(mask, data, 0);
  }

  lemma FirstPieceAsked(avg: nat, mask: Word, data: Bytes)
    requires 16384 <= avg <= 262144 && IsMask(avg, mask) && data != []
    ensures EndsWhereAsked(avg, data[..FirstSize(mask, data)], NextCut(mask, data, 0, 0).None?)
    ensures NextCut(mask, data, 0, 0).None? ==> FirstSize(mask, data) == |data|
  {
    hide NextCut;
    hide Asks;
    hide IsMask;
    hide Fingerprint;
    hide Cut;
    FirstCut(mask, data);
    FirstCutBounds(mask, data);
    var n := FirstSize(mask, data);
    var piece := data[..n];
    assert piece[..n] == piece;
    CutIs(avg, mask, Fingerprint(piece), n);
    forall m | 16384 <= m < n
      ensures !Asks(avg, Fingerprint(piece[..m]))
    {
      assert piece[..m] == data[..m];
      CutIs(avg, mask, Fingerprint(data[..m]), m);
    }
  }

  lemma PieceShift(avg: nat, data: Bytes, n: nat, start: nat, size: nat, last: bool)
    requires n <= |data| && PieceAsked(avg, data[n..], start, size, last)
    ensures PieceAsked(avg, data, n + start, size, last)
  {
    hide EndsWhereAsked;
    assert data[n..][start..start + size] == data[n + start..n + start + size];
  }

  lemma FirstAsked(h: Bytes -> Digest, avg: nat, mask: Word, data: Bytes, at: nat)
    requires 16384 <= avg <= 262144 && IsMask(avg, mask) && data != []
    ensures var cs := Chunks(h, mask, data, at);
      cs != [] && PieceAsked(avg, data, 0, cs[0].size, |cs| == 1)
  {
    hide NextCut;
    hide Chunks;
    hide EndsWhereAsked;
    hide TileAt;
    hide IsMask;
    ChunksUnfold(h, mask, data, at);
    FirstPieceAsked(avg, mask, data);
    var n := FirstSize(mask, data);
    assert data[0..0 + n] == data[..n];
    if |Chunks(h, mask, data, at)| > 1 {
      NotTheTail(h, mask, data, at);
    } else {
      LastMayEnd(avg, data[..n], NextCut(mask, data, 0, 0).None?);
    }
  }

  lemma LastMayEnd(avg: nat, piece: Bytes, last: bool)
    requires EndsWhereAsked(avg, piece, last)
    ensures EndsWhereAsked(avg, piece, true)
  {
    hide Asks;
    hide Fingerprint;
  }

  /** A buffer is cut where its bytes ask for it, and nowhere else. */
  lemma {:induction false} ChunksWhereAsked(h: Bytes -> Digest, avg: nat, mask: Word, data: Bytes, at: nat)
    requires 16384 <= avg <= 262144 && IsMask(avg, mask)
    ensures CutWhereAsked(avg, data, Chunks(h, mask, data, at))
    decreases |data|
  {
    hide FirstSize;
    hide Chunks;
    hide PieceAsked;
    hide TileAt;
    hide IsMask;
    ChunksUnfold(h, mask, data, at);
    if data != [] {
      var n, cs := FirstSize(mask, data), Chunks(h, mask, data, at);
      FirstAsked(h, avg, mask, data, at);
      ChunksWhereAsked(h, avg, mask, data[n..], at + n);
      var rest := Chunks(h, mask, data[n..], at + n);
      assert cs[1..] == rest;
      forall k | 0 <= k < |cs|
        ensures PieceAsked(avg, data, Start(cs, k), cs[k].size, k + 1 == |cs|)
      {
        if k > 0 {
          StartOfTail(cs, k);
          assert rest[k - 1] == cs[k];
          PieceShift(avg, data, n, Start(rest, k - 1), cs[k].size, k == |rest|);
        }
      }
    }
  }

  lemma {:induction false} StartGrows(cs: seq<Chunk>, j: nat, k: nat)
    requires j <= k <= |cs|
    ensures Start(cs, j) <= Start(cs, k)
  {
    if j < k {
      StartGrows(cs, j, k - 1);
    }
  }

  /** There is only one way to cut a buffer where its bytes ask for it. */
  lemma {:induction false} OneWayToCut(h: Bytes -> Digest, avg: nat, data: Bytes, at: nat, cs: seq<Chunk>, ds: seq<Chunk>)
    requires Tiles(h, data, at, cs) && CutWhereAsked(avg, data, cs)
    requires Tiles(h, data, at, ds) && CutWhereAsked(avg, data, ds)
    ensures cs == ds
  {
    hide EndsWhereAsked;
    hide TileAt;
    SameStarts(h, avg, data, at, cs, ds, if |cs| < |ds| then |cs| else |ds|);
    var n := if |cs| < |ds| then |cs| else |ds|;
    NothingAfterEnd(avg, data, cs, n);
    NothingAfterEnd(avg, data, ds, n);
    forall k | 0 <= k < |cs|
      ensures cs[k] == ds[k]
    {
      SameStarts(h, avg, data, at, cs, ds, k);
      SameStarts(h, avg, data, at, cs, ds, k + 1);
      SameTile(h, data, at, cs[k], ds[k], Start(cs, k));
    }
  }

  lemma NothingAfterEnd(avg: nat, data: Bytes, cs: seq<Chunk>, n: nat)
    requires CutWhereAsked(avg, data, cs) && Start(cs, |cs|) == |data| && n <= |cs|
    ensures Start(cs, n) == |data| <==> n == |cs|
  {
    hide Fingerprint;
    if n < |cs| {
      assert PieceAsked(avg, data, Start(cs, n), cs[n].size, n + 1 == |cs|);
      StartGrows(cs, n + 1, |cs|);
    }
  }

  lemma SameTile(h: Bytes -> Digest, data: Bytes, at: nat, c: Chunk, d: Chunk, start: nat)
    requires TileAt(h, data, at, c, start) && TileAt(h, data, at, d, start) && c.size == d.size
    ensures c == d
  {
  }

  lemma {:induction false} SameStarts(
    h: Bytes -> Digest, avg: nat, data: Bytes, at: nat, cs: seq<Chunk>, ds: seq<Chunk>, k: nat)
    requires Tiles(h, data, at, cs) && CutWhereAsked(avg, data, cs) && k <= |cs| && k <= |ds|
    requires Tiles(h, data, at, ds) && CutWhereAsked(avg, data, ds)
    ensures Start(cs, k) == Start(ds, k)
  {
    hide Tiles;
    hide CutWhereAsked;
    hide PieceAsked;
    if k > 0 {
      SameStarts(h, avg, data, at, cs, ds, k - 1);
      PieceIs(h, avg, data, at, cs, k - 1);
      PieceIs(h, avg, data, at, ds, k - 1);
      NoShorter(avg, data, Start(cs, k - 1), cs[k - 1].size, ds[k - 1].size, k == |cs|, k == |ds|);
      NoShorter(avg, data, Start(cs, k - 1), ds[k - 1].size, cs[k - 1].size, k == |ds|, k == |cs|);
    }
  }

  lemma PieceIs(h: Bytes -> Digest, avg: nat, data: Bytes, at: nat, cs: seq<Chunk>, k: nat)
    requires Tiles(h, data, at, cs) && CutWhereAsked(avg, data, cs) && k < |cs|
    ensures PieceAsked(avg, data, Start(cs, k), cs[k].size, k + 1 == |cs|)
    ensures k + 1 == |cs| ==> Start(cs, k) + cs[k].size == |data|
  {
    hide TileAt;
    hide PieceAsked;
    assert k + 1 == |cs| ==> Start(cs, k + 1) == |data|;
  }

  /** A piece that ends where asked is no shorter than another one from the same place. */
  lemma NoShorter(avg: nat, data: Bytes, start: nat, a: nat, b: nat, lastA: bool, lastB: bool)
    requires PieceAsked(avg, data, start, a, lastA) && PieceAsked(avg, data, start, b, lastB)
    requires lastA ==> start + a == |data|
    ensures a >= b
  {
    hide Asks;
    hide Fingerprint;
    var m := if a < b then a else b;
    assert data[start..start + b][..m] == data[start..start + m];
  }

  lemma {:induction false} ZeroFingerprint(data: Bytes)
    requires forall i :: 0 <= i < |data| ==> data[i] == 0
    ensures Fingerprint(data) == 0
  {
    hide BitStep;
    if data != [] {
      ZeroFingerprint(data[..|data| - 1]);
      ZeroSteps();
    }
  }

  lemma ZeroAsks(avg: nat)
    ensures Asks(avg, 0)
  {
  }

  lemma ZeroPiece(avg: nat, piece: Bytes, last: bool)
    requires EndsWhereAsked(avg, piece, last) && forall i :: 0 <= i < |piece| ==> piece[i] == 0
    ensures |piece| <= 16384 && (!last ==> |piece| == 16384)
  {
    hide Asks;
    hide Fingerprint;
    var m := if |piece| < 16384 then |piece| else 16384;
    ZeroFingerprint(piece[..m]);
    ZeroAsks(avg);
  }

  /** A buffer of zeros is cut after every 16 KB. */
  lemma ZerosAreCutEarly(h: Bytes -> Digest, avg: nat, mask: Word, data: Bytes, at: nat, k: nat)
    requires 16384 <= avg <= 262144 && IsMask(avg, mask) && forall i :: 0 <= i < |data| ==> data[i] == 0
    requires k < |Chunks(h, mask, data, at)|
    ensures var cs := Chunks(h, mask, data, at);
      cs[k].size <= 16384 && (k + 1 < |cs| ==> cs[k].size == 16384)
  {
    hide Chunks;
    hide EndsWhereAsked;
    hide IsMask;
    var cs := Chunks(h, mask, data, at);
    ChunksWhereAsked(h, avg, mask, data, at);
    assert PieceAsked(avg, data, Start(cs, k), cs[k].size, k + 1 == |cs|);
    ZeroPiece(avg, data[Start(cs, k)..Start(cs, k) + cs[k].size], k + 1 == |cs|);
  }

  /** From any boundary on, the chunks are those of the remaining bytes alone. */
  lemma {:induction false} ChunksFromBoundary(h: Bytes -> Digest, mask: Word, data: Bytes, at: nat, k: nat)
    requires k <= |Chunks(h, mask, data, at)|
    ensures var cs := Chunks(h, mask, data, at);
      Start(cs, k) <= |data| && cs[k..] == Chunks(h, mask, data[Start(cs, k)..], at + Start(cs, k))
    decreases |data|
  {
    hide FirstSize;
    hide Chunks;
    hide TileAt;
    ChunksUnfold(h, mask, data, at);
    var cs := Chunks(h, mask, data, at);
    if k == 0 {
      assert data[0..] == data && cs[0..] == cs;
    } else {
      var n := FirstSize(mask, data);
      assert cs[1..] == Chunks(h, mask, data[n..], at + n);
      ChunksFromBoundary(h, mask, data[n..], at + n, k - 1);
      StartOfTail(cs, k);
      var s := Start(cs[1..], k - 1);
      assert cs[k..] == cs[1..][k - 1..] && data[n..][s..] == data[n + s..];
    }
  }

  lemma {:induction false} NextCutInPrefix(mask: Word, a: Bytes, b: Bytes, n: nat, fp: Word, common: nat)
    requires common <= |a| && common <= |b| && a[..common] == b[..common] && n <= common
    ensures var c := NextCut(mask, a, n, fp); c.Some? && c.value <= common ==> NextCut(mask, b, n, fp) == c
    ensures NextCut(mask, a, n, fp).Some? ==> NextCut(mask, a, n, fp).value > n
    decreases |a| - n
  {
    hide Cut;
    hide ByteStep;
    if n < common {
      assert a[n] == a[..common][n] == b[n];
      NextCutInPrefix(mask, a, b, n + 1, ByteStep(fp, a[n]), common);
    } else {
      NextCutAfter(mask, a, n, fp);
    }
  }

  lemma {:induction false} NextCutAfter(mask: Word, data: Bytes, n: nat, fp: Word)
    requires n <= |data|
    ensures NextCut(mask, data, n, fp).Some? ==> NextCut(mask, data, n, fp).value > n
    decreases |data| - n
  {
    hide Cut;
    hide ByteStep;
    if n < |data| {
      NextCutAfter(mask, data, n + 1, ByteStep(fp, data[n]));
    }
  }

  lemma SameFirst(mask: Word, a: Bytes, b: Bytes, common: nat)
    requires common <= |a| && common <= |b| && a[..common] == b[..common] && a != []
    requires NextCut(mask, a, 0, 0) == Some(FirstSize(mask, a)) && FirstSize(mask, a) <= common
    ensures b != [] && FirstSize(mask, b) == FirstSize(mask, a)
    ensures var n := FirstSize(mask, a);
      a[..n] == b[..n] && a[n..][..common - n] == b[n..][..common - n]
  {
    hide NextCut;
    var n := FirstSize(mask, a);
    NextCutInPrefix(mask, a, b, 0, 0, common);
    assert a[..n] == a[..common][..n] && b[..n] == b[..common][..n];
    assert a[n..][..common - n] == a[..common][n..] && b[n..][..common - n] == b[..common][n..];
  }

  /** Two buffers share every chunk that ends inside their common beginning, except the tail of one. */
  lemma {:induction false} CommonPrefix(
    h: Bytes -> Digest, mask: Word, a: Bytes, b: Bytes, at: nat, common: nat, k: nat)
    requires common <= |a| && common <= |b| && a[..common] == b[..common]
    requires k + 1 < |Chunks(h, mask, a, at)| && Start(Chunks(h, mask, a, at), k + 1) <= common
    ensures k < |Chunks(h, mask, b, at)| && Chunks(h, mask, b, at)[..k + 1] == Chunks(h, mask, a, at)[..k + 1]
    decreases |a|
  {
    hide NextCut;
    hide FirstSize;
    hide Chunks;
    hide TileAt;
    var x, y := Chunks(h, mask, a, at), Chunks(h, mask, b, at);
    ChunksUnfold(h, mask, a, at);
    ChunksUnfold(h, mask, b, at);
    var n := FirstSize(mask, a);
    StartOfTail(x, k + 1);
    NotTheTail(h, mask, a, at);
    SameFirst(mask, a, b, common);
    if k > 0 {
      assert x[1..] == Chunks(h, mask, a[n..], at + n);
      CommonPrefix(h, mask, a[n..], b[n..], at + n, common - n, k - 1);
      SamePrefix(x, y, Chunks(h, mask, a[n..], at + n), Chunks(h, mask, b[n..], at + n), k);
    }
  }

  lemma SamePrefix(x: seq<Chunk>, y: seq<Chunk>, xs: seq<Chunk>, ys: seq<Chunk>, k: nat)
    requires |x| > 0 && |y| > 0 && x == [x[0]] + xs && y == [y[0]] + ys && x[0] == y[0]
    requires k <= |xs| && k <= |ys| && xs[..k] == ys[..k]
    ensures x[..k + 1] == y[..k + 1]
  {
    assert x[..k + 1] == [x[0]] + xs[..k] && y[..k + 1] == [y[0]] + ys[..k];
  }

  lemma NotTheTail(h: Bytes -> Digest, mask: Word, data: Bytes, at: nat)
    requires |Chunks(h, mask, data, at)| > 1
    ensures NextCut(mask, data, 0, 0) == Some(FirstSize(mask, data))
  {
    if NextCut(mask, data, 0, 0).None? {
      ChunksTail(h, mask, data, at);
    }
  }

  /** Whatever comes before, two buffers that have a boundary before the same remainder share all its
      chunks, up to their offsets. */
  lemma SameRemainder(
    h: Bytes -> Digest, mask: Word, a: Bytes, b: Bytes, j: nat, k: nat)
    requires j <= |Chunks(h, mask, a, 0)| && k <= |Chunks(h, mask, b, 0)|
    requires Start(Chunks(h, mask, a, 0), j) <= |a| && Start(Chunks(h, mask, b, 0), k) <= |b|
    requires a[Start(Chunks(h, mask, a, 0), j)..] == b[Start(Chunks(h, mask, b, 0), k)..]
    ensures var x, y := Chunks(h, mask, a, 0)[j..], Chunks(h, mask, b, 0)[k..];
      |x| == |y| && forall i :: 0 <= i < |x| ==> x[i].size == y[i].size && x[i].hash == y[i].hash
  {
    hide Chunks;
    ChunksFromBoundary(h, mask, a, 0, j);
    ChunksFromBoundary(h, mask, b, 0, k);
    var rest := a[Start(Chunks(h, mask, a, 0), j)..];
    Shifted(h, mask, rest, Start(Chunks(h, mask, a, 0), j), Start(Chunks(h, mask, b, 0), k));
  }

  lemma {:induction false} Shifted(h: Bytes -> Digest, mask: Word, data: Bytes, at: nat, at': nat)
    ensures var x, y := Chunks(h, mask, data, at), Chunks(h, mask, data, at');
      |x| == |y| && forall i :: 0 <= i < |x| ==> x[i].size == y[i].size && x[i].hash == y[i].hash
    decreases |data|
  {
    hide FirstSize;
    if data != [] {
      var n := FirstSize(mask, data);
      Shifted(h, mask, data[n..], at + n, at' + n);
    }
  }
}
