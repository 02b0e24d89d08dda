/** The rolling fingerprint: one table look-up per byte, against eight steps of the polynomial. */
module Rabin {
  import opened Base

  type Word = bv64

  const POLY: Word := 0xbfe6b8a5bf378d83

  // Word operations under names, so that what follows from their laws needs no bit-vectors.

  function Xor(a: Word, b: Word): Word {
    a ^ b
  }

  function Half(v: Word): Word {
    v >> 1
  }

  predicate Odd(v: Word) {
    v & 1 == 1
  }

  function High(v: Word): Word {
    v & 0xFFFF_FFFF_FFFF_FF00
  }

  function Low(v: Word): Byte {
    (v & 0xFF) as Byte
  }

  function ShiftByte(v: Word): Word {
    v >> 8
  }

  function Widen(b: Byte): Word {
    b as Word
  }

  lemma XorLaws(a: Word, b: Word)
    ensures Xor(a, b) == Xor(b, a) && Xor(a, a) == 0 && Xor(a, 0) == a
  {
  }

  lemma XorAssociative(a: Word, b: Word, c: Word)
    ensures Xor(Xor(a, b), c) == Xor(a, Xor(b, c))
  {
  }

  lemma XorPairs(a: Word, b: Word, c: Word, d: Word)
    ensures Xor(Xor(a, b), Xor(c, d)) == Xor(Xor(a, c), Xor(b, d))
  {
    hide Xor;
    XorAssociative(a, b, Xor(c, d));
    XorAssociative(b, c, d);
    XorLaws(b, c);
    XorAssociative(c, b, d);
    XorAssociative(a, c, Xor(b, d));
  }

  lemma HalfLaws(a: Word, b: Word)
    ensures Half(Xor(a, b)) == Xor(Half(a), Half(b))
    ensures Odd(Xor(a, b)) <==> Odd(a) != Odd(b)
  {
  }

  lemma ByteLaws(v: Word, fp: Word, b: Byte, c: Byte)
    ensures v == Xor(High(v), Widen(Low(v))) && ShiftByte(High(v)) == ShiftByte(v)
    ensures ShiftByte(Xor(fp, Widen(b))) == ShiftByte(fp)
    ensures Widen(b ^ c) == Xor(Widen(b), Widen(c))
  {
  }

  lemma ByteIndex(b: Byte)
    ensures 0 <= b as int < 256 && (b as int) as Byte == b
  {
  }

  function ToWord(n: nat): Word
    requires n < TWO_64
  {
    n as Word
  }

  /** The word is clear under the mask. */
  predicate Clear(v: Word, mask: Word) {
    v & mask == 0
  }

  lemma Literals()
    ensures ToWord(0x3FFF) == 0x3FFF && ToWord(0x7FFF) == 0x7FFF && ToWord(0xFFFF) == 0xFFFF
    ensures ToWord(0x1_FFFF) == 0x1_FFFF && ToWord(0x3_FFFF) == 0x3_FFFF
  {
  }

  lemma ClearLaws(v: Word)
    ensures Clear(v, 0x3FFF) <==> v % 0x4000 == 0
    ensures Clear(v, 0x7FFF) <==> v % 0x8000 == 0
    ensures Clear(v, 0xFFFF) <==> v % 0x1_0000 == 0
    ensures Clear(v, 0x1_FFFF) <==> v % 0x2_0000 == 0
    ensures Clear(v, 0x3_FFFF) <==> v % 0x4_0000 == 0
  {
    hide Clear;
    Clear14(v);
    Clear15(v);
    Clear16(v);
    Clear17(v);
    Clear18(v);
  }

  lemma Clear14(v: Word)
    ensures Clear(v, 0x3FFF) <==> v % 0x4000 == 0
  {
  }

  lemma Clear15(v: Word)
    ensures Clear(v, 0x7FFF) <==> v % 0x8000 == 0
  {
  }

  lemma Clear16(v: Word)
    ensures Clear(v, 0xFFFF) <==> v % 0x1_0000 == 0
  {
  }

  lemma Clear17(v: Word)
    ensures Clear(v, 0x1_FFFF) <==> v % 0x2_0000 == 0
  {
  }

  lemma Clear18(v: Word)
    ensures Clear(v, 0x3_FFFF) <==> v % 0x4_0000 == 0
  {
  }

  // ----- Steps ------------------------------------------------------------------------------

  /** One bit of division by the polynomial, lowest bit first. */
  function BitStep(v: Word): Word {
    if Odd(v) then Xor(Half(v), POLY) else Half(v)
  }

  function BitSteps(v: Word, n: nat): Word {
    if n == 0 then v else BitStep(BitSteps(v, n - 1))
  }

  /** One byte, bit by bit. */
  function ByteStep(fp: Word, b: Byte): Word {
    BitSteps(Xor(fp, Widen(b)), 8)
  }

  ghost predicate IsTable(table: seq<Word>) {
    |table| == 256 && forall i :: 0 <= i < 256 ==> table[i] == BitSteps(Widen(i as Byte), 8)
  }

  /** Filled in place, entry by entry and bit by bit. */
  method RabinTable() returns (table: array<Word>)
    ensures fresh(table) && IsTable(table[..])
  {
    hide BitSteps;
    hide Widen;
    table := new Word[256];
    for i := 0 to 256
      invariant forall k :: 0 <= k < i ==> table[k] == BitSteps(Widen(k as Byte), 8)
    {
      table[i] := TableEntry(i);
    }
  }

  method TableEntry(i: nat) returns (v: Word)
    requires i < 256
    ensures v == BitSteps(Widen(i as Byte), 8)
  {
    hide BitStep;
    hide Widen;
    v := Widen(i as Byte);
    for bit := 0 to 8
      invariant v == BitSteps(Widen(i as Byte), bit)
    {
      v := NextBit(v);
    }
  }

  method NextBit(v: Word) returns (r: Word)
    ensures r == BitStep(v)
  {
    return if v & 1 == 1 then (v >> 1) ^ POLY else v >> 1;
  }

  /** The table update of one byte. */
  function TableStep(table: seq<Word>, fp: Word, b: Byte): Word
    requires |table| == 256
  {
    var at := Low(Xor(fp, Widen(b)));
    ByteIndex(at);
    Xor(ShiftByte(fp), table[at as int])
  }

  lemma ZeroSteps()
    ensures ByteStep(0, 0) == 0
  {
    hide BitStep;
    assert BitStep(0) == 0 by { ZeroBit(); }
    assert BitSteps(0, 4) == 0;
  }

  lemma ZeroBit()
    ensures BitStep(0) == 0
  {
  }

  // ----- Linearity --------------------------------------------------------------------------

  lemma BitStepLinear(a: Word, b: Word)
    ensures BitStep(Xor(a, b)) == Xor(BitStep(a), BitStep(b))
  {
    hide Xor;
    hide Half;
    hide Odd;
    var x, y, p := Half(a), Half(b), POLY;
    HalfLaws(a, b);
    XorPairs(x, p, y, p);
    XorLaws(p, p);
    XorLaws(Xor(x, y), p);
    XorAssociative(x, y, p);
    XorAssociative(x, p, y);
    XorLaws(y, p);
  }

  lemma {:induction false} BitStepsLinear(a: Word, b: Word, n: nat)
    ensures BitSteps(Xor(a, b), n) == Xor(BitSteps(a, n), BitSteps(b, n))
  {
    hide BitStep;
    hide Xor;
    if n > 0 {
      BitStepsLinear(a, b, n - 1);
      BitStepLinear(BitSteps(a, n - 1), BitSteps(b, n - 1));
    }
  }

  // ----- The table --------------------------------------------------------------------------

  lemma ClearStep(v: Word, mask: Word, next: Word)
    requires Clear(v, mask) && mask & 1 == 1 && next == mask >> 1
    ensures BitStep(v) == Half(v) && Clear(Half(v), next)
  {
  }

  lemma EightHalves(v: Word)
    ensures Half(Half(Half(Half(Half(Half(Half(Half(v)))))))) == ShiftByte(v)
  {
  }

  lemma HighIsClear(v: Word)
    ensures Clear(High(v), 0xFF)
  {
  }

  /** Where the low byte is zero, eight steps only shift. */
  lemma HighSteps(v: Word)
    ensures BitSteps(High(v), 8) == ShiftByte(High(v))
  {
    hide BitStep;
    hide Half;
    hide Clear;
    hide ShiftByte;
    hide High;
    var v0 := High(v);
    HighIsClear(v);
    ClearStep(v0, 0xFF, 0x7F);
    var v1 := Half(v0);
    ClearStep(v1, 0x7F, 0x3F);
    var v2 := Half(v1);
    ClearStep(v2, 0x3F, 0x1F);
    var v3 := Half(v2);
    ClearStep(v3, 0x1F, 0xF);
    var v4 := Half(v3);
    ClearStep(v4, 0xF, 7);
    var v5 := Half(v4);
    ClearStep(v5, 7, 3);
    var v6 := Half(v5);
    ClearStep(v6, 3, 1);
    var v7 := Half(v6);
    ClearStep(v7, 1, 0);
    EightHalves(v0);
    assert BitSteps(v0, 1) == v1;
    assert BitSteps(v0, 2) == v2;
    assert BitSteps(v0, 3) == v3;
    assert BitSteps(v0, 4) == v4;
    assert BitSteps(v0, 5) == v5;
    assert BitSteps(v0, 6) == v6;
    assert BitSteps(v0, 7) == v7;
  }

  lemma TableAt(table: seq<Word>, b: Byte)
    requires IsTable(table)
    ensures b as int < |table| && table[b as int] == BitSteps(Widen(b), 8)
  {
    hide BitSteps;
    hide Widen;
    ByteIndex(b);
  }

  /** One look-up does what eight bit steps do, for every fingerprint, byte and correct table. */
  lemma TableIsBitSteps(table: seq<Word>, fp: Word, b: Byte)
    requires IsTable(table)
    ensures TableStep(table, fp, b) == ByteStep(fp, b)
  {
    hide BitSteps;
    hide Widen;
    hide Low;
    hide High;
    hide Xor;
    hide ShiftByte;
    var v := Xor(fp, Widen(b));
    TableAt(table, Low(v));
    ByteLaws(v, fp, b, b);
    HighSteps(v);
    BitStepsLinear(High(v), Widen(Low(v)), 8);
  }

  // ----- Whole chunks -----------------------------------------------------------------------

  /** The fingerprint after all the bytes of a chunk. */
  function Fingerprint(data: Bytes): Word {
    if data == [] then 0 else ByteStep(Fingerprint(data[..|data| - 1]), data[|data| - 1])
  }

  /** The polynomial is what the highest bit of a byte leaves. */
  lemma HighBitLeavesPolynomial()
    ensures Fingerprint([0x80]) == 0xbfe6b8a5bf378d83
  {
    hide BitStep;
    assert [0x80 as Byte][..0] == [];
    assert Fingerprint([0x80]) == ByteStep(0, 0x80);
    SevenHalves();
    assert BitSteps(0x80, 4) == 0x08;
  }

  lemma SevenHalves()
    ensures BitStep(0x80) == 0x40 && BitStep(0x40) == 0x20 && BitStep(0x20) == 0x10 && BitStep(0x10) == 0x08
    ensures BitStep(0x08) == 0x04 && BitStep(0x04) == 0x02 && BitStep(0x02) == 0x01
    ensures BitStep(0x01) == 0xbfe6b8a5bf378d83 && Xor(0, Widen(0x80)) == 0x80
  {
  }

  function XorBytes(a: Bytes, b: Bytes): Bytes
    requires |a| == |b|
  {
    seq(|a|, i requires 0 <= i < |a| => a[i] ^ b[i])
  }

  lemma ByteStepLinear(x: Word, y: Word, a: Byte, b: Byte)
    ensures ByteStep(Xor(x, y), a ^ b) == Xor(ByteStep(x, a), ByteStep(y, b))
  {
    hide BitSteps;
    hide Xor;
    hide Widen;
    ByteLaws(x, y, a, b);
    XorPairs(x, y, Widen(a), Widen(b));
    BitStepsLinear(Xor(x, Widen(a)), Xor(y, Widen(b)), 8);
  }

  /** The fingerprint of the exclusive-or of two equally long chunks is that of their fingerprints. */
  lemma {:induction false} FingerprintLinear(a: Bytes, b: Bytes)
    requires |a| == |b|
    ensures Fingerprint(XorBytes(a, b)) == Xor(Fingerprint(a), Fingerprint(b))
  {
    hide ByteStep;
    hide Xor;
    if a == [] {
      XorLaws(0, 0);
    } else {
      var n := |a| - 1;
      FingerprintLinear(a[..n], b[..n]);
      assert XorBytes(a, b)[..n] == XorBytes(a[..n], b[..n]);
      ByteStepLinear(Fingerprint(a[..n]), Fingerprint(b[..n]), a[n], b[n]);
    }
  }
}
