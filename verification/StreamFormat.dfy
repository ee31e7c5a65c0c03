/** The format in literal bits: what a stream looks like from outside, whoever
    wrote it, and what the decoder insists on. */
module StreamFormat {
  import opened Arith
  import opened Bits
  import opened Rotations
  import opened GenerateMtf
  import opened BlockCrc
  import opened BlockImage
  import opened DecoderMachine
  import opened StreamRoundTrip

  // ---------- What is written ----------

  lemma TwoBytes(a: nat, b: Byte, n: nat)
    ensures ToBits(a, n) + PutByte(b) == ToBits(256 * a + b, n + 8)
  {
    Pow2Values();
    ToBitsConcat(a, n, b, 8);
  }

  lemma FromNothing(a: Byte)
    ensures PutByte(a) == ToBits(a, 8) && PutBytes([]) == []
  {
  }

  lemma FirstOf(s: seq<nat>)
    requires s != []
    ensures PutBytes(s) == PutByte(s[0]) + PutBytes(s[1..])
  {
  }

  /** Bytes one after the other are one long number. */
  lemma {:induction false} BytesAreNumber(s: seq<Byte>)
    ensures PutBytes(s) == ToBits(Number(s), 8 * |s|)
  {
    hide ToBits, PutByte, PutBytes;
    FromNothing(0);
    if s == [] {
      assert |ToBits(Number(s), 0)| == 0;
    } else {
      var k := |s| - 1;
      BytesAreNumber(s[..k]);
      assert s == s[..k] + [s[k]] && [s[k]][1..] == [];
      PutBytesConcat(s[..k], [s[k]]);
      FirstOf([s[k]]);
      TwoBytes(Number(s[..k]), s[k], 8 * k);
    }
  }

  /** Bytes as a number, the first one highest. */
  function Number(s: seq<Byte>): nat {
    if s == [] then 0 else 256 * Number(s[..|s| - 1]) + s[|s| - 1]
  }

  lemma WordIsNumber(u: nat)
    requires u < 0x1_0000_0000
    ensures PutWord(u) == ToBits(u, 32)
  {
    hide ToBits;
    var a, b, c, d := u / 16777216 % 256, u / 65536 % 256, u / 256 % 256, u % 256;
    TwoBytes(a, b, 8);
    TwoBytes(256 * a + b, c, 16);
    TwoBytes(256 * (256 * a + b) + c, d, 24);
    WordDigits(u);
  }

  lemma WordDigits(u: nat)
    requires u < 0x1_0000_0000
    ensures u == 256 * (256 * (256 * (u / 16777216 % 256) + u / 65536 % 256) + u / 256 % 256) + u % 256
  {
    var v, w := u / 256, u / 65536;
    assert w == v / 256 && u / 16777216 == w / 256 < 256;
  }

  /** A block begins with six bytes of pi, its checksum, a zero bit, origPtr. */
  lemma HeadFormat(crc: bv32, origPtr: nat)
    ensures HeadBits(crc, origPtr) == ToBits(0x314159265359, 48) + ToBits(Word(crc), 32) + [false] + ToBits(origPtr, 24)
  {
    hide ToBits, PutByte, PutBytes, PutWord, Word;
    BytesAreNumber(BLOCK_MAGIC);
    BlockMagicNumber();
    WordIsNumber(Word(crc));
  }

  lemma BlockMagicNumber()
    ensures Number(BLOCK_MAGIC) == 0x314159265359
  {
    SixDigits(0x31, 0x41, 0x59, 0x26, 0x53, 0x59);
  }

  lemma EndMagicNumber()
    ensures Number(END_MAGIC) == 0x177245385090
  {
    SixDigits(0x17, 0x72, 0x45, 0x38, 0x50, 0x90);
  }

  lemma SixDigits(a: Byte, b: Byte, c: Byte, d: Byte, e: Byte, f: Byte)
    ensures Number([a, b, c, d, e, f]) == 256 * (256 * (256 * (256 * (256 * a + b) + c) + d) + e) + f
  {
    var s: seq<Byte> := [a, b, c, d, e, f];
    assert s[..5] == [a, b, c, d, e] && s[..5][..4] == [a, b, c, d] && s[..5][..4][..3] == [a, b, c];
    FourDigits(a, b, c, d);
    assert Number([a, b, c, d, e]) == 256 * Number([a, b, c, d]) + e;
  }

  lemma FourDigits(a: Byte, b: Byte, c: Byte, d: Byte)
    ensures Number([a, b, c, d]) == 256 * (256 * (256 * a + b) + c) + d
  {
    var s: seq<Byte> := [a, b, c, d];
    assert s[..3] == [a, b, c] && s[..3][..2] == [a, b] && s[..3][..2][..1] == [a] && s[..3][..2][..1][..0] == [];
    assert Number([a]) == a;
    assert Number([a, b]) == 256 * a + b;
    assert Number([a, b, c]) == 256 * (256 * a + b) + c;
  }

  /** A stream begins with the letters BZh and a digit. */
  lemma StreamHeaderFormat(level: nat)
    requires level <= 9
    ensures StreamHeader(level) == ToBits(0x425A68, 24) + ToBits(0x30 + level, 8)
  {
    hide ToBits, PutByte, PutBytes;
    FourDigits(0x42, 0x5A, 0x68, 0x30 + level);
    BytesAreNumber([0x42, 0x5A, 0x68, 0x30 + level]);
    FromNothing(0x30 + level);
    TwoBytes(0x425A68, 0x30 + level, 24);
  }

  /** It ends with six bytes of the square root of pi and the combined checksum. */
  lemma TrailerFormat(combined: bv32)
    ensures Trailer(combined) == ToBits(0x177245385090, 48) + ToBits(Word(combined), 32)
  {
    hide ToBits, PutByte, PutBytes, PutWord, Word;
    BytesAreNumber(END_MAGIC);
    EndMagicNumber();
    WordIsNumber(Word(combined));
  }

  /** Fifty symbols share a table, the one their selector names. */
  lemma GroupsOfFifty(b: Sorted, level: nat, i: nat)
    requires GoodBlock(b, level) && i < |Symbols(b.inUse, LastColumn(b.bytes, b.order))|
    ensures i / 50 < |b.coding.selectors| == (|Symbols(b.inUse, LastColumn(b.bytes, b.order))| + 49) / 50
    ensures b.coding.selectors[i / 50] < |b.coding.lens|
    ensures LensAt(b.coding, i) == b.coding.lens[b.coding.selectors[i / 50]]
  {
    hide SortsRotations, Symbols, LastColumn, GoodLengths, Marks, Covers, Used;
  }
}
