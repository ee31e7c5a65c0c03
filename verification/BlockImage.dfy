/** The bits of a bzip2 stream as compress.c sends them: the header, one image
    per block, the trailer. */
module BlockImage {
  import opened Arith
  import opened Bits
  import opened Rotations
  import opened MoveToFront
  import opened GenerateMtf
  import opened CanonicalCode
  import CodeLengths
  import RunLength
  import opened BlockCrc

  const GROUP_SIZE := 50
  const MAX_LEN := 17
  const MAX_SELECTORS := 18002

  // ---------- Numbers ----------

  function PutByte(c: nat): Bits { ToBits(c, 8) }

  function PutBytes(s: seq<nat>): Bits {
    if s == [] then [] else PutByte(s[0]) + PutBytes(s[1..])
  }

  lemma {:induction false} PutBytesConcat(a: seq<nat>, b: seq<nat>)
    ensures PutBytes(a + b) == PutBytes(a) + PutBytes(b)
    decreases |a|
  {
    hide PutByte;
    if a == [] {
      assert [] + b == b;
    } else {
      assert (a + b)[1..] == a[1..] + b;
      PutBytesConcat(a[1..], b);
    }
  }

  /** bsPutUInt32: four bytes, the highest first. */
  function PutWord(u: nat): Bits {
    PutByte(u / 16777216 % 256) + PutByte(u / 65536 % 256) + PutByte(u / 256 % 256) + PutByte(u % 256)
  }

  /** A checksum as a number. */
  function Word(crc: bv32): (u: nat)
    ensures u < 0x1_0000_0000
  {
    crc as nat
  }

  // ---------- The mapping table ----------

  function Row16(inUse: seq<bool>, i: nat): (r: seq<bool>)
    requires |inUse| == 256 && i < 16
    ensures |r| == 16 && forall j :: 0 <= j < 16 ==> r[j] == inUse[16 * i + j]
  {
    inUse[16 * i..16 * i + 16]
  }

  function RowUsed(inUse: seq<bool>, i: nat): bool
    requires |inUse| == 256 && i < 16
  {
    true in Row16(inUse, i)
  }

  function HeadFrom(inUse: seq<bool>, i: nat): Bits
    requires |inUse| == 256 && i <= 16
    decreases 16 - i
  {
    if i == 16 then [] else [RowUsed(inUse, i)] + HeadFrom(inUse, i + 1)
  }

  function RowsFrom(inUse: seq<bool>, i: nat): Bits
    requires |inUse| == 256 && i <= 16
    decreases 16 - i
  {
    if i == 16 then []
    else (if RowUsed(inUse, i) then Row16(inUse, i) else []) + RowsFrom(inUse, i + 1)
  }

  // ---------- Selectors ----------

  /** The front positions that code a list of selectors, MTF-style. */
  function Ranks(selectors: seq<nat>, pos: seq<nat>): (r: seq<nat>)
    requires Distinct(pos) && AllIn(selectors, pos)
    ensures |r| == |selectors| && forall i :: 0 <= i < |r| ==> r[i] < |pos|
    decreases |selectors|
  {
    if selectors == [] then []
    else
      var k := IndexOf(pos, selectors[0]);
      MoveFrontFacts(pos, k);
      [k] + Ranks(selectors[1..], MoveFront(pos, k))
  }

  function Unary(j: nat): Bits {
    if j == 0 then [false] else [true] + Unary(j - 1)
  }

  function UnaryAll(ranks: seq<nat>): Bits {
    if ranks == [] then [] else Unary(ranks[0]) + UnaryAll(ranks[1..])
  }

  // ---------- Code lengths ----------

  /** Two bits for each step from one length to the next. */
  function Steps(curr: nat, len: nat): Bits
    decreases if curr < len then len - curr else curr - len
  {
    if curr < len then [true, false] + Steps(curr + 1, len)
    else if curr > len then [true, true] + Steps(curr - 1, len)
    else []
  }

  function Deltas(curr: nat, lens: seq<nat>): Bits
    decreases |lens|
  {
    if lens == [] then [] else Steps(curr, lens[0]) + [false] + Deltas(lens[0], lens[1..])
  }

  function TableBits(lens: seq<nat>): Bits
    requires lens != []
  {
    ToBits(lens[0], 5) + Deltas(lens[0], lens)
  }

  function TablesBits(lens: seq<seq<nat>>): Bits
    requires forall t :: 0 <= t < |lens| ==> lens[t] != []
    decreases |lens|
  {
    if lens == [] then [] else TableBits(lens[0]) + TablesBits(lens[1..])
  }

  // ---------- Symbols ----------

  datatype Coding = Coding(selectors: seq<nat>, lens: seq<seq<nat>>)

  /** Code lengths this encoder uses: a complete prefix code within the limit. */
  ghost predicate GoodLengths(len: seq<nat>, alphaSize: nat) {
    && |len| == alphaSize
    && (forall v :: 0 <= v < alphaSize ==> 1 <= len[v] <= MAX_LEN)
    && CodeLengths.Kraft(len, MAX_LEN) == Pow2(MAX_LEN)
  }

  ghost predicate GoodCoding(c: Coding, alphaSize: nat, nMTF: nat) {
    && 2 <= |c.lens| <= 6
    && (forall t :: 0 <= t < |c.lens| ==> GoodLengths(c.lens[t], alphaSize))
    && 1 <= |c.selectors| <= MAX_SELECTORS && |c.selectors| == (nMTF + GROUP_SIZE - 1) / GROUP_SIZE
    && (forall i :: 0 <= i < |c.selectors| ==> c.selectors[i] < |c.lens|)
  }

  /** The code lengths in force for symbol number i. */
  function LensAt(c: Coding, i: nat): seq<nat>
    requires i / GROUP_SIZE < |c.selectors| && c.selectors[i / GROUP_SIZE] < |c.lens|
  {
    c.lens[c.selectors[i / GROUP_SIZE]]
  }

  ghost predicate CodableAt(c: Coding, syms: seq<nat>, i: nat)
    requires i < |syms|
  {
    && i / GROUP_SIZE < |c.selectors| && c.selectors[i / GROUP_SIZE] < |c.lens|
    && syms[i] < |LensAt(c, i)|
  }

  ghost predicate Codable(c: Coding, syms: seq<nat>) {
    forall i :: 0 <= i < |syms| ==> CodableAt(c, syms, i)
  }

  ghost function SymbolBits(c: Coding, syms: seq<nat>, i: nat): Bits
    requires Codable(c, syms) && i <= |syms|
    decreases |syms| - i
  {
    if i == |syms| then []
    else
      assert CodableAt(c, syms, i);
      CodeBits(LensAt(c, i), syms[i]) + SymbolBits(c, syms, i + 1)
  }

  lemma CodingCovers(c: Coding, alphaSize: nat, syms: seq<nat>)
    requires GoodCoding(c, alphaSize, |syms|) && forall i :: 0 <= i < |syms| ==> syms[i] < alphaSize
    ensures Codable(c, syms)
  {
    forall i | 0 <= i < |syms| ensures CodableAt(c, syms, i) {
      assert i / GROUP_SIZE < (|syms| + GROUP_SIZE - 1) / GROUP_SIZE;
      assert GoodLengths(c.lens[c.selectors[i / GROUP_SIZE]], alphaSize);
    }
  }

  // ---------- A block ----------

  const BLOCK_MAGIC := [0x31, 0x41, 0x59, 0x26, 0x53, 0x59]
  const END_MAGIC := [0x17, 0x72, 0x45, 0x38, 0x50, 0x90]

  /** A block on its way: its bytes, a sort of its rotations, the map of its
      bytes, and how its symbols are coded. */
  datatype Sorted = Sorted(bytes: Block, order: seq<nat>, origPtr: nat, inUse: seq<bool>, coding: Coding, data: Block)

  ghost predicate GoodBlock(b: Sorted, level: nat) {
    && SortsRotations(b.bytes, b.order) && |b.bytes| <= 100000 * level
    && b.origPtr < |b.order| && b.order[b.origPtr] == 0
    && Marks(b.inUse, b.bytes) && Covers(b.inUse, LastColumn(b.bytes, b.order))
    && GoodCoding(b.coding, |Used(b.inUse, 256)| + 2, |Symbols(b.inUse, LastColumn(b.bytes, b.order))|)
    && RunLength.UnRle(b.bytes) == RunLength.Some(b.data) && RunLength.Squeezed(b.bytes, b.data)
  }

  lemma SymbolsInAlphabet(inUse: seq<bool>, last: Block)
    requires Covers(inUse, last) && last != []
    ensures forall i :: 0 <= i < |Symbols(inUse, last)| ==> Symbols(inUse, last)[i] < |Used(inUse, 256)| + 2
  {
    ColumnInList(inUse, last);
    NonEmptyUse(inUse, last);
  }

  lemma BlockIsCodable(b: Sorted, level: nat)
    requires GoodBlock(b, level)
    ensures Codable(b.coding, Symbols(b.inUse, LastColumn(b.bytes, b.order)))
  {
    var last := LastColumn(b.bytes, b.order);
    SymbolsInAlphabet(b.inUse, last);
    CodingCovers(b.coding, |Used(b.inUse, 256)| + 2, Symbols(b.inUse, last));
  }

  /** The alphabet of a block has its distinct bytes, two run digits in place of
      the front rank, and the end marker. */
  lemma AlphabetOfBlock(b: Sorted, level: nat, t: nat)
    requires GoodBlock(b, level) && t < |b.coding.lens|
    ensures |b.coding.lens[t]| == |set v | v in b.bytes| + 2
  {
    hide SortsRotations, LastColumn, Covers, Symbols, Used, CodeLengths.Kraft, RunLength.UnRle;
    UsedAreDistinct(b.inUse, b.bytes);
    assert GoodLengths(b.coding.lens[t], |Used(b.inUse, 256)| + 2);
  }

  ghost function HeadBits(crc: bv32, origPtr: nat): Bits {
    PutBytes(BLOCK_MAGIC) + PutWord(Word(crc)) + [false] + ToBits(origPtr, 24)
  }

  /** Everything sendMTFValues writes. */
  ghost function BodyBits(inUse: seq<bool>, c: Coding, syms: seq<nat>): Bits
    requires |inUse| == 256 && 0 < |c.lens| && Codable(c, syms)
    requires AllIn(c.selectors, Iota(|c.lens|))
    requires forall t :: 0 <= t < |c.lens| ==> c.lens[t] != []
  {
    HeadFrom(inUse, 0) + (RowsFrom(inUse, 0) +
    (ToBits(|c.lens|, 3) + (ToBits(|c.selectors|, 15) + (UnaryAll(Ranks(c.selectors, Iota(|c.lens|))) +
    (TablesBits(c.lens) + SymbolBits(c, syms, 0))))))
  }

  lemma SelectorsInList(c: Coding, alphaSize: nat, nMTF: nat)
    requires GoodCoding(c, alphaSize, nMTF) && alphaSize > 0
    ensures AllIn(c.selectors, Iota(|c.lens|))
    ensures forall t :: 0 <= t < |c.lens| ==> c.lens[t] != []
  {
    forall s | s in c.selectors ensures s in Iota(|c.lens|) {
      assert Iota(|c.lens|)[s] == s;
    }
    forall t | 0 <= t < |c.lens| ensures c.lens[t] != [] {
      assert GoodLengths(c.lens[t], alphaSize);
    }
  }

  ghost function BlockBits(table: CrcTable, b: Sorted, level: nat): Bits
    requires GoodBlock(b, level)
  {
    BlockIsCodable(b, level);
    var syms := Symbols(b.inUse, LastColumn(b.bytes, b.order));
    SelectorsInList(b.coding, |Used(b.inUse, 256)| + 2, |syms|);
    HeadBits(BlockSum(table, b.data), b.origPtr) + BodyBits(b.inUse, b.coding, syms)
  }

  // ---------- A stream ----------

  ghost predicate GoodBlocks(bs: seq<Sorted>, level: nat) {
    forall i :: 0 <= i < |bs| ==> GoodBlock(bs[i], level)
  }

  ghost function BlocksBits(table: CrcTable, bs: seq<Sorted>, level: nat): Bits
    requires GoodBlocks(bs, level)
  {
    if bs == [] then [] else BlockBits(table, bs[0], level) + BlocksBits(table, bs[1..], level)
  }

  ghost function Data(bs: seq<Sorted>): Block {
    if bs == [] then [] else bs[0].data + Data(bs[1..])
  }

  ghost function Sums(table: CrcTable, bs: seq<Sorted>): (r: seq<bv32>)
    ensures |r| == |bs|
  {
    seq(|bs|, i requires 0 <= i < |bs| => BlockSum(table, bs[i].data))
  }

  function StreamHeader(level: nat): Bits { PutBytes([0x42, 0x5A, 0x68, 0x30 + level]) }

  function Trailer(combined: bv32): Bits { PutBytes(END_MAGIC) + PutWord(Word(combined)) }

  /** A whole stream, before its last byte is filled up. */
  ghost function StreamBits(table: CrcTable, bs: seq<Sorted>, level: nat): Bits
    requires GoodBlocks(bs, level)
  {
    StreamHeader(level) + BlocksBits(table, bs, level) + Trailer(CombineAll(Sums(table, bs)))
  }
}
