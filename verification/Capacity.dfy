/** The image of any block fits behind the block in arr2. */
module Capacity {
  import opened Arith
  import opened Bits
  import opened Rotations
  import opened MoveToFront
  import opened GenerateMtf
  import opened CanonicalCode
  import opened BlockCrc
  import opened BlockImage
  import CodeLengths

  lemma {:induction false} RowsLength(inUse: seq<bool>, i: nat)
    requires |inUse| == 256 && i <= 16
    ensures |HeadFrom(inUse, i)| == 16 - i && |RowsFrom(inUse, i)| <= 16 * (16 - i)
    decreases 16 - i
  {
    if i < 16 {
      RowsLength(inUse, i + 1);
    }
  }

  lemma {:induction false} UnaryLength(j: nat)
    ensures |Unary(j)| == j + 1
  {
    if j > 0 {
      UnaryLength(j - 1);
    }
  }

  lemma {:induction false} UnaryAllLength(ranks: seq<nat>)
    requires forall i :: 0 <= i < |ranks| ==> ranks[i] < 6
    ensures |UnaryAll(ranks)| <= 6 * |ranks|
    decreases |ranks|
  {
    if ranks != [] {
      UnaryLength(ranks[0]);
      UnaryAllLength(ranks[1..]);
    }
  }

  lemma {:induction false} StepsLength(a: nat, b: nat)
    requires 1 <= a <= MAX_LEN && 1 <= b <= MAX_LEN
    ensures |Steps(a, b)| <= 2 * (MAX_LEN - 1)
    ensures |Steps(a, b)| == 2 * (if a < b then b - a else a - b)
    decreases if a < b then b - a else a - b
  {
    if a < b {
      StepsLength(a + 1, b);
    } else if a > b {
      StepsLength(a - 1, b);
    }
  }

  lemma {:induction false} DeltasLength(curr: nat, lens: seq<nat>)
    requires 1 <= curr <= MAX_LEN && forall v :: 0 <= v < |lens| ==> 1 <= lens[v] <= MAX_LEN
    ensures |Deltas(curr, lens)| <= 33 * |lens|
    decreases |lens|
  {
    if lens != [] {
      StepsLength(curr, lens[0]);
      DeltasLength(lens[0], lens[1..]);
    }
  }

  lemma TableLength(len: seq<nat>, alphaSize: nat)
    requires 0 < alphaSize <= MAX_ALPHA_SIZE && GoodLengths(len, alphaSize)
    ensures len != [] && |TableBits(len)| <= 5 + 33 * MAX_ALPHA_SIZE
  {
    hide ToBits, Deltas, CodeLengths.Kraft;
    DeltasLength(len[0], len);
  }

  lemma {:induction false} TablesLength(lens: seq<seq<nat>>, alphaSize: nat)
    requires 0 < alphaSize <= MAX_ALPHA_SIZE && forall t :: 0 <= t < |lens| ==> GoodLengths(lens[t], alphaSize)
    ensures forall t :: 0 <= t < |lens| ==> lens[t] != []
    ensures |TablesBits(lens)| <= (5 + 33 * MAX_ALPHA_SIZE) * |lens|
    decreases |lens|
  {
    hide TableBits, GoodLengths;
    forall t | 0 <= t < |lens| ensures lens[t] != [] {
      TableLength(lens[t], alphaSize);
    }
    if lens != [] {
      TablesLength(lens[1..], alphaSize);
      TableLength(lens[0], alphaSize);
    }
  }

  lemma {:induction false} SymbolsLength(c: Coding, alphaSize: nat, syms: seq<nat>, i: nat)
    requires GoodCoding(c, alphaSize, |syms|) && Codable(c, syms) && i <= |syms|
    ensures |SymbolBits(c, syms, i)| <= MAX_LEN * (|syms| - i)
    decreases |syms| - i
  {
    if i < |syms| {
      assert CodableAt(c, syms, i);
      assert GoodLengths(LensAt(c, i), alphaSize);
      SymbolsLength(c, alphaSize, syms, i + 1);
    }
  }

  lemma {:induction false} BytesLength(s: seq<nat>)
    ensures |PutBytes(s)| == 8 * |s|
    decreases |s|
  {
    if s != [] {
      BytesLength(s[1..]);
    }
  }

  /** How many bits the image of an n-byte block can take. */
  function ImageBound(n: nat): nat {
    105 + 16 + 256 + 18 + 6 * ((n + GROUP_SIZE) / GROUP_SIZE) + 6 * (5 + 33 * MAX_ALPHA_SIZE) + MAX_LEN * (n + 1)
  }

  lemma ImageLength(table: CrcTable, b: Sorted, level: nat)
    requires GoodBlock(b, level)
    ensures |BlockBits(table, b, level)| <= ImageBound(|b.bytes|)
  {
    hide SortsRotations, LastColumn, Symbols, Used, HeadFrom, RowsFrom, UnaryAll, Ranks, TablesBits, SymbolBits, Codable,
      PutBytes, PutWord, ToBits, GoodLengths, BlockSum, Word;
    SizeOfColumn(b);
    BlockIsCodable(b, level);
    var last := LastColumn(b.bytes, b.order);
    var syms := Symbols(b.inUse, last);
    var c, alphaSize := b.coding, |Used(b.inUse, 256)| + 2;
    NonEmptyUse(b.inUse, last);
    SelectorsInList(c, alphaSize, |syms|);
    RowsLength(b.inUse, 0);
    UnaryAllLength(Ranks(c.selectors, Iota(|c.lens|)));
    TablesLength(c.lens, alphaSize);
    SymbolsLength(c, alphaSize, syms, 0);
    HeadLength(BlockSum(table, b.data), b.origPtr);
    SixTables(|TablesBits(c.lens)|, |c.lens|);
  }

  lemma SixTables(n: nat, k: nat)
    requires n <= (5 + 33 * MAX_ALPHA_SIZE) * k && k <= 6
    ensures n <= 6 * (5 + 33 * MAX_ALPHA_SIZE)
  {
  }

  lemma HeadLength(crc: bv32, origPtr: nat)
    ensures |HeadBits(crc, origPtr)| == 105
  {
    hide ToBits, Word;
    BytesLength(BLOCK_MAGIC);
  }

  lemma SizeOfColumn(b: Sorted)
    requires SortsRotations(b.bytes, b.order)
    ensures b.bytes != [] && |LastColumn(b.bytes, b.order)| == |b.bytes|
  {
  }

  /** Bits carried over, header, image, trailer and padding together stay
      within what is left of arr2 after the block: 4 * (n + 34) bytes in all. */
  lemma ImageFits(nblock: nat, level: nat, bits: nat)
    requires 1 <= level <= 9 && nblock <= 100000 * level && bits <= 32 + 32 + ImageBound(nblock) + 80 + 7
    ensures nblock + bits / 8 <= 4 * (100000 * level + 34)
  {
  }
}
