/** BZ2_blockSort and BZ2_compressBlock: from a full block to its image on the
    bit stream. */
module CompressBlock {
  import opened Arith
  import opened Bits
  import opened Rotations
  import opened MoveToFront
  import opened GenerateMtf
  import opened BlockCrc
  import opened BlockImage
  import opened BitWriter
  import RunLength
  import FallbackSort
  import BigBuckets
  import MainSort
  import SendMtf
  import CodeLengths

  // ---------- Sorting ----------

  /** fallbackSort, on arrays of its own. */
  method FallbackOrder(block: seq<Byte>) returns (order: seq<nat>)
    requires 0 < |block| <= 900000
    ensures SortsRotations(block, order)
    ensures Constant(block) ==> FallbackSort.Reversal(order)
  {
    hide SortsRotations, Constant, FallbackSort.Reversal;
    var nblock := |block|;
    var fmap, eclass := new nat[nblock], new nat[nblock];
    var eclass8 := new Byte[nblock](i requires 0 <= i < nblock => block[i]);
    var bhtab := new bv32[nblock / 32 + 3];
    assert eclass8[..] == block;
    FallbackSort.Sort(fmap, eclass, eclass8, bhtab, nblock);
    order := fmap[..];
  }

  /** mainSort, likewise; there is no order when its budget runs out. */
  method MainOrder(block: seq<Byte>, budget: nat) returns (done: bool, order: seq<nat>)
    requires MainSort.OVERSHOOT < |block| <= 900000
    ensures done ==> SortsRotations(block, order)
    ensures Constant(block) ==> done && BigBuckets.InOrder(order)
  {
    hide SortsRotations, Constant, BigBuckets.InOrder;
    var nblock := |block|;
    var ptr, quadrant, ftab := new nat[nblock], new nat[nblock + MainSort.OVERSHOOT], new nat[65537];
    var copy := new Byte[nblock + MainSort.OVERSHOOT](i => if 0 <= i < nblock then block[i] else 0);
    assert copy[..nblock] == block;
    var left := BigBuckets.Sort(ptr, copy, quadrant, ftab, nblock, budget);
    done, order := left >= 0, ptr[..];
  }

  /** BZ2_blockSort: small blocks by fallbackSort, large ones by mainSort while
      its budget lasts; then find rotation 0. */
  method BlockSort(block: seq<Byte>, workFactor: int) returns (order: seq<nat>, origPtr: nat)
    requires 0 < |block| <= 900000
    ensures SortsRotations(block, order) && origPtr < |order| && order[origPtr] == 0
    ensures Constant(block) ==> origPtr == if |block| < 10000 then |block| - 1 else 0
  {
    hide SortsRotations, Constant;
    var nblock := |block|;
    if nblock < 10000 {
      order := FallbackOrder(block);
    } else {
      var wfact := if workFactor < 1 then 1 else if workFactor > 100 then 100 else workFactor;
      var done;
      done, order := MainOrder(block, nblock * ((wfact - 1) / 3));
      if !done {
        order := FallbackOrder(block);
      }
    }
    HasZero(block, order);
    origPtr := 0;
    while origPtr < nblock && order[origPtr] != 0
      invariant origPtr <= nblock && forall k :: 0 <= k < origPtr ==> order[k] != 0
    {
      origPtr := origPtr + 1;
    }
  }

  lemma HasZero(b: Block, f: seq<nat>)
    requires SortsRotations(b, f)
    ensures |f| == |b| && 0 in f
  {
    hide Key;
    Onto(f, 0);
  }

  // ---------- The 16-bit view of arr1 ----------

  /** The cells of 32-bit words, low half first. */
  method Cells(words: seq<nat>) returns (arr1: array<nat>)
    requires forall k :: 0 <= k < |words| ==> words[k] < 0x1_0000_0000
    ensures fresh(arr1) && PointersFrom(arr1[..], words, 0)
  {
    arr1 := new nat[2 * |words|];
    for k := 0 to |words|
      invariant forall i :: 0 <= i < k ==> PtrAt(arr1[..], i) == words[i]
    {
      arr1[2 * k] := words[k] % 65536;
      arr1[2 * k + 1] := words[k] / 65536;
      assert PtrAt(arr1[..], k) == words[k];
    }
  }

  lemma OrderFitsWords(b: Block, f: seq<nat>)
    requires SortsRotations(b, f) && |b| <= 900000
    ensures b != [] && Permutation(f) && |f| == |b| && forall k :: 0 <= k < |f| ==> f[k] < 0x1_0000_0000
  {
    hide Key;
  }

  // ---------- One block ----------

  method PutMagic(w: BitStream, m: seq<Byte>)
    requires w.Valid()
    modifies w
    ensures w.Valid() && w.Sent() == old(w.Sent()) + PutBytes(m)
  {
    hide PutByte, BitStream.Valid, BitStream.Sent;
    ghost var plan := w.Sent() + PutBytes(m);
    assert m[0..] == m;
    for i := 0 to |m|
      invariant w.Valid() && w.Sent() + PutBytes(m[i..]) == plan
    {
      assert m[i..][1..] == m[i + 1..];
      SendMtf.Onward(w.Sent(), PutByte(m[i]), PutBytes(m[i + 1..]), plan);
      w.PutUChar(m[i]);
    }
    assert m[|m|..] == [];
    SendMtf.AllSent(w.Sent(), plan);
  }

  /** The symbols of a sorted block, counted. */
  method BlockSymbols(block: seq<Byte>, order: seq<nat>, inUse: seq<bool>)
    returns (nInUse: nat, mtfv: seq<nat>, mtfFreq: seq<nat>)
    requires SortsRotations(block, order) && |block| <= 900000 && Covers(inUse, block)
    ensures nInUse == |Used(inUse, 256)| && 1 <= nInUse <= 256 && |mtfFreq| == nInUse + 2
    ensures Covers(inUse, LastColumn(block, order)) && LastColumn(block, order) != []
    ensures mtfv == Symbols(inUse, LastColumn(block, order)) && 0 < |mtfv| <= 900001
    ensures Tally(mtfFreq, mtfv, nInUse + 2) && forall i :: 0 <= i < |mtfv| ==> mtfv[i] < nInUse + 2
  {
    hide Tally, Used, SortsRotations, PointersFrom, Symbols;
    OrderFitsWords(block, order);
    var arr1 := Cells(order);
    var unseqToSeq, freq := new nat[256], new nat[258];
    var nMTF;
    nInUse, nMTF := GenerateMTFValues(arr1, block, |block|, inUse, unseqToSeq, freq, order);
    ghost var last := LastColumn(block, order);
    NonEmptyUse(inUse, last);
    SymbolsInAlphabet(inUse, last);
    mtfv, mtfFreq := arr1[..nMTF], freq[..nInUse + 2];
    TallyPrefix(freq[..], mtfv, nInUse + 2);
  }

  lemma TallyPrefix(freq: seq<nat>, v: seq<nat>, n: nat)
    requires n <= |freq| && Tally(freq, v, n)
    ensures Tally(freq[..n], v, n)
  {
  }

  /** The block's magic, checksum, randomisation bit and origPtr. */
  method PutHead(w: BitStream, blockCRC: bv32, origPtr: nat)
    requires w.Valid() && origPtr < 900000
    modifies w
    ensures w.Valid() && w.Sent() == old(w.Sent()) + HeadBits(blockCRC, origPtr)
  {
    hide Word, PutBytes, PutWord, ToBits, BitStream.Valid, BitStream.Sent;
    ghost var sent := w.Sent();
    PutMagic(w, BLOCK_MAGIC);
    w.PutUInt32(Word(blockCRC));
    SendMtf.SendBit(w, false);
    OrigPtrFits(origPtr);
    w.W(24, origPtr);
    FourParts(sent, PutBytes(BLOCK_MAGIC), PutWord(Word(blockCRC)), [false], ToBits(origPtr, 24));
  }

  lemma FourParts(s: Bits, a: Bits, b: Bits, c: Bits, d: Bits)
    ensures s + a + b + c + d == s + (a + b + c + d)
  {
  }

  /** The part of BZ2_compressBlock for a non-empty block. */
  method PutBlock(w: BitStream, block: seq<Byte>, inUse: seq<bool>, blockCRC: bv32, level: nat, workFactor: int,
                  ghost table: CrcTable, ghost data: Block)
    returns (ghost b: Sorted)
    requires w.Valid() && 0 < |block| <= 100000 * level <= 900000 && Marks(inUse, block)
    requires RunLength.UnRle(block) == RunLength.Some(data) && RunLength.Squeezed(block, data) && blockCRC == BlockSum(table, data)
    modifies w
    ensures GoodBlock(b, level) && b.data == data && b.bytes == block
    ensures w.Valid() && w.Sent() == old(w.Sent()) + BlockBits(table, b, level)
  {
    hide SortsRotations, Symbols, Used, LastColumn, Tally, RunLength.UnRle, BlockSum, HeadBits,
      BitStream.Valid, BitStream.Sent, GoodCoding, BodyBits, Codable, Covers, Marks, RunLength.Squeezed;
    MarksCover(inUse, block);
    var order, origPtr := BlockSort(block, workFactor);
    ghost var sent := w.Sent();
    OrderFitsWords(block, order);
    PutHead(w, blockCRC, origPtr);
    var nInUse, mtfv, mtfFreq := BlockSymbols(block, order, inUse);
    CoversSize(inUse, block);
    ghost var plan;
    var c;
    c, plan := SendMtf.SendMTFValues(w, inUse, mtfv, mtfFreq, nInUse);
    b := Sorted(block, order, origPtr, inUse, c, data);
    assert GoodBlock(b, level);
    BlockImageIs(table, b, level, mtfv);
    Regroup(sent, HeadBits(blockCRC, origPtr), BodyBits(inUse, c, mtfv));
  }

  lemma Regroup(a: Bits, b: Bits, c: Bits)
    ensures a + b + c == a + (b + c)
  {
  }

  lemma BlockImageIs(table: CrcTable, b: Sorted, level: nat, syms: seq<nat>)
    requires GoodBlock(b, level) && syms == Symbols(b.inUse, LastColumn(b.bytes, b.order))
    ensures Codable(b.coding, syms) && 0 < |b.coding.lens| && |b.inUse| == 256
    ensures AllIn(b.coding.selectors, Iota(|b.coding.lens|))
    ensures forall t :: 0 <= t < |b.coding.lens| ==> b.coding.lens[t] != []
    ensures BlockBits(table, b, level) == HeadBits(BlockSum(table, b.data), b.origPtr) + BodyBits(b.inUse, b.coding, syms)
  {
    hide SortsRotations, Symbols, Used, Codable, HeadBits, BodyBits, BlockSum;
    BlockIsCodable(b, level);
    SelectorsInList(b.coding, |Used(b.inUse, 256)| + 2, |syms|);
  }

  lemma CoversSize(inUse: seq<bool>, block: Block)
    requires Covers(inUse, block)
    ensures |inUse| == 256
  {
  }

  lemma OrigPtrFits(p: nat)
    requires p < 900000
    ensures p < Pow2(24)
  {
    Powers();
  }

  /** The stream header, written before the first block. */
  method PutHeader(w: BitStream, level: nat)
    requires w.Valid() && level <= 9
    modifies w
    ensures w.Valid() && w.Sent() == old(w.Sent()) + StreamHeader(level)
  {
    PutMagic(w, [0x42, 0x5A, 0x68, 0x30 + level]);
  }

  /** The trailer, and the last byte filled up. */
  method PutTrailer(w: BitStream, combinedCRC: bv32) returns (ghost pad: nat)
    requires w.Valid()
    modifies w
    ensures pad < 8 && PutBytes(w.zbits) == old(w.Sent()) + Trailer(combinedCRC) + Zeros(pad)
  {
    hide PutBytes, PutWord, Word, BitStream.Valid, BitStream.Sent;
    ghost var sent := w.Sent();
    PutMagic(w, END_MAGIC);
    w.PutUInt32(Word(combinedCRC));
    assert w.Sent() == sent + Trailer(combinedCRC);
    pad := w.FinishWrite();
  }
}
